/** The calling-code resolver: a dataset merged, prefix by prefix, into a digit trie. */
module CountryPhone {
  import opened Wrappers
  import opened NumTrie

  datatype GeoInfo = GeoInfo(alpha2: string, area: string, kind: int)
  datatype NumInfo = NumInfo(kind: int, geo: seq<GeoInfo>)
  datatype PrefixGroup = PrefixGroup(name: string, kind: int, prefixType: int, prefixes: seq<string>)
  datatype CountryData = CountryData(cc: string, groups: seq<PrefixGroup>)

  /** One area listed under one prefix. */
  datatype Entry = Entry(prefix: string, geo: GeoInfo)

  // ---------------------------------------------------------------- merging

  /** First occurrences only, in order. */
  function Unique(geo: seq<GeoInfo>): seq<GeoInfo>
    decreases |geo|
  {
    if geo == [] then []
    else
      var init := Unique(geo[..|geo| - 1]);
      var last := geo[|geo| - 1];
      if last in init then init else init + [last]
  }

  predicate NoDuplicates(geo: seq<GeoInfo>) {
    forall i, j :: 0 <= i < j < |geo| ==> geo[i] != geo[j]
  }

  /** Deduplication keeps every area once. */
  lemma {:induction false} UniqueKeepsAll(geo: seq<GeoInfo>)
    ensures NoDuplicates(Unique(geo))
    ensures forall g :: g in Unique(geo) <==> g in geo
    decreases |geo|
  {
    if geo != [] {
      var init := geo[..|geo| - 1];
      UniqueKeepsAll(init);
      assert geo == init + [geo[|geo| - 1]];
    }
  }

  method MergeGeo(existing: seq<GeoInfo>, added: seq<GeoInfo>) returns (merged: seq<GeoInfo>)
    ensures merged == Unique(existing + added)
  {
    var seen: set<GeoInfo> := {};
    merged := [];
    merged, seen := AppendUnique(merged, seen, existing, []);
    assert [] + existing == existing;
    merged, seen := AppendUnique(merged, seen, added, existing);
  }

  method AppendUnique(merged: seq<GeoInfo>, seen: set<GeoInfo>, geo: seq<GeoInfo>, ghost before: seq<GeoInfo>)
      returns (out: seq<GeoInfo>, all: set<GeoInfo>)
    requires merged == Unique(before) && forall g :: g in seen <==> g in merged
    ensures out == Unique(before + geo) && forall g :: g in all <==> g in out
  {
    out, all := merged, seen;
    assert before + geo[..0] == before;
    for i := 0 to |geo|
      invariant out == Unique(before + geo[..i]) && forall g :: g in all <==> g in out
    {
      var g := geo[i];
      assert before + geo[..i + 1] == (before + geo[..i]) + [g];
      assert (before + geo[..i + 1])[..|before| + i] == before + geo[..i];
      if g !in all {
        all := all + {g};
        out := out + [g];
      }
    }
    assert geo[..|geo|] == geo;
  }

  // ---------------------------------------------------------------- what a dataset lists

  function GroupEntries(alpha2: string, cc: string, g: PrefixGroup): seq<Entry> {
    var geo := GeoInfo(alpha2, g.name, g.kind);
    if g.prefixes == [] then [Entry(cc, geo)] else seq(|g.prefixes|, i requires 0 <= i < |g.prefixes| => Entry(g.prefixes[i], geo))
  }

  function GroupsEntries(alpha2: string, cc: string, groups: seq<PrefixGroup>): seq<Entry>
    decreases |groups|
  {
    if groups == [] then []
    else GroupsEntries(alpha2, cc, groups[..|groups| - 1]) + GroupEntries(alpha2, cc, groups[|groups| - 1])
  }

  lemma {:induction false} GroupsEntriesSnoc(alpha2: string, cc: string, groups: seq<PrefixGroup>, i: nat, before: seq<Entry>)
    requires i < |groups|
    ensures before + GroupsEntries(alpha2, cc, groups[..i + 1])
         == (before + GroupsEntries(alpha2, cc, groups[..i])) + GroupEntries(alpha2, cc, groups[i])
  {
    assert groups[..i + 1][..i] == groups[..i];
  }

  /** Every area a country lists: itself under its calling code, then its groups. */
  function CountryEntries(alpha2: string, c: CountryData): seq<Entry> {
    (if c.cc == "" then [] else [Entry(c.cc, GeoInfo(alpha2, "", 0))]) + GroupsEntries(alpha2, c.cc, c.groups)
  }

  /** The areas listed under exactly this digit path; a prefix without digits lists nothing. */
  ghost function AreasAt(entries: seq<Entry>, path: seq<Digit>): set<GeoInfo> {
    set e | e in entries && path != [] && Digits(e.prefix) == path :: e.geo
  }

  /** Some country among these lists the entry. */
  ghost predicate ListedBy(data: map<string, Option<CountryData>>, countries: set<string>, e: Entry) {
    exists a :: a in countries && a in data && data[a].Some? && e in CountryEntries(a, data[a].value)
  }

  ghost function AreasStored(stored: map<seq<Digit>, NumInfo>, path: seq<Digit>): set<GeoInfo> {
    if path in stored then set g | g in stored[path].geo else {}
  }

  /** What is stored is what was listed: at each path the same areas, each once, and nothing at the root. */
  ghost predicate Holds(stored: map<seq<Digit>, NumInfo>, entries: seq<Entry>) {
    && [] !in stored
    && (forall path :: path in stored ==> stored[path].geo != [] && NoDuplicates(stored[path].geo))
    && (forall path :: AreasStored(stored, path) == AreasAt(entries, path))
  }

  /** The value insertPrefix leaves at a path that already holds `was`. */
  function Merged(was: Option<NumInfo>, info: NumInfo): NumInfo {
    if was.Some? && was.value.geo != [] && info.geo != [] then info.(geo := Unique(was.value.geo + info.geo)) else info
  }

  function At(stored: map<seq<Digit>, NumInfo>, path: seq<Digit>): Option<NumInfo> {
    if path in stored then Some(stored[path]) else None
  }

  function Inserted(stored: map<seq<Digit>, NumInfo>, prefix: string, info: NumInfo): map<seq<Digit>, NumInfo> {
    var path := Digits(prefix);
    if path == [] then stored else stored[path := Merged(At(stored, path), info)]
  }

  /** Inserting one area under a prefix adds it there and nowhere else. */
  lemma InsertedHolds(stored: map<seq<Digit>, NumInfo>, entries: seq<Entry>, e: Entry, kind: int)
    requires Holds(stored, entries)
    ensures Holds(Inserted(stored, e.prefix, NumInfo(kind, [e.geo])), entries + [e])
  {
    var path := Digits(e.prefix);
    var stored' := Inserted(stored, e.prefix, NumInfo(kind, [e.geo]));
    if path in stored {
      UniqueKeepsAll(stored[path].geo + [e.geo]);
      assert stored[path].geo[0] in Unique(stored[path].geo + [e.geo]);
    }
    forall p
      ensures AreasStored(stored', p) == AreasAt(entries + [e], p)
    {
      assert AreasStored(stored, p) == AreasAt(entries, p);
      assert AreasAt(entries + [e], p) == AreasAt(entries, p) + if p != [] && path == p then {e.geo} else {};
      if path != [] && p == path {
        assert forall g :: g in stored'[p].geo <==> g in AreasStored(stored, p) || g == e.geo;
      }
    }
  }

  // ---------------------------------------------------------------- the resolver

  class Data {
    var trie: Node<NumInfo>
    ghost var entries: seq<Entry>  // everything inserted so far, in order

    ghost predicate Valid()
      reads this, trie, trie.nodes
    {
      trie.Valid() && Holds(trie.contents, entries)
    }

    constructor ()
      ensures Valid() && fresh(trie) && fresh(trie.nodes) && entries == []
    {
      trie := new Node<NumInfo>();
      entries := [];
    }

    static predicate HasDialableDigit(prefix: string) {
      exists i :: 0 <= i < |prefix| && KeypadDigit(prefix[i]).Some?
    }

    static lemma {:induction false} DialableIffDigits(prefix: string)
      ensures HasDialableDigit(prefix) <==> Digits(prefix) != []
      decreases |prefix|
    {
      if prefix != "" {
        var init := prefix[..|prefix| - 1];
        DialableIffDigits(init);
        if HasDialableDigit(init) {
          var i :| 0 <= i < |init| && KeypadDigit(init[i]).Some?;
          assert KeypadDigit(prefix[i]).Some?;
        }
        if HasDialableDigit(prefix) && KeypadDigit(prefix[|init|]).None? {
          var i :| 0 <= i < |prefix| && KeypadDigit(prefix[i]).Some?;
          assert KeypadDigit(init[i]).Some?;
        }
      }
    }

    /** Inserts an area under a prefix, merging with what the exact prefix already holds. */
    method InsertPrefix(prefix: string, kind: int, geo: GeoInfo)
      requires Valid()
      modifies this, trie, trie.nodes
      ensures Valid() && trie == old(trie) && fresh(trie.nodes - old(trie.nodes))
      ensures trie.contents == Inserted(old(trie.contents), prefix, NumInfo(kind, [geo]))
      ensures entries == old(entries) + [Entry(prefix, geo)]
    {
      DialableIffDigits(prefix);
      InsertedHolds(trie.contents, entries, Entry(prefix, geo), kind);
      entries := entries + [Entry(prefix, geo)];
      if !HasDialableDigit(prefix) {
        return;
      }
      var info := NumInfo(kind, [geo]);
      var v := trie.GetExact(prefix);
      if v.Some? && |v.value.geo| > 0 {
        if |info.geo| > 0 {
          var merged := MergeGeo(v.value.geo, info.geo);
          info := info.(geo := merged);
        }
      }
      var _ := trie.Add(prefix, Some(info));
    }

    /** Inserts a group under each of its prefixes, or under the calling code when it has none. */
    method InsertGroup(alpha2: string, cc: string, g: PrefixGroup)
      requires Valid()
      modifies this, trie, trie.nodes
      ensures Valid() && trie == old(trie) && fresh(trie.nodes - old(trie.nodes))
      ensures entries == old(entries) + GroupEntries(alpha2, cc, g)
    {
      var geo := GeoInfo(alpha2, g.name, g.kind);
      ghost var mine := GroupEntries(alpha2, cc, g);
      if |g.prefixes| == 0 {
        InsertPrefix(cc, g.prefixType, geo);
        return;
      }
      for j := 0 to |g.prefixes|
        invariant Valid() && trie == old(trie) && fresh(trie.nodes - old(trie.nodes))
        invariant entries == old(entries) + mine[..j]
      {
        InsertPrefix(g.prefixes[j], g.prefixType, geo);
        assert mine[..j + 1] == mine[..j] + [mine[j]];
      }
      assert mine[..|mine|] == mine;
    }

    /** Expands a country's groups into prefixes. */
    method InsertGroups(alpha2: string, c: CountryData)
      requires Valid()
      modifies this, trie, trie.nodes
      ensures Valid() && trie == old(trie) && fresh(trie.nodes - old(trie.nodes))
      ensures entries == old(entries) + GroupsEntries(alpha2, c.cc, c.groups)
    {
      for i := 0 to |c.groups|
        invariant Valid() && trie == old(trie) && fresh(trie.nodes - old(trie.nodes))
        invariant entries == old(entries) + GroupsEntries(alpha2, c.cc, c.groups[..i])
      {
        GroupsEntriesSnoc(alpha2, c.cc, c.groups, i, old(entries));
        InsertGroup(alpha2, c.cc, c.groups[i]);
      }
      assert c.groups[..|c.groups|] == c.groups;
    }

    /** Inserts a country under its calling code, when it has one, then its groups. */
    method LoadCountry(alpha2: string, c: CountryData)
      requires Valid()
      modifies this, trie, trie.nodes
      ensures Valid() && trie == old(trie) && fresh(trie.nodes - old(trie.nodes))
      ensures entries == old(entries) + CountryEntries(alpha2, c)
    {
      if c.cc != "" {
        InsertPrefix(c.cc, 0, GeoInfo(alpha2, "", 0));
      }
      if |c.groups| > 0 {
        InsertGroups(alpha2, c);
      }
    }

    /** Loads a dataset, its countries in any order; a nil country is skipped. */
    method LoadData(data: map<string, Option<CountryData>>)
      modifies this
      ensures Valid() && fresh(trie) && fresh(trie.nodes)
      ensures forall e :: e in entries <==> ListedBy(data, data.Keys, e)
    {
      trie := new Node<NumInfo>();
      entries := [];
      var remaining := data.Keys;
      while remaining != {}
        invariant Valid() && fresh(trie) && fresh(trie.nodes) && remaining <= data.Keys
        invariant forall e :: e in entries <==> ListedBy(data, data.Keys - remaining, e)
      {
        var alpha2 :| alpha2 in remaining;
        if data[alpha2].Some? {
          LoadCountry(alpha2, data[alpha2].value);
        }
        remaining := remaining - {alpha2};
      }
    }

    /** Resolves a number to the areas listed under its longest listed prefix, or reports that none is. */
    method NumberInfo(num: string) returns (r: Result<NumInfo, string>)
      requires Valid()
      ensures r.Ok? ==> exists i :: (
                1 <= i <= |Digits(num)|
                && (set g | g in r.value.geo) == AreasAt(entries, Digits(num)[..i]) != {}
                && NoDuplicates(r.value.geo)
                && forall j :: i < j <= |Digits(num)| ==> AreasAt(entries, Digits(num)[..j]) == {})
      ensures r.Err? ==> forall i :: 0 <= i <= |Digits(num)| ==> AreasAt(entries, Digits(num)[..i]) == {}
    {
      var data, status := trie.Get(num);
      ghost var stored, digits := trie.contents, Digits(num);
      ghost var longest := LongestStored(stored, digits, |digits|);
      LongestStoredIsLongest(stored, digits, |digits|);
      LeafStatusCarriesValue(stored, digits);
      if status < 0 {
        NoneWhenUnreached(stored, digits);
      }
      forall i | 0 <= i <= |digits|
        ensures digits[..i] in stored <==> AreasAt(entries, digits[..i]) != {}
      {
        assert AreasStored(stored, digits[..i]) == AreasAt(entries, digits[..i]);
        if digits[..i] in stored {
          assert stored[digits[..i]].geo[0] in AreasStored(stored, digits[..i]);
        }
      }
      if status < 0 || data.None? {
        return Err("no match for prefix");
      }
      assert AreasStored(stored, digits[..0]) == {};
      ghost var i :| 0 <= i <= |digits| && digits[..i] in stored && longest.value == stored[digits[..i]]
                     && forall j :: i < j <= |digits| ==> digits[..j] !in stored;
      assert AreasStored(stored, digits[..i]) == AreasAt(entries, digits[..i]);
      return Ok(data.value);
    }

    /** With nothing stored at the root, a number whose first digit leads nowhere has no stored prefix. */
    static lemma {:induction false} NoneWhenUnreached(stored: map<seq<Digit>, NumInfo>, digits: seq<Digit>)
      requires [] !in stored
      requires digits == [] || !Reaches(stored, digits[..1])
      ensures LongestStored(stored, digits, |digits|).None?
    {
      StoredWithinMatch(stored, digits, 0, |digits|);
      assert digits[..0] == [];
    }
  }
}
