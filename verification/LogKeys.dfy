/** slog's text handler: one pair per leaf, its key prefixed by the names of the groups around it, with the same
    rollback defect, which here leaves the name of an elided group in the prefix. */
module LogKeys {
  import opened Wrappers
  import opened Decimal
  import opened LogAttrs
  import opened LogSanitize
  import opened LogStd
  import opened LogLine

  datatype Pair = Pair(key: string, text: string)

  /** What a write did: slog's verdict, the pairs written and the prefix left behind. */
  datatype Keyed = Keyed(rendered: bool, pairs: seq<Pair>, prefix: string)

  function Enter(prefix: string, key: string): string {
    if key == "" then prefix else prefix + key + "."
  }

  /** Leaving a group drops as many characters as its name and the dot take. */
  function Leave(prefix: string, key: string): string {
    if key == "" || |prefix| < |key| + 1 then prefix else prefix[..|prefix| - |key| - 1]
  }

  function TextAttr(a: Attr, prefix: string): Keyed
    decreases a
  {
    match Resolve(a.value)
    case Plain(json) => Keyed(true, [Pair(prefix + a.key, json)], prefix)
    case Nil => if a.key == "" then Keyed(false, [], prefix) else Keyed(true, [Pair(prefix + a.key, "<nil>")], prefix)
    case Time(_, stamp) => Keyed(true, [Pair(prefix + a.key, stamp)], prefix)
    case Failure(nilPointer, message) => Keyed(true, [Pair(prefix + a.key, if nilPointer then "<nil>" else message)], prefix)
    case Source(nilPointer, function_, file, line) =>
      if EmptySource(Source(nilPointer, function_, file, line)) then Keyed(false, [], prefix)
      else Keyed(true, [Pair(prefix + a.key, file + ":" + IntText(line))], prefix)
    case Group(attrs) =>
      if attrs == [] then Keyed(true, [], prefix)
      else
        var inner := TextAttrs(attrs, Enter(prefix, a.key));
        if inner.rendered then Keyed(true, inner.pairs, Leave(inner.prefix, a.key)) else Keyed(false, [], inner.prefix)
  }

  function TextAttrs(attrs: seq<Attr>, prefix: string): Keyed
    decreases attrs
  {
    if attrs == [] then Keyed(false, [], prefix)
    else
      var first := TextAttr(attrs[0], prefix);
      var rest := TextAttrs(attrs[1..], first.prefix);
      Keyed(first.rendered || rest.rendered, first.pairs + rest.pairs, rest.prefix)
  }

  /** Every leaf under the names of the groups it stands in: what the handler is meant to write. */
  function Meant(a: Attr, prefix: string): seq<Pair>
    decreases a
  {
    match Resolve(a.value)
    case Group(attrs) => MeantAll(attrs, Enter(prefix, a.key))
    case _ => TextAttr(a, prefix).pairs
  }

  function MeantAll(attrs: seq<Attr>, prefix: string): seq<Pair>
    decreases attrs
  {
    if attrs == [] then [] else Meant(attrs[0], prefix) + MeantAll(attrs[1..], prefix)
  }

  /** What an elided attribute leaves in the prefix: the names of all groups opened inside it, in order. */
  function Leftover(a: Attr): string
    decreases a
  {
    var v := Resolve(a.value);
    if v.Group? && v.attrs != [] then Enter("", a.key) + Leftovers(v.attrs) else ""
  }

  function Leftovers(attrs: seq<Attr>): string
    decreases attrs
  {
    if attrs == [] then "" else Leftover(attrs[0]) + Leftovers(attrs[1..])
  }

  lemma {:induction false} SameVerdict(a: Attr, prefix: string)
    ensures TextAttr(a, prefix).rendered == StdAttr(a).rendered
    decreases a
  {
    var v := Resolve(a.value);
    if v.Group? && v.attrs != [] { SameVerdicts(v.attrs, Enter(prefix, a.key)); }
  }

  lemma {:induction false} SameVerdicts(attrs: seq<Attr>, prefix: string)
    ensures TextAttrs(attrs, prefix).rendered == StdAttrs(attrs).rendered
    decreases attrs
  {
    if attrs != [] {
      SameVerdict(attrs[0], prefix);
      SameVerdicts(attrs[1..], TextAttr(attrs[0], prefix).prefix);
    }
  }

  lemma LeaveEntered(prefix: string, key: string)
    ensures Leave(Enter(prefix, key), key) == prefix
  {
    if key != "" { assert (prefix + key + ".")[..|prefix|] == prefix; }
  }

  /** On a normal attribute every leaf comes under its own groups' names, and the prefix is as before. */
  lemma {:induction false} NormalKeys(a: Attr, prefix: string)
    requires Normal(a)
    ensures TextAttr(a, prefix) == Keyed(true, Meant(a, prefix), prefix)
    decreases a
  {
    NormalStd(a);
    RendersIffFields(a);
    SameVerdict(a, prefix);
    if a.value.Group? {
      NormalKeysOfAll(a.value.attrs, Enter(prefix, a.key));
      LeaveEntered(prefix, a.key);
    }
  }

  lemma {:induction false} NormalKeysOfAll(attrs: seq<Attr>, prefix: string)
    requires AllNormal(attrs)
    ensures TextAttrs(attrs, prefix).pairs == MeantAll(attrs, prefix) && TextAttrs(attrs, prefix).prefix == prefix
    decreases attrs
  {
    if attrs != [] {
      NormalKeys(attrs[0], prefix);
      NormalKeysOfAll(attrs[1..], prefix);
    }
  }

  /** The filter is enough for the text handler as well: no pair is written under a wrong key. */
  lemma {:induction false} FilteredKeysAreRight(attrs: seq<Attr>, prefix: string)
    ensures TextAttrs(NormAttrs(attrs), prefix).pairs == MeantAll(NormAttrs(attrs), prefix)
    ensures TextAttrs(NormAttrs(attrs), prefix).prefix == prefix
  {
    NormAttrsIsNormal(attrs);
    NormalKeysOfAll(NormAttrs(attrs), prefix);
  }

  lemma EnterThen(prefix: string, key: string, names: string)
    ensures Enter(prefix, key) + names == prefix + (Enter("", key) + names)
  {
    if key == "" {
      assert "" + names == names;
    } else {
      assert prefix + key + "." + names == prefix + ("" + key + "." + names);
    }
  }

  /** An elided attribute writes nothing and leaves the names of its groups in the prefix. */
  lemma {:induction false} ElidedLeavesItsNames(a: Attr, prefix: string)
    requires !StdAttr(a).rendered
    ensures TextAttr(a, prefix) == Keyed(false, [], prefix + Leftover(a))
    decreases a
  {
    var v := Resolve(a.value);
    SameVerdict(a, prefix);
    assert prefix + "" == prefix;
    if v.Group? {
      ElidedListLeavesItsNames(v.attrs, Enter(prefix, a.key));
      EnterThen(prefix, a.key, Leftovers(v.attrs));
    }
  }

  lemma {:induction false} ElidedListLeavesItsNames(attrs: seq<Attr>, prefix: string)
    requires !StdAttrs(attrs).rendered
    ensures TextAttrs(attrs, prefix) == Keyed(false, [], prefix + Leftovers(attrs))
    decreases attrs
  {
    if attrs == [] {
      assert prefix + "" == prefix;
    } else {
      ElidedLeavesItsNames(attrs[0], prefix);
      ElidedListLeavesItsNames(attrs[1..], prefix + Leftover(attrs[0]));
      assert prefix + Leftover(attrs[0]) + Leftovers(attrs[1..]) == prefix + (Leftover(attrs[0]) + Leftovers(attrs[1..]));
    }
  }

  /** The names are left exactly when a named group was opened: the same attributes that lose JSON's separator. */
  lemma {:induction false} LeftoverIffOpened(a: Attr)
    ensures Leftover(a) != "" <==> Opens(a)
    decreases a
  {
    var v := Resolve(a.value);
    if v.Group? && v.attrs != [] { LeftoversIffOpened(v.attrs); }
  }

  lemma {:induction false} LeftoversIffOpened(attrs: seq<Attr>)
    ensures Leftovers(attrs) != "" <==> exists i :: 0 <= i < |attrs| && Opens(attrs[i])
    decreases attrs
  {
    if attrs != [] {
      var rest := attrs[1..];
      LeftoverIffOpened(attrs[0]);
      LeftoversIffOpened(rest);
      if i :| 0 <= i < |rest| && Opens(rest[i]) { assert attrs[i + 1] == rest[i]; }
      if i :| 0 <= i < |attrs| && Opens(attrs[i]) { if i > 0 { assert rest[i - 1] == attrs[i]; } }
    }
  }

  /** A longer prefix makes every key longer by as much, and changes nothing else about the pairs' number. */
  lemma {:induction false} KeysGrowWithPrefix(a: Attr, p: string, q: string)
    ensures |Meant(a, p)| == |Meant(a, q)|
    ensures forall i :: 0 <= i < |Meant(a, p)| ==> |Meant(a, p)[i].key| - |p| == |Meant(a, q)[i].key| - |q|
    decreases a
  {
    var v := Resolve(a.value);
    if v.Group? { AllKeysGrowWithPrefix(v.attrs, Enter(p, a.key), Enter(q, a.key)); }
  }

  lemma {:induction false} AllKeysGrowWithPrefix(attrs: seq<Attr>, p: string, q: string)
    ensures |MeantAll(attrs, p)| == |MeantAll(attrs, q)|
    ensures forall i :: 0 <= i < |MeantAll(attrs, p)| ==> |MeantAll(attrs, p)[i].key| - |p| == |MeantAll(attrs, q)[i].key| - |q|
    decreases attrs
  {
    if attrs != [] {
      KeysGrowWithPrefix(attrs[0], p, q);
      AllKeysGrowWithPrefix(attrs[1..], p, q);
    }
  }

  /** What renders a field writes a pair. */
  lemma {:induction false} NormalWritesAPair(a: Attr, prefix: string)
    requires Normal(a)
    ensures Meant(a, prefix) != []
    decreases a
  {
    RendersIffFields(a);
    if a.value.Group? { SomeNormalWritesAPair(a.value.attrs, Enter(prefix, a.key)); }
  }

  lemma {:induction false} SomeNormalWritesAPair(attrs: seq<Attr>, prefix: string)
    requires AllNormal(attrs) && RenderAttrs(attrs) != []
    ensures MeantAll(attrs, prefix) != []
    decreases attrs
  {
    NormalWritesAPair(attrs[0], prefix);
  }

  lemma {:induction false} PairsOfTwo(a: Attr, b: Attr, prefix: string)
    ensures var first := TextAttr(a, prefix);
            TextAttrs([a, b], prefix).pairs == first.pairs + TextAttr(b, first.prefix).pairs
  {
    var first := TextAttr(a, prefix);
    var second := TextAttr(b, first.prefix);
    assert [a, b][1..] == [b] && [b][1..] == [];
    assert TextAttrs([b], first.prefix).pairs == second.pairs + [] == second.pairs;
  }

  /** A filtered attribute right after an elided one is written under the elided one's group names, so its keys are
      the right ones exactly if the elided one opened no group. */
  lemma {:induction false} NextKeysAfterElided(g: Attr, z: Attr, prefix: string)
    requires !StdAttr(g).rendered && Normal(z)
    ensures TextAttrs([g, z], prefix).pairs == Meant(z, prefix + Leftover(g))
    ensures TextAttrs([g, z], prefix).pairs == Meant(z, prefix) <==> !Opens(g)
  {
    var wrong := prefix + Leftover(g);
    ElidedLeavesItsNames(g, prefix);
    NormalKeys(z, wrong);
    LeftoverIffOpened(g);
    PairsOfTwo(g, z, prefix);
    assert [] + Meant(z, wrong) == Meant(z, wrong);
    KeysGrowWithPrefix(z, wrong, prefix);
    NormalWritesAPair(z, wrong);
    if Leftover(g) == "" {
      assert wrong == prefix;
    } else {
      assert |Meant(z, wrong)[0].key| - |wrong| == |Meant(z, prefix)[0].key| - |prefix|;
      assert Meant(z, wrong)[0] != Meant(z, prefix)[0];
    }
  }

  // ---------------------------------------------------------------- when every key of a list is right

  /** Something named is left in the prefix after this attribute: an elided group inside it opened one. */
  predicate Spills(a: Attr)
    decreases a
  {
    if !StdAttr(a).rendered then Opens(a)
    else
      var v := Resolve(a.value);
      v.Group? && SomeSpills(v.attrs)
  }

  predicate SomeSpills(attrs: seq<Attr>)
    decreases attrs
  {
    attrs != [] && (Spills(attrs[0]) || SomeSpills(attrs[1..]))
  }

  predicate Pairs(attrs: seq<Attr>) {
    MeantAll(attrs, "") != []
  }

  /** No pair is written, at any depth, after something was left in the prefix. */
  predicate Orderly(attrs: seq<Attr>)
    decreases attrs
  {
    attrs == [] || (OrderlyInside(attrs[0]) && Orderly(attrs[1..]) && !(Spills(attrs[0]) && Pairs(attrs[1..])))
  }

  predicate OrderlyInside(a: Attr)
    decreases a
  {
    var v := Resolve(a.value);
    !v.Group? || Orderly(v.attrs)
  }

  lemma {:induction false} PairsAnywhere(attrs: seq<Attr>, p: string)
    ensures MeantAll(attrs, p) != [] <==> Pairs(attrs)
  {
    AllKeysGrowWithPrefix(attrs, p, "");
  }

  /** Elided attributes mean no pairs and cannot be disorderly. */
  lemma {:induction false} ElidedMeansNothing(a: Attr, p: string)
    requires !StdAttr(a).rendered
    ensures Meant(a, p) == [] && OrderlyInside(a)
    decreases a
  {
    var v := Resolve(a.value);
    SameVerdict(a, p);
    if v.Group? { ElidedListMeansNothing(v.attrs, Enter(p, a.key)); }
  }

  lemma {:induction false} ElidedListMeansNothing(attrs: seq<Attr>, p: string)
    requires !StdAttrs(attrs).rendered
    ensures MeantAll(attrs, p) == [] && Orderly(attrs)
    decreases attrs
  {
    if attrs != [] {
      ElidedMeansNothing(attrs[0], p);
      ElidedListMeansNothing(attrs[1..], p);
      PairsAnywhere(attrs[1..], p);
    }
  }

  /** The prefix never gets shorter, and gets longer exactly by what is spilled; so every key is at least as long as
      it should be, given a prefix no shorter than it should be. */
  lemma {:induction false} PrefixGrows(a: Attr, q: string)
    ensures |TextAttr(a, q).prefix| >= |q|
    ensures |TextAttr(a, q).prefix| > |q| <==> Spills(a)
    ensures !Spills(a) ==> TextAttr(a, q).prefix == q
    decreases a
  {
    var v := Resolve(a.value);
    SameVerdict(a, q);
    if !StdAttr(a).rendered {
      ElidedLeavesItsNames(a, q);
      LeftoverIffOpened(a);
      if Leftover(a) == "" { assert q + Leftover(a) == q; }
    } else if v.Group? && v.attrs != [] {
      PrefixesGrow(v.attrs, Enter(q, a.key));
      LeaveEntered(q, a.key);
    }
  }

  lemma {:induction false} PrefixesGrow(attrs: seq<Attr>, q: string)
    ensures |TextAttrs(attrs, q).prefix| >= |q|
    ensures |TextAttrs(attrs, q).prefix| > |q| <==> SomeSpills(attrs)
    ensures !SomeSpills(attrs) ==> TextAttrs(attrs, q).prefix == q
    decreases attrs
  {
    if attrs != [] {
      PrefixGrows(attrs[0], q);
      PrefixesGrow(attrs[1..], TextAttr(attrs[0], q).prefix);
    }
  }

  /** As many pairs are written as are meant, and the first key is longer by at least as much as the prefix is. */
  lemma {:induction false} FirstKey(a: Attr, q: string, p: string)
    ensures |TextAttr(a, q).pairs| == |Meant(a, p)|
    ensures Meant(a, p) != [] ==> |TextAttr(a, q).pairs[0].key| - |q| >= |Meant(a, p)[0].key| - |p|
    decreases a
  {
    var v := Resolve(a.value);
    SameVerdict(a, q);
    if !StdAttr(a).rendered {
      ElidedMeansNothing(a, p);
      ElidedLeavesItsNames(a, q);
    } else if v.Group? {
      FirstKeys(v.attrs, Enter(q, a.key), Enter(p, a.key));
    }
  }

  lemma FirstOfTwo(a: seq<Pair>, b: seq<Pair>, c: seq<Pair>, d: seq<Pair>, excess: int, more: int)
    requires |a| == |c| && |b| == |d| && more >= excess
    requires c != [] ==> |a[0].key| >= |c[0].key| + excess
    requires d != [] ==> |b[0].key| >= |d[0].key| + more
    ensures |a + b| == |c + d|
    ensures c + d != [] ==> |(a + b)[0].key| >= |(c + d)[0].key| + excess
  {
  }

  lemma {:induction false} FirstKeys(attrs: seq<Attr>, q: string, p: string)
    ensures |TextAttrs(attrs, q).pairs| == |MeantAll(attrs, p)|
    ensures MeantAll(attrs, p) != [] ==> |TextAttrs(attrs, q).pairs[0].key| - |q| >= |MeantAll(attrs, p)[0].key| - |p|
    decreases attrs
  {
    if attrs != [] {
      var first := TextAttr(attrs[0], q);
      FirstKey(attrs[0], q, p);
      PrefixGrows(attrs[0], q);
      FirstKeys(attrs[1..], first.prefix, p);
      FirstOfTwo(first.pairs, TextAttrs(attrs[1..], first.prefix).pairs, Meant(attrs[0], p), MeantAll(attrs[1..], p),
                 |q| - |p|, |first.prefix| - |p|);
    }
  }

  /** Behind a prefix that is too long no pair has its right key. */
  lemma {:induction false} LongPrefixSpoils(attrs: seq<Attr>, q: string, p: string)
    requires |q| > |p|
    ensures TextAttrs(attrs, q).pairs == MeantAll(attrs, p) <==> !Pairs(attrs)
  {
    FirstKeys(attrs, q, p);
    PairsAnywhere(attrs, p);
    if Pairs(attrs) {
      assert TextAttrs(attrs, q).pairs[0] != MeantAll(attrs, p)[0];
    }
  }

  lemma {:induction false} NoPairsToWrite(attrs: seq<Attr>, prefix: string)
    requires !Pairs(attrs)
    ensures TextAttrs(attrs, prefix).pairs == MeantAll(attrs, prefix)
  {
    FirstKeys(attrs, prefix, prefix);
    PairsAnywhere(attrs, prefix);
  }

  /** On every list, filtered or not, every pair is written under its right key exactly when none comes after
      something was left in the prefix. */
  lemma {:induction false} KeysAreRightIffOrderly(attrs: seq<Attr>, prefix: string)
    ensures TextAttrs(attrs, prefix).pairs == MeantAll(attrs, prefix) <==> Orderly(attrs)
    decreases attrs
  {
    if attrs != [] {
      var a, rest := attrs[0], attrs[1..];
      FirstThenRest(a, rest, attrs, prefix);
      KeysOfOneAreRight(a, prefix);
      KeysAreRightIffOrderly(rest, prefix);
      PrefixGrows(a, prefix);
      if Spills(a) {
        LongPrefixSpoils(rest, TextAttr(a, prefix).prefix, prefix);
        if !Pairs(rest) { NoPairsToWrite(rest, prefix); }
      }
    }
  }

  lemma {:induction false} FirstThenRest(a: Attr, rest: seq<Attr>, attrs: seq<Attr>, prefix: string)
    requires attrs != [] && attrs[0] == a && attrs[1..] == rest
    ensures TextAttrs(attrs, prefix).pairs == MeantAll(attrs, prefix) <==>
            TextAttr(a, prefix).pairs == Meant(a, prefix)
            && TextAttrs(rest, TextAttr(a, prefix).prefix).pairs == MeantAll(rest, prefix)
  {
    FirstKey(a, prefix, prefix);
    SplitEqual(TextAttr(a, prefix).pairs, TextAttrs(rest, TextAttr(a, prefix).prefix).pairs, Meant(a, prefix), MeantAll(rest, prefix));
  }

  lemma {:induction false} KeysOfOneAreRight(a: Attr, prefix: string)
    ensures TextAttr(a, prefix).pairs == Meant(a, prefix) <==> OrderlyInside(a)
    decreases a, 0
  {
    var v := Resolve(a.value);
    SameVerdict(a, prefix);
    if !StdAttr(a).rendered {
      ElidedMeansNothing(a, prefix);
      ElidedLeavesItsNames(a, prefix);
    } else if v.Group? {
      KeysAreRightIffOrderly(v.attrs, Enter(prefix, a.key));
    }
  }

  lemma SplitEqual<T>(a: seq<T>, b: seq<T>, c: seq<T>, d: seq<T>)
    requires |a| == |c|
    ensures a + b == c + d <==> a == c && b == d
  {
    if a + b == c + d {
      assert a == (a + b)[..|a|] == (c + d)[..|c|] == c;
      assert b == (a + b)[|a|..] == (c + d)[|c|..] == d;
    }
  }

  // ---------------------------------------------------------------- derivation chains

  /** The text handler keeps the pairs written ahead, their prefix and the groups not entered yet. */
  datatype Handler = Handler(pairs: seq<Pair>, prefix: string, due: seq<string>)

  function EnterAll(prefix: string, groups: seq<string>): string
    decreases |groups|
  {
    if groups == [] then prefix else EnterAll(Enter(prefix, groups[0]), groups[1..])
  }

  function HandlerWithAttrs(h: Handler, attrs: seq<Attr>): Handler {
    var w := TextAttrs(attrs, EnterAll(h.prefix, h.due));
    if w.rendered then Handler(h.pairs + w.pairs, w.prefix, []) else h
  }

  function HandlerWithGroup(h: Handler, name: string): Handler {
    if name == "" then h else h.(due := h.due + [name])
  }

  function Derived(h: Handler, ops: seq<Derivation>): Handler
    decreases |ops|
  {
    if ops == [] then h
    else
      match ops[0]
      case With(attrs) => Derived(HandlerWithAttrs(h, attrs), ops[1..])
      case Open(name) => Derived(HandlerWithGroup(h, name), ops[1..])
  }

  function Handled(h: Handler, record: seq<Attr>): seq<Pair> {
    var w := TextAttrs(record, EnterAll(h.prefix, h.due));
    if w.rendered then h.pairs + w.pairs else h.pairs
  }

  lemma {:induction false} EnterSnoc(prefix: string, groups: seq<string>, name: string)
    ensures EnterAll(prefix, groups + [name]) == Enter(EnterAll(prefix, groups), name)
    decreases |groups|
  {
    if groups == [] {
      assert [name][1..] == [];
    } else {
      assert (groups + [name])[1..] == groups[1..] + [name];
      EnterSnoc(Enter(prefix, groups[0]), groups[1..], name);
    }
  }

  lemma {:induction false} SettledKeys(attrs: seq<Attr>, prefix: string)
    requires Settled(attrs)
    ensures TextAttrs(attrs, prefix).pairs == MeantAll(attrs, prefix) && TextAttrs(attrs, prefix).prefix == prefix
    ensures TextAttrs(attrs, prefix).rendered <==> MeantAll(attrs, prefix) != []
    decreases |attrs|
  {
    if attrs != [] {
      assert attrs[0] == ZERO_ATTR || Normal(attrs[0]);
      if attrs[0] != ZERO_ATTR {
        NormalKeys(attrs[0], prefix);
        NormalWritesAPair(attrs[0], prefix);
      }
      SettledKeys(attrs[1..], prefix);
    }
  }

  lemma {:induction false} MeantConcat(a: seq<Attr>, b: seq<Attr>, prefix: string)
    ensures MeantAll(a + b, prefix) == MeantAll(a, prefix) + MeantAll(b, prefix)
    decreases |a|
  {
    if a == [] {
      assert a + b == b;
    } else {
      assert (a + b)[0] == a[0] && (a + b)[1..] == a[1..] + b;
      MeantConcat(a[1..], b, prefix);
    }
  }

  lemma {:induction false} DerivedWritesMeant(h: Handler, ops: seq<Derivation>, record: seq<Attr>)
    requires SettledOps(ops) && Settled(record)
    ensures Handled(Derived(h, ops), record) == h.pairs + MeantAll(Wrap(ops, record), EnterAll(h.prefix, h.due))
    decreases |ops|
  {
    var prefix := EnterAll(h.prefix, h.due);
    if ops == [] {
      SettledKeys(record, prefix);
    } else {
      SettledTail(ops);
      var rest := Wrap(ops[1..], record);
      match ops[0]
      case With(attrs) =>
        DerivedWritesMeant(HandlerWithAttrs(h, attrs), ops[1..], record);
        SettledKeys(attrs, prefix);
        MeantConcat(attrs, rest, prefix);
        Assoc(h.pairs, MeantAll(attrs, prefix), MeantAll(rest, prefix));
      case Open(name) =>
        DerivedWritesMeant(HandlerWithGroup(h, name), ops[1..], record);
        if name != "" {
          EnterSnoc(h.prefix, h.due, name);
          MeantGroup(name, rest, prefix);
        }
    }
  }

  lemma {:induction false} MeantGroup(name: string, attrs: seq<Attr>, prefix: string)
    ensures MeantAll([Attr(name, Group(attrs))], prefix) == MeantAll(attrs, Enter(prefix, name))
  {
    var g := Attr(name, Group(attrs));
    assert [g][1..] == [] && Meant(g, prefix) + [] == Meant(g, prefix);
  }

  /** Through any chain of filtered derivations the text handler writes every leaf under its own groups' names. */
  lemma {:induction false} FilteredChainKeysAreRight(ops: seq<Derivation>, record: seq<Attr>)
    requires SettledOps(ops) && Settled(record)
    ensures Handled(Derived(Handler([], "", []), ops), record) == MeantAll(Wrap(ops, record), "")
  {
    DerivedWritesMeant(Handler([], "", []), ops, record);
    assert [] + MeantAll(Wrap(ops, record), "") == MeantAll(Wrap(ops, record), "");
  }
}
