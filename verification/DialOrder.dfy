/** Dial ordering: parsed, de-duplicated candidates, filtered by network, rotated and interleaved by
    address family. */
module DialOrder {
  import opened Wrappers

  /** A canonical parsed address (IPv4-mapped forms unmapped), or none for a non-IP entry. */
  datatype Addr = Invalid | V4(bits: nat) | V6(bits: nat)

  datatype Candidate = Candidate(raw: string, addr: Addr)

  predicate IsIPv6(a: Addr) {
    a.V6?
  }

  predicate SameDestination(a: Candidate, b: Candidate) {
    if !a.addr.Invalid? && !b.addr.Invalid? then a.addr == b.addr
    else a.addr.Invalid? && b.addr.Invalid? && a.raw == b.raw
  }

  // ---------------------------------------------------------------- candidates

  predicate Contains(cands: seq<Candidate>, c: Candidate) {
    exists i :: 0 <= i < |cands| && SameDestination(cands[i], c)
  }

  predicate AllDistinct(cands: seq<Candidate>) {
    forall i, j :: 0 <= i < j < |cands| ==> !SameDestination(cands[i], cands[j])
  }

  /** Parses and de-duplicates the resolved addresses, keeping the first of every destination. */
  function Candidates(ips: seq<string>, parse: string -> Addr): seq<Candidate>
    decreases |ips|
  {
    if ips == [] then []
    else
      var init := Candidates(ips[..|ips| - 1], parse);
      var c := Candidate(ips[|ips| - 1], parse(ips[|ips| - 1]));
      if Contains(init, c) then init else init + [c]
  }

  lemma {:induction false} CandidatesAreDistinct(ips: seq<string>, parse: string -> Addr)
    ensures AllDistinct(Candidates(ips, parse))
    decreases |ips|
  {
    if ips != [] {
      CandidatesAreDistinct(ips[..|ips| - 1], parse);
    }
  }

  /** Every resolved address is represented. */
  lemma {:induction false} CandidatesCover(ips: seq<string>, parse: string -> Addr, i: nat)
    requires i < |ips|
    ensures Contains(Candidates(ips, parse), Candidate(ips[i], parse(ips[i])))
    decreases |ips|
  {
    var last, c := |ips| - 1, Candidate(ips[i], parse(ips[i]));
    var init, all := Candidates(ips[..last], parse), Candidates(ips, parse);
    if i < last {
      CandidatesCover(ips[..last], parse, i);
    }
    if Contains(init, c) {
      var k :| 0 <= k < |init| && SameDestination(init[k], c);
      assert all[k] == init[k];
    } else {
      assert all[|init|] == c && SameDestination(all[|init|], c);
    }
  }

  /** Every candidate is the parse of a resolved address. */
  lemma {:induction false} CandidatesAreResolved(ips: seq<string>, parse: string -> Addr, k: nat)
    requires k < |Candidates(ips, parse)|
    ensures var c := Candidates(ips, parse)[k]; c.raw in ips && c.addr == parse(c.raw)
    decreases |ips|
  {
    var last := |ips| - 1;
    var init := Candidates(ips[..last], parse);
    if k < |init| {
      CandidatesAreResolved(ips[..last], parse, k);
    } else {
      assert ips[last] in ips;
    }
  }

  /** No destination is lost and none is repeated; each candidate is one of the resolved addresses. */
  lemma {:induction false} CandidatesAreExact(ips: seq<string>, parse: string -> Addr)
    ensures AllDistinct(Candidates(ips, parse))
    ensures forall i :: 0 <= i < |ips| ==> Contains(Candidates(ips, parse), Candidate(ips[i], parse(ips[i])))
    ensures forall c :: c in Candidates(ips, parse) ==> c.raw in ips && c.addr == parse(c.raw)
  {
    CandidatesAreDistinct(ips, parse);
    forall i | 0 <= i < |ips|
      ensures Contains(Candidates(ips, parse), Candidate(ips[i], parse(ips[i])))
    {
      CandidatesCover(ips, parse, i);
    }
    forall k | 0 <= k < |Candidates(ips, parse)|
      ensures var c := Candidates(ips, parse)[k]; c.raw in ips && c.addr == parse(c.raw)
    {
      CandidatesAreResolved(ips, parse, k);
    }
  }

  method NewCandidates(ips: seq<string>, parse: string -> Addr) returns (cands: seq<Candidate>)
    ensures cands == Candidates(ips, parse)
  {
    cands := [];
    for i := 0 to |ips|
      invariant cands == Candidates(ips[..i], parse)
    {
      assert ips[..i + 1][..i] == ips[..i];
      var c := Candidate(ips[i], parse(ips[i]));
      if !Contains(cands, c) {
        cands := cands + [c];
      }
    }
    assert ips[..|ips|] == ips;
  }

  // ---------------------------------------------------------------- families

  /** Which candidates a filter keeps. */
  datatype Filter = Everything | OfFamilyOnly(v6: bool) | OfFamilyOrInvalid(v6: bool)

  predicate Keeps(f: Filter, c: Candidate) {
    match f
    case Everything => true
    case OfFamilyOnly(v6) => IsIPv6(c.addr) == v6
    case OfFamilyOrInvalid(v6) => c.addr.Invalid? || IsIPv6(c.addr) == v6
  }

  function Select(cands: seq<Candidate>, f: Filter): seq<Candidate>
    decreases |cands|
  {
    if cands == [] then []
    else
      var last := |cands| - 1;
      Select(cands[..last], f) + if Keeps(f, cands[last]) then [cands[last]] else []
  }

  /** A filter keeps exactly what it should. */
  lemma {:induction false} SelectIsExact(cands: seq<Candidate>, f: Filter)
    ensures forall c :: c in Select(cands, f) <==> c in cands && Keeps(f, c)
    decreases |cands|
  {
    if cands != [] {
      SelectIsExact(cands[..|cands| - 1], f);
      assert cands == cands[..|cands| - 1] + [cands[|cands| - 1]];
    }
  }

  lemma {:induction false} SelectKeepsDistinct(cands: seq<Candidate>, f: Filter)
    requires AllDistinct(cands)
    ensures AllDistinct(Select(cands, f))
    decreases |cands|
  {
    if cands != [] {
      var last := |cands| - 1;
      var init := Select(cands[..last], f);
      SelectKeepsDistinct(cands[..last], f);
      SelectIsExact(cands[..last], f);
      forall i | 0 <= i < |init|
        ensures !SameDestination(init[i], cands[last])
      {
        assert init[i] in init;
        var j :| 0 <= j < last && cands[j] == init[i];
      }
    }
  }

  lemma {:induction false} SelectUniform(cands: seq<Candidate>, f: Filter, keep: bool)
    requires forall i :: 0 <= i < |cands| ==> Keeps(f, cands[i]) == keep
    ensures Select(cands, f) == if keep then cands else []
    decreases |cands|
  {
    if cands != [] {
      var last := |cands| - 1;
      SelectUniform(cands[..last], f, keep);
      assert cands == cands[..last] + [cands[last]];
      assert Keeps(f, cands[last]) == keep;
    }
  }

  /** A network whose name ends in 4 or 6 restricts the family; entries that are not addresses are kept. */
  function NetworkFilter(network: string): Filter {
    if network == "" then Everything
    else if network[|network| - 1] == '4' then OfFamilyOrInvalid(false)
    else if network[|network| - 1] == '6' then OfFamilyOrInvalid(true)
    else Everything
  }

  function UsableOn(cands: seq<Candidate>, network: string): seq<Candidate> {
    Select(cands, NetworkFilter(network))
  }

  method FilterByFamily(cands: seq<Candidate>, v6: bool) returns (out: seq<Candidate>)
    ensures out == Select(cands, OfFamilyOrInvalid(v6))
  {
    out := [];
    for i := 0 to |cands|
      invariant out == Select(cands[..i], OfFamilyOrInvalid(v6))
    {
      assert cands[..i + 1][..i] == cands[..i];
      if cands[i].addr.Invalid? || IsIPv6(cands[i].addr) == v6 {
        out := out + [cands[i]];
      }
    }
    assert cands[..|cands|] == cands;
  }

  method FilterByNetwork(cands: seq<Candidate>, network: string) returns (out: seq<Candidate>)
    ensures out == UsableOn(cands, network)
  {
    SelectUniform(cands, Everything, true);
    if network == "" {
      return cands;
    }
    match network[|network| - 1]
    case '4' => out := FilterByFamily(cands, false);
    case '6' => out := FilterByFamily(cands, true);
    case _ => out := cands;
  }

  function OfFamily(cands: seq<Candidate>, v6: bool): seq<Candidate> {
    Select(cands, OfFamilyOnly(v6))
  }

  method SplitByFamily(cands: seq<Candidate>, lead: bool) returns (first: seq<Candidate>, second: seq<Candidate>)
    ensures first == OfFamily(cands, lead) && second == OfFamily(cands, !lead)
  {
    first, second := [], [];
    for i := 0 to |cands|
      invariant first == OfFamily(cands[..i], lead) && second == OfFamily(cands[..i], !lead)
    {
      assert cands[..i + 1][..i] == cands[..i];
      if IsIPv6(cands[i].addr) == lead {
        first := first + [cands[i]];
        continue;
      }
      second := second + [cands[i]];
    }
    assert cands[..|cands|] == cands;
  }

  lemma FamilySnoc(cands: seq<Candidate>, x: Candidate, lead: bool)
    ensures multiset(OfFamily(cands + [x], lead)) + multiset(OfFamily(cands + [x], !lead))
         == multiset(OfFamily(cands, lead)) + multiset(OfFamily(cands, !lead)) + multiset{x}
  {
    SelectSnoc(cands, x, OfFamilyOnly(lead));
    SelectSnoc(cands, x, OfFamilyOnly(!lead));
  }

  lemma {:induction false} SelectSnoc(cands: seq<Candidate>, x: Candidate, f: Filter)
    ensures Select(cands + [x], f) == if Keeps(f, x) then Select(cands, f) + [x] else Select(cands, f)
  {
    assert (cands + [x])[..|cands|] == cands;
    assert Select(cands, f) + [] == Select(cands, f);
  }

  lemma {:induction false} FamiliesPartition(cands: seq<Candidate>, lead: bool)
    ensures multiset(OfFamily(cands, lead)) + multiset(OfFamily(cands, !lead)) == multiset(cands)
    decreases |cands|
  {
    if cands != [] {
      var init, x := cands[..|cands| - 1], cands[|cands| - 1];
      FamiliesPartition(init, lead);
      assert multiset(cands) == multiset(init) + multiset{x} by { assert cands == init + [x]; }
      FamilySnoc(init, x, lead);
      assert init + [x] == cands;
    }
  }

  // ---------------------------------------------------------------- rotation and interleaving

  function Rotated<T>(items: seq<T>, offset: nat): seq<T> {
    if |items| < 2 then items
    else
      var start := offset % |items|;
      items[start..] + items[..start]
  }

  lemma RotatedAt<T>(items: seq<T>, offset: nat, i: nat)
    requires |items| >= 2 && i < |items|
    ensures Rotated(items, offset)[i] == items[(offset % |items| + i) % |items|]
  {
    var start, n := offset % |items|, |items|;
    if start + i < n {
      RemainderIs(start + i, 0, start + i, n);
    } else {
      RemainderIs(start + i, 1, start + i - n, n);
    }
  }

  method RotateCandidates(cands: seq<Candidate>, offset: nat) returns (out: seq<Candidate>)
    ensures out == Rotated(cands, offset)
  {
    var n := |cands|;
    if n < 2 {
      return cands;
    }
    var rotated := new Candidate[n](i requires 0 <= i < n => cands[i]);
    var start := offset % n;
    for i := 0 to n
      invariant forall k :: 0 <= k < i ==> rotated[k] == Rotated(cands, offset)[k]
    {
      RotatedAt(cands, offset, i);
      rotated[i] := cands[(start + i) % n];
    }
    return rotated[..];
  }

  lemma RotatedIsPermutation<T>(items: seq<T>, offset: nat)
    ensures multiset(Rotated(items, offset)) == multiset(items)
  {
    if |items| >= 2 {
      var start := offset % |items|;
      assert items == items[..start] + items[start..];
    }
  }

  lemma RotatedByZero<T>(items: seq<T>)
    ensures Rotated(items, 0) == items
  {
  }

  lemma SameLength<T>(a: seq<T>, b: seq<T>)
    requires multiset(a) == multiset(b)
    ensures |a| == |b|
  {
    assert |multiset(a)| == |a| && |multiset(b)| == |b|;
  }

  /** Alternates the two lists from the first, then flushes the longer one. */
  function Interleaved<T>(first: seq<T>, second: seq<T>): seq<T>
    decreases |first| + |second|
  {
    if first == [] then second
    else if second == [] then first
    else [first[0], second[0]] + Interleaved(first[1..], second[1..])
  }

  lemma MultisetOfCons<T>(s: seq<T>)
    requires s != []
    ensures multiset(s) == multiset{s[0]} + multiset(s[1..])
  {
    assert s == [s[0]] + s[1..];
  }

  lemma {:induction false} InterleavedIsPermutation<T>(first: seq<T>, second: seq<T>)
    ensures multiset(Interleaved(first, second)) == multiset(first) + multiset(second)
    decreases |first|
  {
    if first != [] && second != [] {
      InterleavedIsPermutation(first[1..], second[1..]);
      var rest := Interleaved(first[1..], second[1..]);
      MultisetOfCons(first);
      MultisetOfCons(second);
      assert multiset([first[0], second[0]] + rest) == multiset{first[0], second[0]} + multiset(rest);
    }
  }

  /** The lists alternate, the first leading, until the shorter is exhausted; then the longer one's tail follows. */
  lemma {:induction false} InterleavedPositions<T>(first: seq<T>, second: seq<T>, i: nat)
    ensures var out := Interleaved(first, second);
            var short := if |first| < |second| then |first| else |second|;
            && |out| == |first| + |second|
            && (i < short ==> out[2 * i] == first[i] && out[2 * i + 1] == second[i])
            && (short <= i < |first| ==> out[short + i] == first[i])
            && (short <= i < |second| ==> out[short + i] == second[i])
    decreases |first|
  {
    if first != [] && second != [] {
      InterleavedPositions(first[1..], second[1..], if i > 0 then i - 1 else 0);
    }
  }

  function Drop<T>(s: seq<T>, n: nat): seq<T> {
    if n < |s| then s[n..] else []
  }

  function Head<T>(s: seq<T>): seq<T> {
    if s == [] then [] else [s[0]]
  }

  lemma {:induction false} InterleavedStep<T>(out: seq<T>, f: seq<T>, s: seq<T>)
    ensures out + Interleaved(f, s) == (out + Head(f) + Head(s)) + Interleaved(Drop(f, 1), Drop(s, 1))
  {
    var rest := Interleaved(Drop(f, 1), Drop(s, 1));
    assert Interleaved(f, s) == Head(f) + Head(s) + rest;
    assert out + (Head(f) + Head(s) + rest) == (out + Head(f) + Head(s)) + rest;
  }

  lemma DropStep<T>(s: seq<T>, i: nat)
    ensures Drop(Drop(s, i), 1) == Drop(s, i + 1)
    ensures Head(Drop(s, i)) == Item(s, i)
  {
  }

  function Item<T>(s: seq<T>, i: nat): seq<T> {
    if i < |s| then [s[i]] else []
  }

  /** What remains to interleave after taking position i of both lists. */
  lemma InterleavedFrom<T>(out: seq<T>, first: seq<T>, second: seq<T>, i: nat)
    ensures out + Interleaved(Drop(first, i), Drop(second, i))
         == (out + Item(first, i) + Item(second, i)) + Interleaved(Drop(first, i + 1), Drop(second, i + 1))
  {
    InterleavedStep(out, Drop(first, i), Drop(second, i));
    DropStep(first, i);
    DropStep(second, i);
  }

  method Interleave(first: seq<Candidate>, second: seq<Candidate>) returns (out: seq<Candidate>)
    ensures out == Interleaved(first, second)
  {
    out := [];
    var i: nat := 0;
    while i < |first| || i < |second|
      invariant out + Interleaved(Drop(first, i), Drop(second, i)) == Interleaved(first, second)
      decreases |first| + |second| - i
    {
      InterleavedFrom(out, first, second, i);
      ghost var before := out;
      if i < |first| {
        out := out + [first[i]];
      }
      assert out == before + Item(first, i);
      if i < |second| {
        out := out + [second[i]];
      }
      assert out == before + Item(first, i) + Item(second, i);
      i := i + 1;
    }
    assert out + [] == out;
  }

  // ---------------------------------------------------------------- the order

  const TWO_64 := 0x1_0000_0000_0000_0000

  /** An unsigned 64-bit counter advanced by one. */
  function Next(n: nat): nat {
    if n + 1 < TWO_64 then n + 1 else 0
  }

  /** Candidates in dialing order, given the offset the sequence counter yields if it is consulted. */
  function Ordered(cands: seq<Candidate>, rotate: bool, offset: nat): seq<Candidate> {
    if |cands| < 2 then cands
    else
      var lead := IsIPv6(cands[0].addr);
      var o := if rotate then offset else 0;
      Interleaved(Rotated(OfFamily(cands, lead), o), Rotated(OfFamily(cands, !lead), o))
  }

  function DialOrder(ips: seq<string>, parse: string -> Addr, network: string, rotate: bool, offset: nat): seq<Candidate> {
    Ordered(UsableOn(Candidates(ips, parse), network), rotate, offset)
  }

  /** With a single family there is nothing to interleave. */
  lemma OrderedSingleFamily(cands: seq<Candidate>, rotate: bool, offset: nat)
    requires |cands| >= 2 && forall i :: 0 <= i < |cands| ==> IsIPv6(cands[i].addr) == IsIPv6(cands[0].addr)
    ensures Ordered(cands, rotate, offset) == if rotate then Rotated(cands, offset) else cands
  {
    var lead := IsIPv6(cands[0].addr);
    SelectUniform(cands, OfFamilyOnly(lead), true);
    SelectUniform(cands, OfFamilyOnly(!lead), false);
    RotatedIsPermutation(cands, offset);
    assert Rotated(cands, 0) == cands;
  }

  /** Ordering permutes the candidates and always leads with the first one's family. */
  lemma OrderedIsPermutation(cands: seq<Candidate>, rotate: bool, offset: nat)
    ensures multiset(Ordered(cands, rotate, offset)) == multiset(cands)
    ensures |Ordered(cands, rotate, offset)| == |cands|
    ensures cands != [] ==> IsIPv6(Ordered(cands, rotate, offset)[0].addr) == IsIPv6(cands[0].addr)
  {
    if |cands| >= 2 {
      var lead := IsIPv6(cands[0].addr);
      var o := if rotate then offset else 0;
      var f, s := OfFamily(cands, lead), OfFamily(cands, !lead);
      var rf, rs := Rotated(f, o), Rotated(s, o);
      FamiliesPartition(cands, lead);
      RotatedIsPermutation(f, o);
      RotatedIsPermutation(s, o);
      InterleavedIsPermutation(rf, rs);
      SameLength(Interleaved(rf, rs), cands);
      LeadIsFirst(cands, o);
    }
  }

  lemma LeadIsFirst(cands: seq<Candidate>, o: nat)
    requires cands != []
    ensures var lead := IsIPv6(cands[0].addr);
            var out := Interleaved(Rotated(OfFamily(cands, lead), o), Rotated(OfFamily(cands, !lead), o));
            out != [] && IsIPv6(out[0].addr) == lead
  {
    var lead := IsIPv6(cands[0].addr);
    var f := OfFamily(cands, lead);
    SelectIsExact(cands, OfFamilyOnly(lead));
    assert cands[0] in f;
    RotatedIsPermutation(f, o);
    SameLength(Rotated(f, o), f);
    assert Rotated(f, o)[0] in multiset(f);
    assert Rotated(f, o)[0] in f;
  }

  lemma {:induction false} SelectConcat(a: seq<Candidate>, b: seq<Candidate>, f: Filter)
    ensures Select(a + b, f) == Select(a, f) + Select(b, f)
    decreases |b|
  {
    if b == [] {
      assert a + b == a && Select(a, f) + [] == Select(a, f);
    } else {
      var init, last := b[..|b| - 1], b[|b| - 1];
      var tail := if Keeps(f, last) then [last] else [];
      assert (a + b)[..|a + b| - 1] == a + init && (a + b)[|a + b| - 1] == last;
      SelectConcat(a, init, f);
      assert (Select(a, f) + Select(init, f)) + tail == Select(a, f) + (Select(init, f) + tail);
    }
  }

  predicate AllKept(items: seq<Candidate>, f: Filter, keep: bool) {
    forall i :: 0 <= i < |items| ==> Keeps(f, items[i]) == keep
  }

  lemma AllKeptConcat(a: seq<Candidate>, b: seq<Candidate>, f: Filter, keep: bool)
    ensures AllKept(a + b, f, keep) <==> AllKept(a, f, keep) && AllKept(b, f, keep)
  {
    assert forall i :: 0 <= i < |a| ==> (a + b)[i] == a[i];
    assert forall i :: 0 <= i < |b| ==> (a + b)[|a| + i] == b[i];
  }

  /** Taking one family back out of an interleaving gives it in its own order. */
  lemma {:induction false} FamilyOfInterleaved(first: seq<Candidate>, second: seq<Candidate>, f: Filter, keep: bool)
    requires AllKept(first, f, keep) && AllKept(second, f, !keep)
    ensures Select(Interleaved(first, second), f) == if keep then first else second
    decreases |first|
  {
    if first == [] {
      SelectUniform(second, f, !keep);
    } else if second == [] {
      SelectUniform(first, f, keep);
    } else {
      var x, y, xs, ys := first[0], second[0], first[1..], second[1..];
      assert first == [x] + xs && second == [y] + ys;
      AllKeptConcat([x], xs, f, keep);
      AllKeptConcat([y], ys, f, !keep);
      FamilyOfInterleaved(xs, ys, f, keep);
      assert Keeps(f, [x][0]) == keep && Keeps(f, [y][0]) == !keep;
      assert [x] + [y] == [x, y];
      SelectConcat([x, y], Interleaved(xs, ys), f);
      PairSelects(x, y, f, keep);
    }
  }

  lemma {:induction false} SelectOne(x: Candidate, f: Filter)
    ensures Select([x], f) == if Keeps(f, x) then [x] else []
  {
    var kept := if Keeps(f, x) then [x] else [];
    assert [x][..0] == [];
    assert [] + kept == kept;
  }

  lemma {:induction false} PairSelects(x: Candidate, y: Candidate, f: Filter, keep: bool)
    requires Keeps(f, x) == keep && Keeps(f, y) == !keep
    ensures Select([x] + [y], f) == [if keep then x else y]
  {
    SelectOne(x, f);
    SelectOne(y, f);
    SelectConcat([x], [y], f);
  }

  lemma RotatedAll(items: seq<Candidate>, offset: nat, f: Filter, keep: bool)
    requires AllKept(items, f, keep)
    ensures AllKept(Rotated(items, offset), f, keep)
  {
    if |items| >= 2 {
      var start := offset % |items|;
      assert items == items[..start] + items[start..];
      AllKeptConcat(items[..start], items[start..], f, keep);
      AllKeptConcat(items[start..], items[..start], f, keep);
    }
  }

  lemma FamilyMembers(cands: seq<Candidate>, v6: bool, other: bool)
    ensures AllKept(OfFamily(cands, v6), OfFamilyOnly(other), other == v6)
  {
    SelectIsExact(cands, OfFamilyOnly(v6));
    forall i | 0 <= i < |OfFamily(cands, v6)|
      ensures Keeps(OfFamilyOnly(other), OfFamily(cands, v6)[i]) == (other == v6)
    {
      assert OfFamily(cands, v6)[i] in OfFamily(cands, v6);
    }
  }

  /** Within each family the dial order is the resolver's, rotated by the offset. */
  lemma {:induction false} FamiliesAreRotated(ips: seq<string>, parse: string -> Addr, network: string, rotate: bool, offset: nat, v6: bool)
    ensures OfFamily(DialOrder(ips, parse, network, rotate, offset), v6)
         == Rotated(OfFamily(UsableOn(Candidates(ips, parse), network), v6), if rotate then offset else 0)
  {
    var cands := UsableOn(Candidates(ips, parse), network);
    if |cands| < 2 {
      SelectIsShorter(cands, OfFamilyOnly(v6));
    } else {
      var lead, o, f := IsIPv6(cands[0].addr), if rotate then offset else 0, OfFamilyOnly(v6);
      FamilyMembers(cands, lead, v6);
      FamilyMembers(cands, !lead, v6);
      RotatedAll(OfFamily(cands, lead), o, f, v6 == lead);
      RotatedAll(OfFamily(cands, !lead), o, f, v6 != lead);
      FamilyOfInterleaved(Rotated(OfFamily(cands, lead), o), Rotated(OfFamily(cands, !lead), o), f, v6 == lead);
    }
  }

  class Cache {
    const rotate: bool
    var dialSeq: nat  // an unsigned 64-bit counter

    constructor (rotate: bool)
      ensures this.rotate == rotate && dialSeq == 0
    {
      this.rotate := rotate;
      dialSeq := 0;
    }

    /** Hands out offsets one by one; after the last 64-bit number comes 0. */
    method NextDialOffset() returns (offset: nat)
      requires dialSeq < TWO_64
      modifies this
      ensures offset == old(dialSeq) && dialSeq == Next(old(dialSeq)) < TWO_64
    {
      dialSeq := Next(dialSeq);
      offset := if dialSeq == 0 then TWO_64 - 1 else dialSeq - 1;
    }

    /** Parses, filters and orders the resolved addresses for one dial. */
    method OrderCandidates(ips: seq<string>, parse: string -> Addr, network: string) returns (out: seq<Candidate>)
      requires dialSeq < TWO_64
      modifies this
      ensures out == DialOrder(ips, parse, network, rotate, old(dialSeq))
      ensures dialSeq == if rotate && |out| >= 2 then Next(old(dialSeq)) else old(dialSeq)
      ensures dialSeq < TWO_64
    {
      var all := NewCandidates(ips, parse);
      var cands := FilterByNetwork(all, network);
      if |cands| < 2 {
        return cands;
      }
      OrderedIsPermutation(cands, rotate, dialSeq);
      var lead := IsIPv6(cands[0].addr);
      if !(exists i :: 0 <= i < |cands| && IsIPv6(cands[i].addr) != lead) {
        OrderedSingleFamily(cands, rotate, dialSeq);
        if rotate {
          var offset := NextDialOffset();
          out := RotateCandidates(cands, offset);
          return;
        }
        return cands;
      }
      var first, second := SplitByFamily(cands, lead);
      if rotate {
        var offset := NextDialOffset();
        first := RotateCandidates(first, offset);
        second := RotateCandidates(second, offset);
      } else {
        RotatedByZero(first);
        RotatedByZero(second);
      }
      out := Interleave(first, second);
    }
  }

  /** Every dial tries each usable destination exactly once, starting with the family of the resolver's
      first usable address. */
  lemma {:induction false} DialOrderIsPermutation(ips: seq<string>, parse: string -> Addr, network: string, rotate: bool, offset: nat)
    ensures var cands := UsableOn(Candidates(ips, parse), network);
            var out := DialOrder(ips, parse, network, rotate, offset);
            && multiset(out) == multiset(cands)
            && (cands != [] ==> out != [] && IsIPv6(out[0].addr) == IsIPv6(cands[0].addr))
            && AllDistinct(cands)
            && forall i :: 0 <= i < |ips| && Keeps(NetworkFilter(network), Candidate(ips[i], parse(ips[i]))) ==>
                 Contains(cands, Candidate(ips[i], parse(ips[i])))
  {
    var all := Candidates(ips, parse);
    var cands := UsableOn(all, network);
    CandidatesAreExact(ips, parse);
    SelectKeepsDistinct(all, NetworkFilter(network));
    OrderedIsPermutation(cands, rotate, offset);
    forall i | 0 <= i < |ips| && Keeps(NetworkFilter(network), Candidate(ips[i], parse(ips[i])))
      ensures Contains(cands, Candidate(ips[i], parse(ips[i])))
    {
      UsableKept(all, network, Candidate(ips[i], parse(ips[i])));
    }
  }

  lemma UsableKept(all: seq<Candidate>, network: string, c: Candidate)
    requires Contains(all, c) && Keeps(NetworkFilter(network), c)
    ensures Contains(UsableOn(all, network), c)
  {
    var k :| 0 <= k < |all| && SameDestination(all[k], c);
    SelectIsExact(all, NetworkFilter(network));
    assert Keeps(NetworkFilter(network), all[k]);
    assert all[k] in UsableOn(all, network);
    var j :| 0 <= j < |UsableOn(all, network)| && UsableOn(all, network)[j] == all[k];
    assert SameDestination(UsableOn(all, network)[j], c);
  }

  // ---------------------------------------------------------------- fairness of the rotation

  /** The k-th of the offsets a counter that wraps at m yields from o on. */
  function Offset(o: nat, k: nat, m: nat): nat
    requires m > 0
  {
    (o + k) % m
  }

  /** Whether n dials in a row put every one of n lead addresses first exactly once. */
  ghost predicate FairRound(o: nat, n: nat, m: nat)
    requires n > 0 && m > 0
  {
    forall i, j :: 0 <= i < j < n ==> Offset(o, i, m) % n != Offset(o, j, m) % n
  }

  lemma AtLeastOneFold(n: nat, k: int)
    requires k >= 1
    ensures n * k >= n
  {
  }

  lemma AtMostMinusOneFold(n: nat, k: int)
    requires k <= -1
    ensures n * k + n <= 0
  {
  }

  lemma RemainderIs(x: int, q: int, r: int, n: nat)
    requires 0 <= r < n && x == n * q + r
    ensures x % n == r
  {
    var d := q - x / n;
    assert n * d == n * q - n * (x / n) == x % n - r;
    if d >= 1 { AtLeastOneFold(n, d); }
    if d < 0 { AtMostMinusOneFold(n, d); }
  }

  lemma ModDistinct(x: int, y: int, n: nat)
    requires n > 0 && x < y < x + n
    ensures x % n != y % n
  {
    var d := y / n - x / n;
    assert n * d == n * (y / n) - n * (x / n) == (y - x) - (y % n - x % n);
    if d >= 1 { AtLeastOneFold(n, d); } else { AtMostNothing(n, d); }
  }

  lemma AtMostNothing(n: nat, d: int)
    requires d <= 0
    ensures n * d <= 0
  {
  }

  /** Before the counter wraps, consecutive offsets cycle through the addresses. */
  lemma FairWithoutWrap(o: nat, n: nat, m: nat)
    requires 0 < n && o + n <= m
    ensures FairRound(o, n, m)
  {
    forall i, j | 0 <= i < j < n
      ensures Offset(o, i, m) % n != Offset(o, j, m) % n
    {
      RemainderIs(o + i, 0, o + i, m);
      RemainderIs(o + j, 0, o + j, m);
      ModDistinct(o + i, o + j, n);
    }
  }

  lemma WrapKeepsResidue(x: nat, n: nat, m: nat)
    requires 0 < n && 0 < m && m % n == 0
    ensures x % m % n == x % n
  {
    var r := x % m;
    assert x == m * (x / m) + r && m == n * (m / n);
    assert m * (x / m) == n * (m / n * (x / m));
    RemainderIs(x, m / n * (x / m) + r / n, r % n, n);
  }

  lemma FairWhenDividing(o: nat, n: nat, m: nat)
    requires 0 < n && 0 < m && m % n == 0
    ensures FairRound(o, n, m)
  {
    forall i, j | 0 <= i < j < n
      ensures Offset(o, i, m) % n != Offset(o, j, m) % n
    {
      WrapKeepsResidue(o + i, n, m);
      WrapKeepsResidue(o + j, n, m);
      ModDistinct(o + i, o + j, n);
    }
  }

  /** A wrap inside the round, at position w of it, repeats an address. */
  lemma UnfairAcrossWrap(o: nat, n: nat, m: nat, w: nat)
    requires o < m && n < m && w == m - o && w < n && m % n != 0
    ensures !FairRound(o, n, m)
  {
    var q, r := m / n, m % n;
    var i, j := if w >= r then w - r else 0, if w >= r then w else r;
    var a, b := o + i, o + j - m;
    RemainderIs(o + i, 0, a, m);
    RemainderIs(o + j, 1, b, m);
    RemainderIs(a, q, b, n);
    RemainderIs(b, 0, b, n);
    assert Offset(o, i, m) % n == Offset(o, j, m) % n;
  }

  /** Consecutive dials spread over the lead addresses evenly exactly when the 64-bit counter does not wrap
      in the middle of the round, or the number of addresses divides 2^64. */
  lemma RotationIsFair(o: nat, n: nat)
    requires o < TWO_64 && 0 < n < TWO_64
    ensures FairRound(o, n, TWO_64) <==> o + n <= TWO_64 || TWO_64 % n == 0
  {
    if o + n <= TWO_64 {
      FairWithoutWrap(o, n, TWO_64);
    } else if TWO_64 % n == 0 {
      FairWhenDividing(o, n, TWO_64);
    } else {
      UnfairAcrossWrap(o, n, TWO_64, TWO_64 - o);
    }
  }

  // ---------------------------------------------------------------- whose turn it is to lead

  function Values(r: seq<nat>): set<nat> {
    set x | x in r
  }

  lemma {:induction false} ValuesBound(r: seq<nat>)
    ensures |Values(r)| <= |r|
    ensures AllDifferent(r) ==> |Values(r)| == |r|
    decreases |r|
  {
    if r != [] {
      var init, last := r[..|r| - 1], r[|r| - 1];
      ValuesBound(init);
      assert Values(r) == Values(init) + {last};
      if AllDifferent(r) {
        assert last !in init;
      }
    }
  }

  predicate AllDifferent(r: seq<nat>) {
    forall i, j :: 0 <= i < j < |r| ==> r[i] != r[j]
  }

  function Below(n: nat): (s: set<nat>)
    ensures |s| == n
    ensures forall x: nat :: x in s <==> x < n
  {
    if n == 0 then {} else Below(n - 1) + {n - 1}
  }

  lemma SubsetSize(a: set<nat>, b: set<nat>)
    requires a <= b
    ensures |a| <= |b| && (|a| == |b| ==> a == b)
  {
    assert b == a + (b - a);
    assert |b| == |a| + |b - a|;
  }

  lemma RepeatLeavesOneOut(r: seq<nat>, i: nat, j: nat)
    requires i < j < |r| && r[i] == r[j]
    ensures |Values(r)| < |r|
  {
    var rest := r[..j] + r[j + 1..];
    assert rest[i] == r[i];
    assert r == r[..j] + [r[j]] + r[j + 1..];
    assert Values(r) == Values(rest);
    ValuesBound(rest);
  }

  /** n values below n cover them all exactly when they are all different. */
  lemma {:induction false} DifferentIffOnto(r: seq<nat>)
    requires forall i :: 0 <= i < |r| ==> r[i] < |r|
    ensures AllDifferent(r) <==> Below(|r|) <= Values(r)
  {
    ValuesBound(r);
    assert Values(r) <= Below(|r|);
    SubsetSize(Values(r), Below(|r|));
    if !AllDifferent(r) {
      var i, j :| 0 <= i < j < |r| && r[i] == r[j];
      RepeatLeavesOneOut(r, i, j);
      if Below(|r|) <= Values(r) { SubsetSize(Below(|r|), Values(r)); }
    }
  }

  function First<T>(s: seq<T>): Option<T> {
    if s == [] then None else Some(s[0])
  }

  /** The address a rotating dial tries first. */
  function Leader(cands: seq<Candidate>, offset: nat): Option<Candidate> {
    First(Ordered(cands, true, offset))
  }

  lemma FirstTried(cands: seq<Candidate>, offset: nat)
    requires |cands| >= 2
    ensures var f := OfFamily(cands, IsIPv6(cands[0].addr));
            f != [] && Leader(cands, offset) == Some(f[offset % |f|])
  {
    var f := OfFamily(cands, IsIPv6(cands[0].addr));
    SelectIsExact(cands, OfFamilyOnly(IsIPv6(cands[0].addr)));
    assert cands[0] in f;
    if |f| >= 2 {
      RemainderIs(offset % |f|, 0, offset % |f|, |f|);
      RotatedAt(f, offset, 0);
    }
  }

  lemma SelectedApart(f: seq<Candidate>, i: nat, j: nat)
    requires AllDistinct(f) && i < |f| && j < |f|
    ensures f[i] == f[j] <==> i == j
  {
    if i < j { assert !SameDestination(f[i], f[j]); }
    if j < i { assert !SameDestination(f[j], f[i]); }
  }

  /** Which of n lead addresses each of n consecutive dials tries first. */
  function Turns(o: nat, n: nat): (turns: seq<nat>)
    ensures |turns| == n && forall k :: 0 <= k < n ==> turns[k] < n && turns[k] == Offset(o, k, TWO_64) % n
  {
    seq(n, k requires 0 <= k < n => Offset(o, k, TWO_64) % n)
  }

  lemma {:induction false} TurnsOnto(o: nat, n: nat)
    requires o < TWO_64 && 0 < n < TWO_64
    ensures Below(n) <= Values(Turns(o, n)) <==> o + n <= TWO_64 || TWO_64 % n == 0
  {
    RotationIsFair(o, n);
    DifferentIffOnto(Turns(o, n));
  }

  /** One of the next n dials tries c first. */
  ghost predicate GetsATurn(cands: seq<Candidate>, o: nat, n: nat, c: Candidate) {
    exists k :: 0 <= k < n && Leader(cands, Offset(o, k, TWO_64)) == Some(c)
  }

  /** Over n consecutive offsets each of n lead addresses leads, hence once, exactly when the counter does not
      wrap in the middle of the round or n divides 2^64. */
  lemma LeadAddressesInTurn(cands: seq<Candidate>, o: nat)
    requires 2 <= |cands| < TWO_64 && AllDistinct(cands) && o < TWO_64
    ensures var f := OfFamily(cands, IsIPv6(cands[0].addr));
            f != [] && ((forall c :: c in f ==> GetsATurn(cands, o, |f|, c)) <==> o + |f| <= TWO_64 || TWO_64 % |f| == 0)
  {
    var f := OfFamily(cands, IsIPv6(cands[0].addr));
    FirstTried(cands, o);
    SelectKeepsDistinct(cands, OfFamilyOnly(IsIPv6(cands[0].addr)));
    SelectIsShorter(cands, OfFamilyOnly(IsIPv6(cands[0].addr)));
    var turns := Turns(o, |f|);
    TurnsOnto(o, |f|);
    TurnsCover(f, turns);
    forall c
      ensures GetsATurn(cands, o, |f|, c) <==> Served(f, turns, c)
    {
      forall k | 0 <= k < |f|
        ensures Leader(cands, Offset(o, k, TWO_64)) == Some(f[turns[k]])
      {
        FirstTried(cands, Offset(o, k, TWO_64));
      }
    }
  }

  ghost predicate Served(f: seq<Candidate>, turns: seq<nat>, c: Candidate)
    requires |turns| == |f| && forall k :: 0 <= k < |f| ==> turns[k] < |f|
  {
    exists k :: 0 <= k < |f| && f[turns[k]] == c
  }

  lemma {:induction false} TurnsCover(f: seq<Candidate>, turns: seq<nat>)
    requires |turns| == |f| && AllDistinct(f) && forall k :: 0 <= k < |f| ==> turns[k] < |f|
    ensures Below(|f|) <= Values(turns) <==> forall c :: c in f ==> Served(f, turns, c)
  {
    if Below(|f|) <= Values(turns) {
      forall c | c in f
        ensures Served(f, turns, c)
      {
        var x :| 0 <= x < |f| && f[x] == c;
        assert x in Below(|f|);
        var k :| 0 <= k < |turns| && turns[k] == x;
      }
    }
    if forall c :: c in f ==> Served(f, turns, c) {
      forall x | x in Below(|f|)
        ensures x in Values(turns)
      {
        assert f[x] in f && Served(f, turns, f[x]);
        var k :| 0 <= k < |f| && f[turns[k]] == f[x];
        SelectedApart(f, x, turns[k]);
      }
    }
  }

  lemma {:induction false} SelectIsShorter(cands: seq<Candidate>, f: Filter)
    ensures |Select(cands, f)| <= |cands|
    decreases |cands|
  {
    if cands != [] {
      SelectIsShorter(cands[..|cands| - 1], f);
    }
  }

  // ---------------------------------------------------------------- dials in a row

  /** The counter as successive calls of OrderCandidates with two or more candidates find it. */
  ghost predicate SuccessiveDials(counters: seq<nat>) {
    forall k :: 0 <= k < |counters| ==> counters[k] < TWO_64 && (k > 0 ==> counters[k] == Next(counters[k - 1]))
  }

  /** The k-th dial in a row uses the k-th offset. */
  lemma {:induction false} DialUsesOffset(counters: seq<nat>, k: nat)
    requires SuccessiveDials(counters) && k < |counters|
    ensures counters[k] == Offset(counters[0], k, TWO_64)
  {
    var o := counters[0];
    if k == 0 {
      RemainderIs(o, 0, o, TWO_64);
    } else {
      DialUsesOffset(counters, k - 1);
      var x := counters[k - 1];
      var q := (o + (k - 1)) / TWO_64;
      assert o + k == TWO_64 * q + (x + 1);
      if x + 1 < TWO_64 {
        RemainderIs(o + k, q, x + 1, TWO_64);
      } else {
        RemainderIs(o + k, q + 1, 0, TWO_64);
      }
    }
  }

  /** Some dial of these tries c first. */
  ghost predicate TriedFirst(ips: seq<string>, parse: string -> Addr, network: string, counters: seq<nat>, c: Candidate) {
    exists k :: 0 <= k < |counters| && First(DialOrder(ips, parse, network, true, counters[k])) == Some(c)
  }

  lemma {:induction false} TriedIffTurn(ips: seq<string>, parse: string -> Addr, network: string, counters: seq<nat>, c: Candidate)
    requires counters != [] && SuccessiveDials(counters)
    ensures TriedFirst(ips, parse, network, counters, c)
            <==> GetsATurn(UsableOn(Candidates(ips, parse), network), counters[0], |counters|, c)
  {
    var cands := UsableOn(Candidates(ips, parse), network);
    forall k | 0 <= k < |counters|
      ensures First(DialOrder(ips, parse, network, true, counters[k])) == Leader(cands, Offset(counters[0], k, TWO_64))
    {
      DialUsesOffset(counters, k);
    }
    if TriedFirst(ips, parse, network, counters, c) {
      var k :| 0 <= k < |counters| && First(DialOrder(ips, parse, network, true, counters[k])) == Some(c);
      assert Leader(cands, Offset(counters[0], k, TWO_64)) == Some(c);
    }
    if GetsATurn(cands, counters[0], |counters|, c) {
      var k :| 0 <= k < |counters| && Leader(cands, Offset(counters[0], k, TWO_64)) == Some(c);
      assert First(DialOrder(ips, parse, network, true, counters[k])) == Some(c);
    }
  }

  /** As many dials in a row as the leading family has usable addresses try each of them first, hence once, exactly
      when the shared counter does not wrap in the middle of them or their number divides 2^64. */
  lemma {:induction false} EveryLeadAddressGetsItsTurn(ips: seq<string>, parse: string -> Addr, network: string, counters: seq<nat>)
    requires var cands := UsableOn(Candidates(ips, parse), network);
             && 2 <= |cands| < TWO_64 && SuccessiveDials(counters)
             && |counters| == |OfFamily(cands, IsIPv6(cands[0].addr))|
    ensures counters != []
    ensures var f := OfFamily(UsableOn(Candidates(ips, parse), network), IsIPv6(UsableOn(Candidates(ips, parse), network)[0].addr));
            (forall c :: c in f ==> TriedFirst(ips, parse, network, counters, c)) <==>
            counters[0] + |f| <= TWO_64 || TWO_64 % |f| == 0
  {
    var cands := UsableOn(Candidates(ips, parse), network);
    var f := OfFamily(cands, IsIPv6(cands[0].addr));
    FirstTried(cands, 0);
    CandidatesAreExact(ips, parse);
    SelectKeepsDistinct(Candidates(ips, parse), NetworkFilter(network));
    LeadAddressesInTurn(cands, counters[0]);
    forall c
      ensures TriedFirst(ips, parse, network, counters, c) <==> GetsATurn(cands, counters[0], |f|, c)
    {
      TriedIffTurn(ips, parse, network, counters, c);
    }
  }
}
