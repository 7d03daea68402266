/** Rule evaluation (an AND of ORs) and the in-place, windowed filtering of a slice. */
module FilterSlice {
  import opened Wrappers

  // ---------------------------------------------------------------- rules

  /** Whether an element satisfies every group through at least one of its rules. */
  ghost predicate Satisfies<R, E>(rules: seq<seq<R>>, eval: (R, E) -> Result<bool, string>, elem: E) {
    forall i :: 0 <= i < |rules| ==> SomeRule(rules[i], eval, elem)
  }

  ghost predicate SomeRule<R, E>(group: seq<R>, eval: (R, E) -> Result<bool, string>, elem: E) {
    exists j :: 0 <= j < |group| && eval(group[j], elem) == Ok(true)
  }

  /** Rules before position j of the group are plainly false. */
  ghost predicate FalseBefore<R, E>(group: seq<R>, eval: (R, E) -> Result<bool, string>, elem: E, j: int) {
    forall l :: 0 <= l < j && l < |group| ==> eval(group[l], elem) == Ok(false)
  }

  /** A group accepts an element when the first of its rules that is not false is true. */
  ghost predicate Passes<R, E>(group: seq<R>, eval: (R, E) -> Result<bool, string>, elem: E) {
    exists k :: 0 <= k < |group| && eval(group[k], elem) == Ok(true) && FalseBefore(group, eval, elem, k)
  }

  ghost predicate PassBefore<R, E>(rules: seq<seq<R>>, eval: (R, E) -> Result<bool, string>, elem: E, i: int) {
    forall h :: 0 <= h < i && h < |rules| ==> Passes(rules[h], eval, elem)
  }

  /** Rule j of group i is evaluated: every earlier group passed, every earlier rule of its own was false. */
  ghost predicate Reached<R, E>(rules: seq<seq<R>>, eval: (R, E) -> Result<bool, string>, elem: E, i: int, j: int) {
    0 <= i < |rules| && 0 <= j < |rules[i]| && PassBefore(rules, eval, elem, i) && FalseBefore(rules[i], eval, elem, j)
  }

  /** What the evaluation must answer: yes if every group passes, no if a group that is reached is false
      throughout, and an error if a rule that is reached fails with it. */
  ghost predicate Decides<R, E>(rules: seq<seq<R>>, eval: (R, E) -> Result<bool, string>, elem: E, r: Result<bool, string>) {
    match r
    case Ok(true) => PassBefore(rules, eval, elem, |rules|)
    case Ok(false) =>
      exists i :: 0 <= i < |rules| && PassBefore(rules, eval, elem, i) && FalseBefore(rules[i], eval, elem, |rules[i]|)
    case Err(e) => exists i, j :: Reached(rules, eval, elem, i, j) && eval(rules[i][j], elem) == Err(e)
  }

  function GroupVerdict<R, E>(group: seq<R>, eval: (R, E) -> Result<bool, string>, elem: E, j: nat): Result<bool, string>
    requires j <= |group|
    decreases |group| - j
  {
    if j == |group| then Ok(false)
    else
      match eval(group[j], elem)
      case Ok(false) => GroupVerdict(group, eval, elem, j + 1)
      case other => other
  }

  function VerdictFrom<R, E>(rules: seq<seq<R>>, eval: (R, E) -> Result<bool, string>, elem: E, i: nat): Result<bool, string>
    requires i <= |rules|
    decreases |rules| - i
  {
    if i == |rules| then Ok(true)
    else
      match GroupVerdict(rules[i], eval, elem, 0)
      case Ok(true) => VerdictFrom(rules, eval, elem, i + 1)
      case other => other
  }

  function Verdict<R, E>(rules: seq<seq<R>>, eval: (R, E) -> Result<bool, string>, elem: E): Result<bool, string> {
    VerdictFrom(rules, eval, elem, 0)
  }

  lemma {:induction false} GroupDecides<R, E>(group: seq<R>, eval: (R, E) -> Result<bool, string>, elem: E, j: nat)
    requires j <= |group| && FalseBefore(group, eval, elem, j)
    ensures match GroupVerdict(group, eval, elem, j)
            case Ok(true) => Passes(group, eval, elem)
            case Ok(false) => FalseBefore(group, eval, elem, |group|)
            case Err(e) => exists k :: 0 <= k < |group| && eval(group[k], elem) == Err(e) && FalseBefore(group, eval, elem, k)
    decreases |group| - j
  {
    if j < |group| && eval(group[j], elem) == Ok(false) {
      GroupDecides(group, eval, elem, j + 1);
    }
  }

  lemma {:induction false} VerdictFromDecides<R, E>(rules: seq<seq<R>>, eval: (R, E) -> Result<bool, string>, elem: E, i: nat)
    requires i <= |rules| && PassBefore(rules, eval, elem, i)
    ensures Decides(rules, eval, elem, VerdictFrom(rules, eval, elem, i))
    decreases |rules| - i
  {
    if i < |rules| {
      GroupDecides(rules[i], eval, elem, 0);
      match GroupVerdict(rules[i], eval, elem, 0)
      case Ok(true) => VerdictFromDecides(rules, eval, elem, i + 1);
      case Ok(false) =>
      case Err(e) =>
        var k :| 0 <= k < |rules[i]| && eval(rules[i][k], elem) == Err(e) && FalseBefore(rules[i], eval, elem, k);
        assert Reached(rules, eval, elem, i, k);
    }
  }

  /** The first rule that is not false settles its group. */
  lemma GroupDecidesOnce<R, E>(group: seq<R>, eval: (R, E) -> Result<bool, string>, elem: E, j: nat)
    requires j < |group| && FalseBefore(group, eval, elem, j) && eval(group[j], elem) != Ok(false)
    ensures !FalseBefore(group, eval, elem, |group|)
    ensures Passes(group, eval, elem) <==> eval(group[j], elem) == Ok(true)
    ensures forall k :: 0 <= k < |group| && FalseBefore(group, eval, elem, k) && eval(group[k], elem) != Ok(false) ==> k == j
  {
  }

  /** The position at which an evaluation stops is determined, and so is its answer. */
  lemma DecidesOnce<R, E>(rules: seq<seq<R>>, eval: (R, E) -> Result<bool, string>, elem: E,
                                             a: Result<bool, string>, b: Result<bool, string>)
    requires Decides(rules, eval, elem, a) && Decides(rules, eval, elem, b)
    ensures a == b
  {
    var i, j := Stop(rules, eval, elem, a);
    var k, l := Stop(rules, eval, elem, b);
    if i == k && i < |rules| && j < |rules[i]| { GroupDecidesOnce(rules[i], eval, elem, j); }
    if i == k && i < |rules| && l < |rules[i]| { GroupDecidesOnce(rules[i], eval, elem, l); }
  }

  /** Where an evaluation with this answer stops: past all groups, or in a group that does not pass. */
  lemma Stop<R, E>(rules: seq<seq<R>>, eval: (R, E) -> Result<bool, string>, elem: E, r: Result<bool, string>)
      returns (i: nat, j: nat)
    requires Decides(rules, eval, elem, r)
    ensures i <= |rules| && PassBefore(rules, eval, elem, i)
    ensures i == |rules| <==> r == Ok(true)
    ensures i < |rules| ==> !Passes(rules[i], eval, elem) && j <= |rules[i]| && FalseBefore(rules[i], eval, elem, j)
                            && (j == |rules[i]| <==> r == Ok(false))
                            && (j < |rules[i]| ==> r.Err? && eval(rules[i][j], elem) == Err(r.error))
  {
    match r
    case Ok(true) => i, j := |rules|, 0;
    case Ok(false) =>
      i :| 0 <= i < |rules| && PassBefore(rules, eval, elem, i) && FalseBefore(rules[i], eval, elem, |rules[i]|);
      j := |rules[i]|;
    case Err(e) =>
      i, j :| Reached(rules, eval, elem, i, j) && eval(rules[i][j], elem) == Err(e);
      GroupDecidesOnce(rules[i], eval, elem, j);
  }

  /** The verdict is the one answer the rules call for. */
  lemma VerdictIsExact<R, E>(rules: seq<seq<R>>, eval: (R, E) -> Result<bool, string>, elem: E, r: Result<bool, string>)
    ensures Verdict(rules, eval, elem) == r <==> Decides(rules, eval, elem, r)
    ensures r.Ok? && Verdict(rules, eval, elem) == r ==> (r.value <==> Satisfies(rules, eval, elem))
  {
    VerdictFromDecides(rules, eval, elem, 0);
    if Decides(rules, eval, elem, r) {
      DecidesOnce(rules, eval, elem, r, Verdict(rules, eval, elem));
    }
    if Decides(rules, eval, elem, Ok(true)) {
      forall i | 0 <= i < |rules|
        ensures SomeRule(rules[i], eval, elem)
      {
        assert Passes(rules[i], eval, elem);
      }
    }
    if Decides(rules, eval, elem, Ok(false)) {
      var i :| 0 <= i < |rules| && PassBefore(rules, eval, elem, i) && FalseBefore(rules[i], eval, elem, |rules[i]|);
      assert !SomeRule(rules[i], eval, elem);
    }
  }

  /** Evaluates an element against the rules, stopping at the first group it fails and at the first rule
      that satisfies a group. */
  method EvaluateRules<R, E>(rules: seq<seq<R>>, eval: (R, E) -> Result<bool, string>, elem: E)
      returns (r: Result<bool, string>)
    ensures r == Verdict(rules, eval, elem)
    ensures Decides(rules, eval, elem, r)
  {
    VerdictFromDecides(rules, eval, elem, 0);
    for i := 0 to |rules|
      invariant Verdict(rules, eval, elem) == VerdictFrom(rules, eval, elem, i)
    {
      var orResult := false;
      var j := 0;
      while j < |rules[i]|
        invariant 0 <= j <= |rules[i]| && !orResult
        invariant GroupVerdict(rules[i], eval, elem, 0) == GroupVerdict(rules[i], eval, elem, j)
      {
        var verdict := eval(rules[i][j], elem);
        if verdict.Err? {
          return Err(verdict.error);
        }
        if verdict.value {
          orResult := true;
          break;
        }
        j := j + 1;
      }
      if !orResult {
        return Ok(false);
      }
    }
    return Ok(true);
  }

  // ---------------------------------------------------------------- matches and windows

  /** The indices of the elements a matcher accepts, in order. */
  function Matches<E>(s: seq<E>, matcher: E -> Result<bool, string>): (m: seq<nat>)
    ensures forall k :: 0 <= k < |m| ==> m[k] < |s|
    decreases |s|
  {
    if s == [] then []
    else
      var last := |s| - 1;
      Matches(s[..last], matcher) + if matcher(s[last]) == Ok(true) then [last] else []
  }

  /** The matches are increasing, and are all and only the indices accepted. */
  lemma {:induction false} MatchesAreExactly<E>(s: seq<E>, matcher: E -> Result<bool, string>)
    ensures var m := Matches(s, matcher);
            && Increasing(m)
            && (forall i :: 0 <= i < |s| ==> (i in m <==> matcher(s[i]) == Ok(true)))
    decreases |s|
  {
    if s != [] {
      var last := |s| - 1;
      MatchesAreExactly(s[..last], matcher);
      var init, m := Matches(s[..last], matcher), Matches(s, matcher);
      assert forall i :: 0 <= i < last ==> s[..last][i] == s[i];
      assert matcher(s[last]) == Ok(true) ==> m[|init|] == last;
    }
  }

  /** At most `length` items from `offset` on. */
  function Window<T>(items: seq<T>, offset: nat, length: nat): seq<T> {
    items[Min(offset, |items|)..Min(offset + length, |items|)]
  }

  /** Consecutive windows join up. */
  lemma WindowsJoin<T>(items: seq<T>, offset: nat, a: nat, b: nat)
    ensures Window(items, offset, a) + Window(items, offset + a, b) == Window(items, offset, a + b)
  {
    var n := |items|;
    var lo, mid, hi := Min(offset, n), Min(offset + a, n), Min(offset + a + b, n);
    assert items[lo..mid] + items[mid..hi] == items[lo..hi];
  }

  /** One more item lengthens a window exactly when it falls inside. */
  lemma WindowSnoc<T>(items: seq<T>, x: T, offset: nat, length: nat)
    ensures Window(items + [x], offset, length)
         == Window(items, offset, length) + if |items| >= offset && |Window(items, offset, length)| < length then [x] else []
  {
    var all, k := items + [x], |items|;
    if k < offset {
      assert Window(all, offset, length) == [] == Window(items, offset, length);
    } else if k - offset < length {
      assert Window(items, offset, length) == items[offset..];
      assert Window(all, offset, length) == all[offset..] == items[offset..] + [x];
    } else {
      assert Window(items, offset, length) == items[offset..offset + length] == all[offset..offset + length];
    }
  }

  /** The first n pages of the given length, joined. */
  function Pages<T>(items: seq<T>, length: nat, n: nat): seq<T> {
    if n == 0 then [] else Pages(items, length, n - 1) + Window(items, (n - 1) * length, length)
  }

  /** Paging through the matches reads them all, each once and in order. */
  lemma {:induction false} PagesCoverEverything<T>(items: seq<T>, length: nat, n: nat)
    ensures Pages(items, length, n) == Window(items, 0, n * length)
    ensures n * length >= |items| ==> Pages(items, length, n) == items
  {
    if n > 0 {
      PagesCoverEverything(items, length, n - 1);
      WindowsJoin(items, 0, (n - 1) * length, length);
      assert (n - 1) * length + length == n * length;
    }
  }

  ghost predicate AllDecided<E>(s: seq<E>, matcher: E -> Result<bool, string>) {
    forall i :: 0 <= i < |s| ==> matcher(s[i]).Ok?
  }

  /** The error is that of the first element the matcher cannot decide. */
  ghost predicate FirstError<E>(s: seq<E>, matcher: E -> Result<bool, string>, error: string) {
    exists i :: 0 <= i < |s| && matcher(s[i]) == Err(error) && forall k :: 0 <= k < i ==> matcher(s[k]).Ok?
  }

  /** Collects the indices in the window, and counts all matches; changes nothing. */
  method SelectMatches<E>(s: seq<E>, offset: nat, length: nat, matcher: E -> Result<bool, string>)
      returns (r: Result<(seq<nat>, nat), string>)
    ensures r.Ok? <==> AllDecided(s, matcher)
    ensures r.Err? ==> FirstError(s, matcher, r.error)
    ensures r.Ok? ==> r.value == (Window(Matches(s, matcher), offset, length), |Matches(s, matcher)|)
  {
    var skip, total := offset, 0;
    var selected: seq<nat> := [];
    for i := 0 to |s|
      invariant forall k :: 0 <= k < i ==> matcher(s[k]).Ok?
      invariant total == |Matches(s[..i], matcher)|
      invariant skip == offset - Min(offset, total)
      invariant selected == Window(Matches(s[..i], matcher), offset, length)
    {
      assert s[..i + 1][..i] == s[..i];
      ghost var seen := Matches(s[..i], matcher);
      var verdict := matcher(s[i]);
      if verdict.Err? {
        return Err(verdict.error);
      }
      if !verdict.value {
        continue;
      }
      assert Matches(s[..i + 1], matcher) == seen + [i];
      WindowSnoc(seen, i, offset, length);
      total := total + 1;
      if skip > 0 {
        skip := skip - 1;
        continue;
      }
      if |selected| < length {
        selected := selected + [i];
      }
    }
    assert s[..|s|] == s;
    return Ok((selected, total));
  }

  // ---------------------------------------------------------------- the slice

  function Pick<E>(s: seq<E>, indices: seq<nat>): (r: seq<E>)
    requires forall k :: 0 <= k < |indices| ==> indices[k] < |s|
    ensures |r| == |indices|
  {
    seq(|indices|, k requires 0 <= k < |indices| => s[indices[k]])
  }

  /** A Go slice: a backing array and a length. */
  class Slice<E> {
    const data: array<E>
    var len: nat

    constructor (data: array<E>)
      ensures this.data == data && len == data.Length
    {
      this.data := data;
      len := data.Length;
    }

    ghost predicate Valid()
      reads this
    {
      len <= data.Length
    }

    ghost function Elements(): seq<E>
      requires Valid()
      reads this, data
    {
      data[..len]
    }
  }

  /** Filters a slice in place: on success it holds exactly the matches in the window, in their original
      order, and nothing past its new end has been touched; an error leaves it as it was. */
  method FilterSliceValue<E>(slice: Slice<E>, offset: nat, length: nat, matcher: E -> Result<bool, string>)
      returns (r: Result<(nat, nat), string>)
    requires slice.Valid()
    modifies slice, slice.data
    ensures slice.Valid()
    ensures r.Ok? <==> AllDecided(old(slice.Elements()), matcher)
    ensures r.Err? ==> slice.len == old(slice.len) && slice.data[..] == old(slice.data[..])
                       && FirstError(old(slice.Elements()), matcher, r.error)
    ensures r.Ok? ==>
      var was := old(slice.Elements());
      var matches := Matches(was, matcher);
      && slice.Elements() == Pick(was, Window(matches, offset, length))
      && r.value == (slice.len, |matches|)
      && slice.len <= length
      && slice.data[slice.len..] == old(slice.data[..])[slice.len..]
  {
    ghost var was := slice.Elements();
    var outcome := SelectMatches(slice.data[..slice.len], offset, length, matcher);
    if outcome.Err? {
      return Err(outcome.error);
    }
    var (selected, total) := outcome.value;
    MatchesAreExactly(was, matcher);
    WindowIncreasing(Matches(was, matcher), offset, length, slice.len);
    PickPrefix(slice.data[..], slice.len, selected);
    if |selected| > 0 { AtLeastItsIndex(selected, |selected| - 1); }
    Compact(slice.data, selected);
    slice.len := |selected|;
    assert slice.data[..slice.len] == Pick(was, selected);
    return Ok((|selected|, total));
  }

  function RulesMatcher<R, E(!new)>(rules: seq<seq<R>>, eval: (R, E) -> Result<bool, string>): E -> Result<bool, string> {
    e => Verdict(rules, eval, e)
  }

  /** Filters a slice by rules: what is left in place is exactly the window of the elements that satisfy the
      AND of ORs, in order; it fails exactly when a rule that is reached fails on some element. */
  method FilterByRules<R, E(!new)>(slice: Slice<E>, rules: seq<seq<R>>, eval: (R, E) -> Result<bool, string>, offset: nat, length: nat)
      returns (r: Result<(nat, nat), string>)
    requires slice.Valid()
    modifies slice, slice.data
    ensures slice.Valid()
    ensures r.Err? <==> exists k, e :: 0 <= k < |old(slice.Elements())| && Decides(rules, eval, old(slice.Elements())[k], Err(e))
    ensures r.Ok? <==> AllDecided(old(slice.Elements()), RulesMatcher(rules, eval))
    ensures r.Err? ==> slice.len == old(slice.len) && slice.data[..] == old(slice.data[..])
                       && FirstError(old(slice.Elements()), RulesMatcher(rules, eval), r.error)
    ensures r.Ok? ==>
      var was := old(slice.Elements());
      var matches := Matches(was, RulesMatcher(rules, eval));
      && Increasing(matches) && (forall i :: 0 <= i < |was| ==> (i in matches <==> Satisfies(rules, eval, was[i])))
      && slice.Elements() == Pick(was, Window(matches, offset, length))
      && r.value == (slice.len, |matches|)
  {
    ghost var was := slice.Elements();
    var matcher := RulesMatcher(rules, eval);
    MatchesAreExactly(was, matcher);
    forall k | 0 <= k < |was|
      ensures matcher(was[k]).Ok? ==> (matcher(was[k]) == Ok(true) <==> Satisfies(rules, eval, was[k]))
      ensures matcher(was[k]).Err? <==> exists e :: Decides(rules, eval, was[k], Err(e))
    {
      VerdictIsExact(rules, eval, was[k], matcher(was[k]));
      forall e: string
        ensures Decides(rules, eval, was[k], Err(e)) <==> matcher(was[k]) == Err(e)
      {
        VerdictIsExact(rules, eval, was[k], Err(e));
      }
    }
    r := FilterSliceValue(slice, offset, length, matcher);
  }

  ghost predicate Increasing(m: seq<nat>) {
    forall a, b :: 0 <= a < b < |m| ==> m[a] < m[b]
  }

  /** Moves the selected elements to the front, in place. */
  method Compact<E>(data: array<E>, selected: seq<nat>)
    requires Increasing(selected) && forall k :: 0 <= k < |selected| ==> selected[k] < data.Length
    requires |selected| <= data.Length
    modifies data
    ensures data[..] == Pick(old(data[..]), selected) + old(data[..])[|selected|..]
  {
    for n := 0 to |selected|
      invariant forall k :: 0 <= k < n ==> data[k] == old(data[..])[selected[k]]
      invariant forall k :: n <= k < data.Length ==> data[k] == old(data[k])
    {
      AtLeastItsIndex(selected, n);
      if n != selected[n] {
        data[n] := data[selected[n]];
      }
    }
  }

  lemma WindowIncreasing(m: seq<nat>, offset: nat, length: nat, bound: nat)
    requires Increasing(m) && forall k :: 0 <= k < |m| ==> m[k] < bound
    ensures var w := Window(m, offset, length);
            Increasing(w) && |w| <= length && forall k :: 0 <= k < |w| ==> w[k] < bound
  {
  }

  lemma PickPrefix<E>(s: seq<E>, n: nat, indices: seq<nat>)
    requires n <= |s| && forall k :: 0 <= k < |indices| ==> indices[k] < n
    ensures Pick(s[..n], indices) == Pick(s, indices)
  {
  }

  /** In an increasing list of indices, the k-th is at least k, so compaction never reads what it overwrote. */
  lemma {:induction false} AtLeastItsIndex(m: seq<nat>, k: nat)
    requires k < |m| && Increasing(m)
    ensures m[k] >= k
  {
    if k > 0 {
      AtLeastItsIndex(m, k - 1);
    }
  }
}
