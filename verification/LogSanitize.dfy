/** The sanitizing filter logutil puts above its handlers: which attributes render, the copy-on-write
    rewriting of attribute lists, and the normal form it yields. */
module LogSanitize {
  import opened Wrappers
  import opened LogAttrs

  predicate EncodableYear(year: int) {
    0 <= year < 10000
  }

  predicate ValueRenders(v: Value)
    decreases v, 0
  {
    match v
    case Group(attrs) => exists i :: 0 <= i < |attrs| && AttrRenders(attrs[i])
    case Source(_, _, _, _) => !EmptySource(v)
    case Failure(nilPointer, _) => !nilPointer
    case _ => true
  }

  predicate AttrRenders(a: Attr)
    decreases a, 1
  {
    var v := Resolve(a.value);
    Attr(a.key, v) != ZERO_ATTR && ValueRenders(v)
  }

  predicate AttrsRender(attrs: seq<Attr>) {
    exists i :: 0 <= i < |attrs| && AttrRenders(attrs[i])
  }

  /** The attribute the filter leaves in a's place, if any. */
  function NormAttr(a: Attr): Option<Attr>
    decreases a
  {
    var v := Resolve(a.value);
    match v
    case Time(year, stamp) => Some(Attr(a.key, if EncodableYear(year) then v else Plain(stamp)))
    case Group(attrs) =>
      var members := NormAttrs(attrs);
      if members == [] then None else Some(Attr(a.key, Group(members)))
    case _ => if AttrRenders(Attr(a.key, v)) then Some(Attr(a.key, v)) else None
  }

  function Kept(a: Option<Attr>): seq<Attr> {
    if a.Some? then [a.value] else []
  }

  function NormAttrs(attrs: seq<Attr>): seq<Attr>
    decreases attrs
  {
    if attrs == [] then [] else Kept(NormAttr(attrs[0])) + NormAttrs(attrs[1..])
  }

  /** Nothing in a is lazy, unencodable or without output, at any depth. */
  predicate Normal(a: Attr)
    decreases a
  {
    !a.value.Lazy?
    && AttrRenders(a)
    && (a.value.Time? ==> EncodableYear(a.value.year))
    && (a.value.Group? ==> a.value.attrs != [] && AllNormal(a.value.attrs))
  }

  predicate AllNormal(attrs: seq<Attr>)
    decreases attrs
  {
    attrs == [] || (Normal(attrs[0]) && AllNormal(attrs[1..]))
  }

  /** `attrRenders` decides exactly whether an attribute writes a field. */
  lemma {:induction false} RendersIffFields(a: Attr)
    ensures AttrRenders(a) <==> RenderAttr(a) != []
    decreases a
  {
    var v := Resolve(a.value);
    if v.Group? {
      RenderAnyIffFields(v.attrs);
    }
  }

  lemma {:induction false} RenderAnyIffFields(attrs: seq<Attr>)
    ensures AttrsRender(attrs) <==> RenderAttrs(attrs) != []
    decreases attrs
  {
    if attrs != [] {
      RendersIffFields(attrs[0]);
      RenderAnyIffFields(attrs[1..]);
      if AttrsRender(attrs[1..]) {
        var i :| 0 <= i < |attrs| - 1 && AttrRenders(attrs[1..][i]);
        assert attrs[i + 1] == attrs[1..][i];
      }
      if AttrsRender(attrs) && !AttrRenders(attrs[0]) {
        var i :| 0 <= i < |attrs| && AttrRenders(attrs[i]);
        assert attrs[1..][i - 1] == attrs[i];
      }
    }
  }

  /** Filtering an attribute never changes the fields it writes, and drops it exactly when it writes none. */
  lemma {:induction false} NormAttrPreserves(a: Attr)
    ensures RenderAttrs(Kept(NormAttr(a))) == RenderAttr(a)
    ensures NormAttr(a).Some? <==> AttrRenders(a)
    decreases a
  {
    var v := Resolve(a.value);
    RendersIffFields(a);
    RendersIffFields(Attr(a.key, v));
    if v.Group? {
      NormAttrsPreserves(v.attrs);
      NormAttrsNonempty(v.attrs);
    }
    if NormAttr(a).Some? {
      RenderOne(NormAttr(a).value);
    }
  }

  lemma {:induction false} NormAttrsPreserves(attrs: seq<Attr>)
    ensures RenderAttrs(NormAttrs(attrs)) == RenderAttrs(attrs)
    decreases attrs, 0
  {
    if attrs != [] {
      NormAttrPreserves(attrs[0]);
      NormAttrsPreserves(attrs[1..]);
      RenderConcat(Kept(NormAttr(attrs[0])), NormAttrs(attrs[1..]));
    }
  }

  lemma {:induction false} NormAttrsNonempty(attrs: seq<Attr>)
    ensures NormAttrs(attrs) != [] <==> RenderAttrs(attrs) != []
    decreases attrs, 0
  {
    if attrs != [] {
      NormAttrPreserves(attrs[0]);
      RendersIffFields(attrs[0]);
      NormAttrsNonempty(attrs[1..]);
    }
  }

  /** What the filter leaves is in normal form. */
  lemma {:induction false} NormAttrIsNormal(a: Attr)
    ensures AllNormal(Kept(NormAttr(a)))
    decreases a
  {
    var v := Resolve(a.value);
    NormAttrPreserves(a);
    if NormAttr(a).Some? {
      var r := NormAttr(a).value;
      RenderOne(r);
      RendersIffFields(r);
      RendersIffFields(a);
      if v.Group? {
        NormAttrsIsNormal(v.attrs);
      }
      assert Normal(r);
    }
  }

  lemma {:induction false} NormAttrsIsNormal(attrs: seq<Attr>)
    ensures AllNormal(NormAttrs(attrs))
    decreases attrs
  {
    if attrs != [] {
      NormAttrIsNormal(attrs[0]);
      NormAttrsIsNormal(attrs[1..]);
      if NormAttr(attrs[0]).Some? {
        assert NormAttrs(attrs)[1..] == NormAttrs(attrs[1..]);
      } else {
        assert NormAttrs(attrs) == NormAttrs(attrs[1..]);
      }
    }
  }

  /** The normal forms are exactly the attribute lists the filter leaves alone. */
  lemma {:induction false} NormalIffUnchanged(attrs: seq<Attr>)
    ensures AllNormal(attrs) <==> NormAttrs(attrs) == attrs
    decreases attrs
  {
    if AllNormal(attrs) && attrs != [] {
      var a := attrs[0];
      assert Normal(a);
      NormalIffUnchanged(attrs[1..]);
      if a.value.Group? {
        NormalIffUnchanged(a.value.attrs);
      }
      assert NormAttr(a) == Some(a);
      assert [a] + attrs[1..] == attrs;
    }
    NormAttrsIsNormal(attrs);
  }

  /** A second pass changes nothing. */
  lemma {:induction false} SecondPassIsIdentity(attrs: seq<Attr>)
    ensures NormAttrs(NormAttrs(attrs)) == NormAttrs(attrs)
  {
    NormAttrsIsNormal(attrs);
    NormalIffUnchanged(NormAttrs(attrs));
  }

  lemma {:induction false} NormConcat(a: seq<Attr>, b: seq<Attr>)
    ensures NormAttrs(a + b) == NormAttrs(a) + NormAttrs(b)
    decreases |a|
  {
    if a == [] {
      assert a + b == b;
    } else {
      assert (a + b)[1..] == a[1..] + b;
      NormConcat(a[1..], b);
    }
  }

  lemma NormSnoc(attrs: seq<Attr>, i: nat)
    requires i < |attrs|
    ensures NormAttrs(attrs[..i + 1]) == NormAttrs(attrs[..i]) + Kept(NormAttr(attrs[i]))
  {
    assert attrs[..i + 1] == attrs[..i] + [attrs[i]];
    NormConcat(attrs[..i], [attrs[i]]);
    assert Kept(NormAttr(attrs[i])) + [] == Kept(NormAttr(attrs[i]));
  }

  /** One more attribute filtered, with the outcome at hand. */
  lemma NormStep(attrs: seq<Attr>, i: nat, clean: Attr, keep: bool)
    requires i < |attrs| && NormAttr(attrs[i]) == if keep then Some(clean) else None
    ensures attrs[..i + 1] == attrs[..i] + [attrs[i]]
    ensures NormAttrs(attrs[..i + 1]) == if keep then NormAttrs(attrs[..i]) + [clean] else NormAttrs(attrs[..i])
  {
    NormSnoc(attrs, i);
    assert NormAttrs(attrs[..i]) + [] == NormAttrs(attrs[..i]);
  }

  lemma {:induction false} NormShrinks(attrs: seq<Attr>)
    ensures |NormAttrs(attrs)| <= |attrs|
    decreases |attrs|
  {
    if attrs != [] {
      NormShrinks(attrs[1..]);
    }
  }

  /** A list the filter touches at position i never comes out equal to the input. */
  lemma {:induction false} TouchedDiffers(attrs: seq<Attr>, i: nat)
    requires i < |attrs| && NormAttr(attrs[i]) != Some(attrs[i])
    ensures NormAttrs(attrs) != attrs
  {
    var head, rest := attrs[..i], attrs[i + 1..];
    assert attrs == head + [attrs[i]] + rest;
    NormConcat(head + [attrs[i]], rest);
    NormSnoc(attrs, i);
    assert attrs[..i + 1] == head + [attrs[i]];
    NormShrinks(head);
    NormShrinks(rest);
    var all := NormAttrs(head) + Kept(NormAttr(attrs[i])) + NormAttrs(rest);
    assert NormAttrs(attrs) == all;
    if |all| == |attrs| {
      assert all[i] == NormAttr(attrs[i]).value;
    }
  }

  /** The normal form of one attribute, computed; `dirty` is meaningful only when it is kept. */
  method SanitizeAttr(a: Attr) returns (clean: Attr, keep: bool, dirty: bool)
    ensures keep == AttrRenders(a) == NormAttr(a).Some?
    ensures keep ==> clean == NormAttr(a).value
    ensures keep ==> (dirty <==> clean != a)
    decreases a, 1
  {
    NormAttrPreserves(a);
    var value := a.value;
    dirty := false;
    if value.Lazy? {
      value := Resolve(value);
      dirty := true;
    }
    if value.Time? && !EncodableYear(value.year) {
      return Attr(a.key, Plain(value.stamp)), true, true;
    }
    if !value.Group? {
      clean := Attr(a.key, value);
      return clean, AttrRenders(clean), dirty;
    }
    var members, membersDirty := SanitizeAttrs(value.attrs);
    if |members| == 0 {
      return a, false, true;
    }
    if !dirty && !membersDirty {
      return a, true, false;
    }
    return Attr(a.key, Group(members)), true, true;
  }

  /** Filters a list, sharing the input until the first attribute that needs changing. */
  method SanitizeAttrs(attrs: seq<Attr>) returns (clean: seq<Attr>, changed: bool)
    ensures clean == NormAttrs(attrs)
    ensures changed <==> clean != attrs
    decreases attrs, 0
  {
    var out: Option<seq<Attr>> := None;
    var i := 0;
    while i < |attrs|
      invariant 0 <= i <= |attrs|
      invariant NormAttrs(attrs[..i]) == if out.None? then attrs[..i] else out.value
      invariant out.Some? ==> NormAttrs(attrs) != attrs
    {
      var a, keep, dirty := SanitizeAttr(attrs[i]);
      NormStep(attrs, i, a, keep);
      if out.None? && !(keep && !dirty) {
        out := Some(attrs[..i]);
        TouchedDiffers(attrs, i);
      }
      if out.Some? && keep {
        out := Some(out.value + [a]);
      }
      i := i + 1;
    }
    assert attrs[..|attrs|] == attrs;
    if out.None? {
      return attrs, false;
    }
    return out.value, true;
  }

  predicate AttrMayNeedSanitize(a: Attr) {
    match a.value
    case Group(_) => true
    case Lazy(_) => true
    case Time(year, _) => !EncodableYear(year)
    case _ => !ValueRenders(a.value)
  }

  predicate RecordMayNeedSanitize(record: seq<Attr>) {
    exists i :: 0 <= i < |record| && AttrMayNeedSanitize(record[i])
  }

  /** What the handlers below the filter receive: normal attributes, and zero ones slog elides itself. */
  predicate Settled(attrs: seq<Attr>) {
    forall i :: 0 <= i < |attrs| ==> attrs[i] == ZERO_ATTR || Normal(attrs[i])
  }

  lemma {:induction false} AllNormalSettled(attrs: seq<Attr>)
    requires AllNormal(attrs)
    ensures Settled(attrs)
    decreases |attrs|
  {
    if attrs != [] {
      AllNormalSettled(attrs[1..]);
      forall i | 0 <= i < |attrs|
        ensures Normal(attrs[i]) || attrs[i] == ZERO_ATTR
      {
        if i > 0 { assert attrs[i] == attrs[1..][i - 1]; }
      }
    }
  }

  function DropZero(attrs: seq<Attr>): seq<Attr> {
    if attrs == [] then []
    else (if attrs[0] == ZERO_ATTR then [] else [attrs[0]]) + DropZero(attrs[1..])
  }

  /** The cheap scan misses nothing: a record it does not wake for is settled already, and the filter
      would only drop zero attributes from it. */
  lemma {:induction false} SkippingIsSafe(record: seq<Attr>)
    requires !RecordMayNeedSanitize(record)
    ensures Settled(record)
    ensures NormAttrs(record) == DropZero(record)
    decreases |record|
  {
    if record != [] {
      assert !AttrMayNeedSanitize(record[0]);
      forall i | 0 <= i < |record| - 1
        ensures !AttrMayNeedSanitize(record[1..][i])
      {
        assert record[1..][i] == record[i + 1];
      }
      SkippingIsSafe(record[1..]);
      forall i | 0 <= i < |record|
        ensures record[i] == ZERO_ATTR || Normal(record[i])
      {
        assert !AttrMayNeedSanitize(record[i]);
      }
    }
  }

  lemma {:induction false} NormSettles(record: seq<Attr>)
    ensures RenderAttrs(NormAttrs(record)) == RenderAttrs(record) && Settled(NormAttrs(record))
  {
    NormAttrsIsNormal(record);
    AllNormalSettled(NormAttrs(record));
    NormAttrsPreserves(record);
  }

  /** Rebuilds a record only when something in it changes. */
  method SanitizeRecord(record: seq<Attr>) returns (out: seq<Attr>)
    ensures out == if RecordMayNeedSanitize(record) then NormAttrs(record) else record
    ensures RenderAttrs(out) == RenderAttrs(record)
    ensures Settled(out)
  {
    if !RecordMayNeedSanitize(record) {
      SkippingIsSafe(record);
      return record;
    }
    var attrs: seq<Attr> := [];
    var changed := false;
    var i := 0;
    while i < |record|
      invariant 0 <= i <= |record|
      invariant attrs == NormAttrs(record[..i])
      invariant !changed ==> attrs == record[..i]
    {
      var clean, keep, dirty := SanitizeAttr(record[i]);
      NormStep(record, i, clean, keep);
      changed := changed || dirty || !keep;
      if keep {
        attrs := attrs + [clean];
      }
      i := i + 1;
    }
    assert record[..|record|] == record;
    NormSettles(record);
    return if changed then attrs else record;
  }
}
