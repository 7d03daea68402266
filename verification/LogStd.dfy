/** The standard library's JSON handler as seen from above: the field tree it writes, and its text with
    the separator defect described in pkg/logutil/sanitize.go. */
module LogStd {
  import opened Wrappers
  import opened LogAttrs
  import opened LogSanitize

  /** What a write produced: slog's own verdict on whether anything rendered, and the fields. */
  datatype Written = Written(rendered: bool, fields: seq<Field>)

  function Nest(key: string, w: Written): Written {
    if !w.rendered then Written(false, [])
    else if key == "" then w
    else Written(true, [Field(key, Object(w.fields))])
  }

  /** slog's rules, which differ from the documented ones on nil-pointer errors, memberless groups and
      unencodable times. */
  function StdAttr(a: Attr): Written
    decreases a
  {
    match Resolve(a.value)
    case Plain(json) => Written(true, [Field(a.key, Raw(json))])
    case Nil => if a.key == "" then Written(false, []) else Written(true, [Field(a.key, Raw("null"))])
    case Time(year, stamp) => Written(true, [Field(a.key, if EncodableYear(year) then Raw(stamp) else Garbled(stamp))])
    case Failure(nilPointer, message) => Written(true, [Field(a.key, Raw(if nilPointer then "<nil>" else message))])
    case Source(nilPointer, function_, file, line) =>
      var v := Source(nilPointer, function_, file, line);
      if EmptySource(v) then Written(false, []) else Nest(a.key, Written(true, SourceFields(v)))
    case Group(attrs) => if attrs == [] then Written(true, []) else Nest(a.key, StdAttrs(attrs))
  }

  function StdAttrs(attrs: seq<Attr>): Written
    decreases attrs
  {
    if attrs == [] then Written(false, [])
    else
      var first, rest := StdAttr(attrs[0]), StdAttrs(attrs[1..]);
      Written(first.rendered || rest.rendered, first.fields + rest.fields)
  }

  /** A record handled by a standard handler carrying the given derivations. */
  function StdRecord(ops: seq<Derivation>, record: seq<Attr>): Written
    decreases |ops|
  {
    if ops == [] then StdAttrs(record)
    else
      var rest := StdRecord(ops[1..], record);
      match ops[0]
      case With(attrs) =>
        var baked := StdAttrs(attrs);
        Written(baked.rendered || rest.rendered, baked.fields + rest.fields)
      case Open(group) => if group == "" then rest else Nest(group, rest)
  }

  function Ideal(fields: seq<Field>): Written {
    Written(fields != [], fields)
  }

  /** On what the filter hands down, slog's rules and the documented ones coincide. */
  lemma {:induction false} NormalStd(a: Attr)
    requires Normal(a)
    ensures StdAttr(a) == Ideal(RenderAttr(a))
    decreases a
  {
    RendersIffFields(a);
    if a.value.Group? {
      NormalStdAttrs(a.value.attrs);
    }
  }

  lemma {:induction false} NormalStdAttrs(attrs: seq<Attr>)
    requires AllNormal(attrs)
    ensures StdAttrs(attrs) == Ideal(RenderAttrs(attrs))
    decreases attrs
  {
    if attrs != [] {
      NormalStd(attrs[0]);
      NormalStdAttrs(attrs[1..]);
    }
  }

  lemma {:induction false} SettledStd(attrs: seq<Attr>)
    requires Settled(attrs)
    ensures StdAttrs(attrs) == Ideal(RenderAttrs(attrs))
    decreases |attrs|
  {
    if attrs != [] {
      assert attrs[0] == ZERO_ATTR || Normal(attrs[0]);
      if attrs[0] != ZERO_ATTR {
        NormalStd(attrs[0]);
      }
      SettledStd(attrs[1..]);
    }
  }

  predicate SettledOps(ops: seq<Derivation>) {
    forall i :: 0 <= i < |ops| && ops[i].With? ==> Settled(ops[i].attrs)
  }

  lemma SettledTail(ops: seq<Derivation>)
    requires SettledOps(ops) && ops != []
    ensures SettledOps(ops[1..]) && (ops[0].With? ==> Settled(ops[0].attrs))
  {
    forall i | 0 <= i < |ops[1..]| && ops[1..][i].With?
      ensures Settled(ops[1..][i].attrs)
    {
      assert ops[1..][i] == ops[i + 1];
    }
  }

  /** The same, through any chain of filtered derivations. */
  lemma {:induction false} SettledStdRecord(ops: seq<Derivation>, record: seq<Attr>)
    requires SettledOps(ops) && Settled(record)
    ensures StdRecord(ops, record) == Ideal(RenderAttrs(Wrap(ops, record)))
    decreases |ops|
  {
    if ops == [] {
      SettledStd(record);
    } else {
      SettledTail(ops);
      SettledStdRecord(ops[1..], record);
      var rest := Wrap(ops[1..], record);
      match ops[0]
      case With(attrs) =>
        SettledStd(attrs);
        RenderConcat(attrs, rest);
      case Open(group) =>
        if group != "" { RenderOne(Attr(group, Group(rest))); }
    }
  }
}
