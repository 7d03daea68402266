/** Structured-log attributes, the ordered field trees they render to, and the rendering rules both
    logging backends document: the reference every writer in this project is proved against. */
module LogAttrs {
  import opened Wrappers
  import opened Decimal

  /** A slog value. `Plain` stands for every kind both encoders write as it stands, `Nil` for an untyped
      nil (the zero value), `Lazy` for a LogValuer together with what it yields. */
  datatype Value =
    | Plain(json: string)
    | Nil
    | Time(year: int, stamp: string)
    | Failure(nilPointer: bool, message: string)
    | Source(nilPointer: bool, function_: string, file: string, line: int)
    | Lazy(inner: Value)
    | Group(attrs: seq<Attr>)

  datatype Attr = Attr(key: string, value: Value)

  /** The JSON value under one key. `Garbled` is the pair of strings slog writes for an out-of-range time. */
  datatype Content =
    | Raw(json: string)
    | Garbled(stamp: string)
    | Object(fields: seq<Field>)

  datatype Field = Field(name: string, content: Content)

  /** One derivation step of a logger. */
  datatype Derivation = With(attrs: seq<Attr>) | Open(group: string)

  const TRACE_KEY := "trace_id"
  const ZERO_ATTR := Attr("", Nil)

  function Resolve(v: Value): (r: Value)
    ensures !r.Lazy?
    ensures r == v || r < v
    ensures !v.Lazy? ==> r == v
  {
    match v
    case Lazy(inner) => Resolve(inner)
    case _ => v
  }

  predicate EmptySource(v: Value)
    requires v.Source?
  {
    v.nilPointer || (v.function_ == "" && v.file == "" && v.line == 0)
  }

  function Optional(name: string, present: bool, json: string): seq<Field> {
    if present then [Field(name, Raw(json))] else []
  }

  /** The group form of a caller location: only its non-zero components. */
  function SourceFields(v: Value): seq<Field>
    requires v.Source?
  {
    Optional("function", v.function_ != "", v.function_)
    + Optional("file", v.file != "", v.file)
    + Optional("line", v.line != 0, IntText(v.line))
  }

  /** A group's fields: nothing when it holds nothing, inlined under an empty key, nested otherwise. */
  function Place(key: string, fields: seq<Field>): seq<Field> {
    if fields == [] then []
    else if key == "" then fields
    else [Field(key, Object(fields))]
  }

  /** The fields one attribute writes. */
  function RenderAttr(a: Attr): seq<Field>
    decreases a
  {
    match Resolve(a.value)
    case Plain(json) => [Field(a.key, Raw(json))]
    case Nil => if a.key == "" then [] else [Field(a.key, Raw("null"))]
    case Time(_, stamp) => [Field(a.key, Raw(stamp))]
    case Failure(nilPointer, message) => if nilPointer then [] else [Field(a.key, Raw(message))]
    case Source(nilPointer, function_, file, line) =>
      var v := Source(nilPointer, function_, file, line);
      if EmptySource(v) then [] else Place(a.key, SourceFields(v))
    case Group(attrs) => Place(a.key, RenderAttrs(attrs))
  }

  /** The fields an attribute list writes, in order. */
  function RenderAttrs(attrs: seq<Attr>): seq<Field>
    decreases attrs
  {
    if attrs == [] then [] else RenderAttr(attrs[0]) + RenderAttrs(attrs[1..])
  }

  /** What a record logged through a derived logger means: deriving with attributes puts them ahead of
      the record's own, opening a group nests everything that follows under its name. */
  function Wrap(derivations: seq<Derivation>, record: seq<Attr>): seq<Attr>
    decreases |derivations|
  {
    if derivations == [] then record
    else
      var rest := Wrap(derivations[1..], record);
      match derivations[0]
      case With(attrs) => attrs + rest
      case Open(group) => if group == "" then rest else [Attr(group, Group(rest))]
  }

  predicate HasField(fields: seq<Field>, name: string) {
    exists i :: 0 <= i < |fields| && fields[i].name == name
  }

  function CountField(fields: seq<Field>, name: string): nat {
    if fields == [] then 0
    else (if fields[0].name == name then 1 else 0) + CountField(fields[1..], name)
  }

  lemma {:induction false} RenderConcat(a: seq<Attr>, b: seq<Attr>)
    ensures RenderAttrs(a + b) == RenderAttrs(a) + RenderAttrs(b)
    decreases |a|
  {
    if a == [] {
      assert a + b == b;
    } else {
      assert (a + b)[1..] == a[1..] + b;
      RenderConcat(a[1..], b);
    }
  }

  lemma {:induction false} RenderOne(a: Attr)
    ensures RenderAttrs([a]) == RenderAttr(a)
  {
    assert RenderAttr(a) + [] == RenderAttr(a);
  }

  lemma HasFieldConcat(a: seq<Field>, b: seq<Field>, name: string)
    ensures HasField(a + b, name) <==> HasField(a, name) || HasField(b, name)
  {
    if HasField(a, name) {
      var i :| 0 <= i < |a| && a[i].name == name;
      assert (a + b)[i].name == name;
    }
    if HasField(b, name) {
      var i :| 0 <= i < |b| && b[i].name == name;
      assert (a + b)[|a| + i].name == name;
    }
  }

  lemma {:induction false} CountConcat(a: seq<Field>, b: seq<Field>, name: string)
    ensures CountField(a + b, name) == CountField(a, name) + CountField(b, name)
    decreases |a|
  {
    if a == [] {
      assert a + b == b;
    } else {
      assert (a + b)[1..] == a[1..] + b;
      CountConcat(a[1..], b, name);
    }
  }

  lemma {:induction false} CountPositive(fields: seq<Field>, name: string)
    ensures CountField(fields, name) > 0 <==> HasField(fields, name)
    decreases |fields|
  {
    if fields != [] {
      assert fields == [fields[0]] + fields[1..];
      HasFieldConcat([fields[0]], fields[1..], name);
      assert HasField([fields[0]], name) <==> [fields[0]][0].name == name;
      CountPositive(fields[1..], name);
    }
  }

  /** Extending a derivation chain at its end rewrites the record it will carry. */
  lemma {:induction false} WrapSnoc(derivations: seq<Derivation>, last: Derivation, record: seq<Attr>)
    ensures Wrap(derivations + [last], record) == Wrap(derivations, Wrap([last], record))
    decreases |derivations|
  {
    if derivations == [] {
      assert derivations + [last] == [last];
    } else {
      assert (derivations + [last])[1..] == derivations[1..] + [last];
      WrapSnoc(derivations[1..], last, record);
    }
  }

  /** Records that render alike are indistinguishable through any derivation chain. */
  lemma {:induction false} WrapCongruent(derivations: seq<Derivation>, a: seq<Attr>, b: seq<Attr>)
    requires RenderAttrs(a) == RenderAttrs(b)
    ensures RenderAttrs(Wrap(derivations, a)) == RenderAttrs(Wrap(derivations, b))
    decreases |derivations|
  {
    if derivations != [] {
      WrapCongruent(derivations[1..], a, b);
      var x, y := Wrap(derivations[1..], a), Wrap(derivations[1..], b);
      match derivations[0]
      case With(attrs) =>
        RenderConcat(attrs, x);
        RenderConcat(attrs, y);
      case Open(group) =>
        if group != "" {
          RenderOne(Attr(group, Group(x)));
          RenderOne(Attr(group, Group(y)));
        }
    }
  }

  lemma {:induction false} WrapOne(d: Derivation, record: seq<Attr>)
    ensures Wrap([d], record) == match d
                                 case With(attrs) => attrs + record
                                 case Open(group) => if group == "" then record else [Attr(group, Group(record))]
  {
    assert [d][1..] == [];
  }

  lemma Assoc<T>(x: seq<T>, y: seq<T>, z: seq<T>)
    ensures (x + y) + z == x + (y + z)
  {
  }

  /** The attributes a derivation chain adds before it opens a group. */
  function RootAttrs(derivations: seq<Derivation>): seq<Attr>
    decreases |derivations|
  {
    if derivations == [] then []
    else
      match derivations[0]
      case With(attrs) => attrs + RootAttrs(derivations[1..])
      case Open(group) => if group == "" then RootAttrs(derivations[1..]) else []
  }

  /** The name of the outermost group a derivation chain opens; empty when it opens none. */
  function RootGroup(derivations: seq<Derivation>): string
    decreases |derivations|
  {
    if derivations == [] then ""
    else if derivations[0].Open? && derivations[0].group != "" then derivations[0].group
    else RootGroup(derivations[1..])
  }

  function AllAttrs(derivations: seq<Derivation>): seq<Attr>
    decreases |derivations|
  {
    if derivations == [] then []
    else Added(derivations[0]) + AllAttrs(derivations[1..])
  }

  function Added(d: Derivation): seq<Attr> {
    if d.With? then d.attrs else []
  }

  /** The attributes a derivation chain adds below its outermost group, at any depth. */
  function NestedAttrs(derivations: seq<Derivation>): seq<Attr>
    decreases |derivations|
  {
    if derivations == [] then []
    else if derivations[0].Open? && derivations[0].group != "" then AllAttrs(derivations[1..])
    else NestedAttrs(derivations[1..])
  }

  lemma {:induction false} AllAttrsSnoc(derivations: seq<Derivation>, last: Derivation)
    ensures AllAttrs(derivations + [last]) == AllAttrs(derivations) + AllAttrs([last])
    decreases |derivations|
  {
    if derivations == [] {
      assert derivations + [last] == [last];
    } else {
      assert (derivations + [last])[1..] == derivations[1..] + [last];
      AllAttrsSnoc(derivations[1..], last);
      Assoc(Added(derivations[0]), AllAttrs(derivations[1..]), AllAttrs([last]));
    }
  }

  /** How one more derivation changes the outermost group and the attributes on either side of it. */
  lemma {:induction false} RootSnoc(derivations: seq<Derivation>, last: Derivation)
    ensures RootGroup(derivations + [last]) == if RootGroup(derivations) == "" then RootGroup([last]) else RootGroup(derivations)
    ensures RootAttrs(derivations + [last])
         == RootAttrs(derivations) + if RootGroup(derivations) == "" then RootAttrs([last]) else []
    ensures NestedAttrs(derivations + [last])
         == NestedAttrs(derivations) + if RootGroup(derivations) == "" then [] else AllAttrs([last])
    decreases |derivations|
  {
    if derivations == [] {
      assert derivations + [last] == [last];
    } else {
      assert (derivations + [last])[1..] == derivations[1..] + [last];
      RootSnoc(derivations[1..], last);
      AllAttrsSnoc(derivations[1..], last);
    }
  }

  lemma {:induction false} WrapRenders(derivations: seq<Derivation>, record: seq<Attr>)
    ensures RenderAttrs(Wrap(derivations, record)) != []
       <==> RenderAttrs(AllAttrs(derivations)) != [] || RenderAttrs(record) != []
    decreases |derivations|
  {
    if derivations != [] {
      WrapRenders(derivations[1..], record);
      var rest := Wrap(derivations[1..], record);
      match derivations[0]
      case With(attrs) =>
        RenderConcat(attrs, rest);
        RenderConcat(attrs, AllAttrs(derivations[1..]));
      case Open(group) =>
        if group != "" { RenderOne(Attr(group, Group(rest))); }
        RenderConcat([], AllAttrs(derivations[1..]));
    }
  }

  /** Where a root-level field can come from: the attributes added before any group, the record when no
      group is open, or a root group of that name holding anything at all. */
  lemma {:induction false} RootFieldSources(derivations: seq<Derivation>, record: seq<Attr>, name: string)
    requires name != ""
    ensures HasField(RenderAttrs(Wrap(derivations, record)), name) <==>
            HasField(RenderAttrs(RootAttrs(derivations)), name)
            || (RootGroup(derivations) == "" && HasField(RenderAttrs(record), name))
            || (RootGroup(derivations) == name
                && (RenderAttrs(NestedAttrs(derivations)) != [] || RenderAttrs(record) != []))
    decreases |derivations|
  {
    if derivations != [] {
      RootFieldSources(derivations[1..], record, name);
      var rest := Wrap(derivations[1..], record);
      match derivations[0]
      case With(attrs) =>
        RenderConcat(attrs, rest);
        RenderConcat(attrs, RootAttrs(derivations[1..]));
        HasFieldConcat(RenderAttrs(attrs), RenderAttrs(rest), name);
        HasFieldConcat(RenderAttrs(attrs), RenderAttrs(RootAttrs(derivations[1..])), name);
      case Open(group) =>
        if group != "" {
          RenderOne(Attr(group, Group(rest)));
          WrapRenders(derivations[1..], record);
          assert HasField([Field(group, Object(RenderAttrs(rest)))], name)
            <==> [Field(group, Object(RenderAttrs(rest)))][0].name == name;
        }
    }
  }

  /** Until a group is opened, a chain only puts attributes ahead of the record. */
  lemma {:induction false} WrapUngrouped(derivations: seq<Derivation>, record: seq<Attr>)
    requires RootGroup(derivations) == ""
    ensures Wrap(derivations, record) == RootAttrs(derivations) + record
    decreases |derivations|
  {
    if derivations != [] {
      WrapUngrouped(derivations[1..], record);
    }
  }

  /** The fields of a record logged through a derived logger over common attributes: what the caller asked for. */
  function CallerFields(common: seq<Attr>, derivations: seq<Derivation>, record: seq<Attr>): seq<Field> {
    RenderAttrs(common + Wrap(derivations, record))
  }

  /** The caller's fields with a trace ID inserted, unless they already hold one or none is configured. */
  function WithTraceID(fields: seq<Field>, at: nat, traceID: Option<string>): seq<Field>
    requires at <= |fields|
  {
    if traceID.None? || HasField(fields, TRACE_KEY) then fields
    else fields[..at] + [Field(TRACE_KEY, Raw(traceID.value))] + fields[at..]
  }

  /** With a trace ID configured every line carries at least one, and exactly one unless the caller
      supplied several; the caller's own fields are never lost. */
  lemma {:induction false} TraceIDCount(fields: seq<Field>, at: nat, traceID: Option<string>)
    requires at <= |fields|
    ensures var n := CountField(WithTraceID(fields, at, traceID), TRACE_KEY);
            n == if traceID.Some? && CountField(fields, TRACE_KEY) == 0 then 1 else CountField(fields, TRACE_KEY)
  {
    var mine := [Field(TRACE_KEY, Raw(if traceID.Some? then traceID.value else ""))];
    CountPositive(fields, TRACE_KEY);
    assert fields == fields[..at] + fields[at..];
    CountConcat(fields[..at], fields[at..], TRACE_KEY);
    CountConcat(fields[..at], mine, TRACE_KEY);
    CountConcat(fields[..at] + mine, fields[at..], TRACE_KEY);
    assert CountField(mine, TRACE_KEY) == 1;
  }
}
