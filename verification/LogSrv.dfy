/** The logsrv backend: a single-pass handler that writes attributes straight onto an event, bakes those
    added before any group into a context, and keeps a stack of open group frames. */
module LogSrv {
  import opened Wrappers
  import opened Decimal
  import opened LogAttrs

  /** A record or dictionary under construction. */
  class Event {
    var fields: seq<Field>

    constructor (fields: seq<Field>)
      ensures this.fields == fields
    {
      this.fields := fields;
    }

    method Write(key: string, content: Content)
      modifies this
      ensures fields == old(fields) + [Field(key, content)]
    {
      fields := fields + [Field(key, content)];
    }
  }

  // ---------------------------------------------------------------- attribute resolution

  function OptionalAttr(name: string, present: bool, json: string): seq<Attr> {
    if present then [Attr(name, Plain(json))] else []
  }

  /** The attributes a populated caller location is written as. */
  function SourceAttrs(v: Value): seq<Attr>
    requires v.Source?
  {
    OptionalAttr("function", v.function_ != "", v.function_)
    + OptionalAttr("file", v.file != "", v.file)
    + OptionalAttr("line", v.line != 0, IntText(v.line))
  }

  /** The resolved value to write and whether the attribute writes nothing at all. */
  function ResolveAttr(a: Attr): (Value, bool) {
    var v := Resolve(a.value);
    if a.key == "" && v.Nil? then (v, true)
    else if v.Source? then
      if EmptySource(v) then (v, true) else (Group(SourceAttrs(v)), false)
    else (v, false)
  }

  lemma OptionalAttrRenders(name: string, present: bool, json: string)
    ensures RenderAttrs(OptionalAttr(name, present, json)) == Optional(name, present, json)
  {
    RenderOne(Attr(name, Plain(json)));
  }

  lemma SourceAttrsRender(v: Value)
    requires v.Source?
    ensures RenderAttrs(SourceAttrs(v)) == SourceFields(v)
  {
    var f, p := OptionalAttr("function", v.function_ != "", v.function_), OptionalAttr("file", v.file != "", v.file);
    OptionalAttrRenders("function", v.function_ != "", v.function_);
    OptionalAttrRenders("file", v.file != "", v.file);
    OptionalAttrRenders("line", v.line != 0, IntText(v.line));
    RenderConcat(f, p);
    RenderConcat(f + p, OptionalAttr("line", v.line != 0, IntText(v.line)));
  }

  /** Resolution neither adds nor loses a field. */
  lemma {:induction false} ResolveAttrRenders(a: Attr)
    ensures ResolveAttr(a).1 ==> RenderAttr(a) == []
    ensures !ResolveAttr(a).1 ==> RenderAttr(Attr(a.key, ResolveAttr(a).0)) == RenderAttr(a)
  {
    var v := Resolve(a.value);
    if v.Source? {
      SourceAttrsRender(v);
    }
  }

  // ---------------------------------------------------------------- termination weight

  function Weight(v: Value): nat
    decreases v
  {
    match v
    case Lazy(inner) => 1 + Weight(inner)
    case Group(attrs) => 1 + AttrsWeight(attrs)
    case Source(_, _, _, _) => 10
    case _ => 1
  }

  function AttrsWeight(attrs: seq<Attr>): nat
    decreases attrs
  {
    if attrs == [] then 0 else 1 + Weight(attrs[0].value) + AttrsWeight(attrs[1..])
  }

  lemma {:induction false} MemberWeight(attrs: seq<Attr>, i: nat)
    requires i < |attrs|
    ensures Weight(attrs[i].value) < AttrsWeight(attrs)
    decreases |attrs|
  {
    if i > 0 {
      MemberWeight(attrs[1..], i - 1);
    }
  }

  lemma {:induction false} ResolveWeight(v: Value)
    ensures Weight(Resolve(v)) <= Weight(v)
    decreases v
  {
    if v.Lazy? {
      ResolveWeight(v.inner);
    }
  }

  lemma {:induction false} WeightConcat(a: seq<Attr>, b: seq<Attr>)
    ensures AttrsWeight(a + b) == AttrsWeight(a) + AttrsWeight(b)
    decreases |a|
  {
    if a == [] {
      assert a + b == b;
    } else {
      assert (a + b)[1..] == a[1..] + b;
      WeightConcat(a[1..], b);
    }
  }

  lemma OptionalAttrWeight(name: string, present: bool, json: string)
    ensures AttrsWeight(OptionalAttr(name, present, json)) <= 2
  {
    assert [Attr(name, Plain(json))][1..] == [];
  }

  lemma ResolveAttrWeight(a: Attr)
    ensures Weight(ResolveAttr(a).0) <= Weight(a.value)
  {
    ResolveWeight(a.value);
    var v := Resolve(a.value);
    if v.Source? {
      var f, p := OptionalAttr("function", v.function_ != "", v.function_), OptionalAttr("file", v.file != "", v.file);
      OptionalAttrWeight("function", v.function_ != "", v.function_);
      OptionalAttrWeight("file", v.file != "", v.file);
      OptionalAttrWeight("line", v.line != 0, IntText(v.line));
      WeightConcat(f, p);
      WeightConcat(f + p, OptionalAttr("line", v.line != 0, IntText(v.line)));
    }
  }

  lemma RenderSnoc(attrs: seq<Attr>, i: nat)
    requires i < |attrs|
    ensures RenderAttrs(attrs[..i + 1]) == RenderAttrs(attrs[..i]) + RenderAttr(attrs[i])
  {
    assert attrs[..i + 1] == attrs[..i] + [attrs[i]];
    RenderConcat(attrs[..i], [attrs[i]]);
    RenderOne(attrs[i]);
  }

  // ---------------------------------------------------------------- writing onto an event

  /** Writes one attribute and reports whether it produced a field. */
  method AddAttrEvent(e: Event, a: Attr) returns (wrote: bool)
    modifies e
    ensures e.fields == old(e.fields) + RenderAttr(a)
    ensures wrote <==> RenderAttr(a) != []
    decreases Weight(a.value), 2
  {
    var (v, empty) := ResolveAttr(a);
    ResolveAttrRenders(a);
    ResolveAttrWeight(a);
    if empty {
      assert e.fields + [] == e.fields;
      return false;
    }
    wrote := AddValueEvent(e, a.key, v);
  }

  /** Writes a resolved value under a key. */
  method AddValueEvent(e: Event, key: string, v: Value) returns (wrote: bool)
    requires !v.Lazy? && !v.Source? && !(v.Nil? && key == "")
    modifies e
    ensures e.fields == old(e.fields) + RenderAttr(Attr(key, v))
    ensures wrote <==> RenderAttr(Attr(key, v)) != []
    decreases Weight(v), 1
  {
    match v {
      case Group(attrs) =>
        wrote := AddGroupEvent(e, key, attrs);
        return;
      case Failure(nilPointer, message) =>
        if nilPointer {
          assert e.fields + [] == e.fields;
          return false;
        }
        e.Write(key, Raw(message));
      case Nil => e.Write(key, Raw("null"));
      case Time(_, stamp) => e.Write(key, Raw(stamp));
      case Plain(json) => e.Write(key, Raw(json));
    }
    wrote := true;
  }

  /** Writes a group: inlined under an empty key, otherwise nested in a dictionary, omitted when empty. */
  method AddGroupEvent(e: Event, key: string, attrs: seq<Attr>) returns (wrote: bool)
    modifies e
    ensures e.fields == old(e.fields) + Place(key, RenderAttrs(attrs))
    ensures wrote <==> RenderAttrs(attrs) != []
    decreases 1 + AttrsWeight(attrs), 0
  {
    var d := e;
    if key != "" {
      d := new Event([]);
    }
    ghost var start := d.fields;
    wrote := false;
    var i := 0;
    while i < |attrs|
      invariant 0 <= i <= |attrs|
      invariant d == e || fresh(d)
      invariant d.fields == start + RenderAttrs(attrs[..i])
      invariant d != e ==> e.fields == old(e.fields)
      invariant wrote <==> RenderAttrs(attrs[..i]) != []
    {
      MemberWeight(attrs, i);
      RenderSnoc(attrs, i);
      var one := AddAttrEvent(d, attrs[i]);
      Assoc(start, RenderAttrs(attrs[..i]), RenderAttr(attrs[i]));
      wrote := wrote || one;
      i := i + 1;
    }
    assert attrs[..|attrs|] == attrs;
    if key != "" && wrote {
      assert start + RenderAttrs(attrs) == RenderAttrs(attrs);
      e.Write(key, Object(d.fields));
    }
  }

  /** Writes one root-level attribute, also reporting whether it wrote the reserved trace-ID key. */
  method AddRootAttrEvent(e: Event, a: Attr) returns (wrote: bool, trace: bool)
    modifies e
    ensures e.fields == old(e.fields) + RenderAttr(a)
    ensures wrote <==> RenderAttr(a) != []
    ensures trace <==> HasField(RenderAttr(a), TRACE_KEY)
    decreases Weight(a.value), 2
  {
    var (v, empty) := ResolveAttr(a);
    ResolveAttrRenders(a);
    ResolveAttrWeight(a);
    if empty {
      assert e.fields + [] == e.fields;
      return false, false;
    }
    if a.key == "" && v.Group? {
      wrote, trace := false, false;
      var i := 0;
      while i < |v.attrs|
        invariant 0 <= i <= |v.attrs|
        invariant e.fields == old(e.fields) + RenderAttrs(v.attrs[..i])
        invariant wrote <==> RenderAttrs(v.attrs[..i]) != []
        invariant trace <==> HasField(RenderAttrs(v.attrs[..i]), TRACE_KEY)
      {
        MemberWeight(v.attrs, i);
        RenderSnoc(v.attrs, i);
        HasFieldConcat(RenderAttrs(v.attrs[..i]), RenderAttr(v.attrs[i]), TRACE_KEY);
        Assoc(old(e.fields), RenderAttrs(v.attrs[..i]), RenderAttr(v.attrs[i]));
        var memberWrote, memberTrace := AddRootAttrEvent(e, v.attrs[i]);
        wrote := wrote || memberWrote;
        trace := trace || memberTrace;
        i := i + 1;
      }
      assert v.attrs[..|v.attrs|] == v.attrs;
      return;
    }
    wrote := AddValueEvent(e, a.key, v);
    KeyedField(a.key, v);
    trace := wrote && a.key == TRACE_KEY;
  }

  /** A resolved value outside an inlined group writes at most one field, under its own key. */
  lemma {:induction false} KeyedField(key: string, v: Value)
    requires !v.Lazy? && !v.Source? && !(key == "" && v.Group?)
    ensures HasField(RenderAttr(Attr(key, v)), TRACE_KEY) <==> RenderAttr(Attr(key, v)) != [] && key == TRACE_KEY
  {
    var fields := RenderAttr(Attr(key, v));
    if fields != [] {
      assert |fields| == 1 && fields[0].name == key;
    }
  }

  // ---------------------------------------------------------------- baking into a context

  /** Bakes one root-level attribute into a context, reporting whether it baked the trace-ID key. */
  method ApplyRootContext(c: seq<Field>, a: Attr) returns (out: seq<Field>, trace: bool)
    ensures out == c + RenderAttr(a)
    ensures trace <==> HasField(RenderAttr(a), TRACE_KEY)
    decreases Weight(a.value), 2
  {
    var (v, empty) := ResolveAttr(a);
    ResolveAttrRenders(a);
    ResolveAttrWeight(a);
    if empty {
      return c, false;
    }
    if a.key == "" && v.Group? {
      out, trace := ApplyRootAttrs(c, v.attrs);
      return;
    }
    var baked;
    out, baked := ApplyValueContext(c, a.key, v);
    KeyedField(a.key, v);
    trace := baked && a.key == TRACE_KEY;
  }

  method ApplyRootAttrs(c: seq<Field>, attrs: seq<Attr>) returns (out: seq<Field>, trace: bool)
    ensures out == c + RenderAttrs(attrs)
    ensures trace <==> HasField(RenderAttrs(attrs), TRACE_KEY)
    decreases AttrsWeight(attrs), 0
  {
    out, trace := c, false;
    var i := 0;
    while i < |attrs|
      invariant 0 <= i <= |attrs|
      invariant out == c + RenderAttrs(attrs[..i])
      invariant trace <==> HasField(RenderAttrs(attrs[..i]), TRACE_KEY)
    {
      MemberWeight(attrs, i);
      RenderSnoc(attrs, i);
      HasFieldConcat(RenderAttrs(attrs[..i]), RenderAttr(attrs[i]), TRACE_KEY);
      Assoc(c, RenderAttrs(attrs[..i]), RenderAttr(attrs[i]));
      var memberTrace;
      out, memberTrace := ApplyRootContext(out, attrs[i]);
      trace := trace || memberTrace;
      i := i + 1;
    }
    assert attrs[..|attrs|] == attrs;
  }

  /** Bakes a resolved value under a key; a named group goes through a dictionary. */
  method ApplyValueContext(c: seq<Field>, key: string, v: Value) returns (out: seq<Field>, baked: bool)
    requires !v.Lazy? && !v.Source? && !(v.Nil? && key == "") && !(v.Group? && key == "")
    ensures out == c + RenderAttr(Attr(key, v))
    ensures baked <==> RenderAttr(Attr(key, v)) != []
  {
    match v
    case Group(attrs) =>
      var d := new Event([]);
      var wrote := AddGroupEvent(d, "", attrs);
      if !wrote {
        return c, false;
      }
      assert d.fields == RenderAttrs(attrs);
      return c + [Field(key, Object(d.fields))], true;
    case Failure(nilPointer, message) =>
      if nilPointer {
        return c, false;
      }
      return c + [Field(key, Raw(message))], true;
    case Nil => return c + [Field(key, Raw("null"))], true;
    case Time(_, stamp) => return c + [Field(key, Raw(stamp))], true;
    case Plain(json) => return c + [Field(key, Raw(json))], true;
  }

  // ---------------------------------------------------------------- the handler

  datatype GroupFrame = GroupFrame(name: string, attrs: seq<Attr>)

  datatype SrvHandler = SrvHandler(
    baked: seq<Field>,
    groups: seq<GroupFrame>,
    traceAttr: bool,
    traceID: Option<string>)

  /** The fields inside the outermost of a chain of open groups. */
  function DictFields(frames: seq<GroupFrame>, record: seq<Attr>): seq<Field>
    requires frames != []
    decreases |frames|
  {
    RenderAttrs(frames[0].attrs)
    + if |frames| == 1 then RenderAttrs(record) else Place(frames[1].name, DictFields(frames[1..], record))
  }

  /** The caller's fields a handler writes for a record. */
  function Emitted(h: SrvHandler, record: seq<Attr>): seq<Field> {
    h.baked + if h.groups == [] then RenderAttrs(record) else Place(h.groups[0].name, DictFields(h.groups, record))
  }

  /** Builds the nested dictionary of the open groups, reporting whether it holds any field. */
  method BuildGroupDict(frames: seq<GroupFrame>, record: seq<Attr>) returns (d: Event, wrote: bool)
    requires frames != []
    requires forall i :: 0 <= i < |frames| ==> frames[i].name != ""
    ensures fresh(d) && d.fields == DictFields(frames, record)
    ensures wrote <==> d.fields != []
    decreases |frames|
  {
    d := new Event([]);
    wrote := AddGroupEvent(d, "", frames[0].attrs);
    assert d.fields == RenderAttrs(frames[0].attrs);
    if |frames| > 1 {
      var child, childWrote := BuildGroupDict(frames[1..], record);
      if childWrote {
        d.Write(frames[1].name, Object(child.fields));
        wrote := true;
      }
    } else {
      var own := AddGroupEvent(d, "", record);
      wrote := wrote || own;
    }
  }

  /** Writes the record's attributes at the root, then the trace ID unless one was written. */
  method WriteRoot(h: SrvHandler, e: Event, record: seq<Attr>)
    modifies e
    ensures e.fields == old(e.fields) + RenderAttrs(record)
                        + if h.traceID.Some? && !h.traceAttr && !HasField(RenderAttrs(record), TRACE_KEY)
                          then [Field(TRACE_KEY, Raw(h.traceID.value))] else []
  {
    var hasTrace := h.traceAttr;
    var i := 0;
    while i < |record|
      invariant 0 <= i <= |record|
      invariant e.fields == old(e.fields) + RenderAttrs(record[..i])
      invariant hasTrace <==> h.traceAttr || HasField(RenderAttrs(record[..i]), TRACE_KEY)
    {
      RenderSnoc(record, i);
      HasFieldConcat(RenderAttrs(record[..i]), RenderAttr(record[i]), TRACE_KEY);
      Assoc(old(e.fields), RenderAttrs(record[..i]), RenderAttr(record[i]));
      var _, trace := AddRootAttrEvent(e, record[i]);
      if trace {
        hasTrace := true;
      }
      i := i + 1;
    }
    assert record[..|record|] == record;
    if h.traceID.Some? && !hasTrace {
      e.Write(TRACE_KEY, Raw(h.traceID.value));
    }
  }

  /** h carries what the caller derived over the common attributes. */
  ghost predicate SrvCarries(h: SrvHandler, common: seq<Attr>, derivations: seq<Derivation>) {
    && h.baked == RenderAttrs(common + RootAttrs(derivations))
    && (h.traceAttr <==> HasField(h.baked, TRACE_KEY))
    && RootGroup(derivations) == (if h.groups == [] then "" else h.groups[0].name)
    && (forall i :: 0 <= i < |h.groups| ==> h.groups[i].name != "")
    && Emits(h, common, derivations)
  }

  /** Whatever record follows, the handler writes what the derivations say. */
  ghost predicate Emits(h: SrvHandler, common: seq<Attr>, derivations: seq<Derivation>) {
    forall record: seq<Attr> :: Emitted(h, record) == CallerFields(common, derivations, record)
  }

  /** Where this backend writes the injected trace ID: after the record's attributes, or right before the
      outermost open group. */
  function SrvTracePosition(common: seq<Attr>, derivations: seq<Derivation>, record: seq<Attr>): nat {
    if RootGroup(derivations) == "" then |CallerFields(common, derivations, record)|
    else |RenderAttrs(common + RootAttrs(derivations))|
  }

  lemma TrailingTrace(baked: seq<Field>, fields: seq<Field>)
    ensures HasField(baked + fields, TRACE_KEY) <==> HasField(baked, TRACE_KEY) || HasField(fields, TRACE_KEY)
    ensures var caller := baked + fields; caller[..|caller|] == caller && caller[|caller|..] == []
  {
    HasFieldConcat(baked, fields, TRACE_KEY);
  }

  lemma GroupedTrace(baked: seq<Field>, name: string, fields: seq<Field>)
    requires name != ""
    ensures var caller := baked + Place(name, fields);
            && (HasField(caller, TRACE_KEY) <==> HasField(baked, TRACE_KEY) || (fields != [] && name == TRACE_KEY))
            && caller[..|baked|] == baked && caller[|baked|..] == Place(name, fields)
  {
    var placed := Place(name, fields);
    if fields != [] { assert placed[0].name == name && |placed| == 1; }
    HasFieldConcat(baked, placed, TRACE_KEY);
  }

  /** Handles a record. */
  method SrvHandle(h: SrvHandler, record: seq<Attr>, ghost common: seq<Attr>, ghost derivations: seq<Derivation>)
      returns (out: seq<Field>)
    requires SrvCarries(h, common, derivations)
    ensures SrvTracePosition(common, derivations, record) <= |CallerFields(common, derivations, record)|
    ensures out == WithTraceID(CallerFields(common, derivations, record), SrvTracePosition(common, derivations, record), h.traceID)
  {
    ghost var caller := CallerFields(common, derivations, record);
    assert Emitted(h, record) == caller;
    var e := new Event(h.baked);
    if |h.groups| == 0 {
      WriteRoot(h, e, record);
      TrailingTrace(h.baked, RenderAttrs(record));
      return e.fields;
    }
    var dict, wrote := BuildGroupDict(h.groups, record);
    var rootIsTrace := wrote && h.groups[0].name == TRACE_KEY;
    GroupedTrace(h.baked, h.groups[0].name, dict.fields);
    if h.traceID.Some? && !h.traceAttr && !rootIsTrace {
      e.Write(TRACE_KEY, Raw(h.traceID.value));
    }
    if wrote {
      e.Write(h.groups[0].name, Object(dict.fields));
    }
    return e.fields;
  }

  function MergeLast(groups: seq<GroupFrame>, attrs: seq<Attr>): seq<GroupFrame>
    requires groups != []
  {
    var last := |groups| - 1;
    groups[last := groups[last].(attrs := groups[last].attrs + attrs)]
  }

  /** Attributes merged into the innermost frame render ahead of the record's own. */
  lemma {:induction false} MergeLastRenders(groups: seq<GroupFrame>, attrs: seq<Attr>, record: seq<Attr>)
    requires groups != []
    ensures DictFields(MergeLast(groups, attrs), record) == DictFields(groups, attrs + record)
    decreases |groups|
  {
    RenderConcat(attrs, record);
    RenderConcat(groups[0].attrs, attrs);
    if |groups| == 1 {
      Assoc(RenderAttrs(groups[0].attrs), RenderAttrs(attrs), RenderAttrs(record));
    } else {
      assert MergeLast(groups, attrs)[1..] == MergeLast(groups[1..], attrs);
      MergeLastRenders(groups[1..], attrs, record);
    }
  }

  /** A frame pushed on the stack nests the record in a group of that name. */
  lemma {:induction false} PushFrameRenders(groups: seq<GroupFrame>, name: string, record: seq<Attr>)
    requires groups != [] && name != ""
    ensures DictFields(groups + [GroupFrame(name, [])], record) == DictFields(groups, [Attr(name, Group(record))])
    decreases |groups|
  {
    var frame := GroupFrame(name, []);
    RenderOne(Attr(name, Group(record)));
    assert DictFields([frame], record) == [] + RenderAttrs(record) == RenderAttrs(record);
    if |groups| == 1 {
      assert (groups + [frame])[1..] == [frame];
    } else {
      assert (groups + [frame])[1..] == groups[1..] + [frame];
      PushFrameRenders(groups[1..], name, record);
    }
  }

  /** WithAttrs: bakes attributes while no group is open, otherwise keeps them for per-record nesting. */
  method SrvWithAttrs(h: SrvHandler, attrs: seq<Attr>, ghost common: seq<Attr>, ghost derivations: seq<Derivation>)
      returns (h': SrvHandler)
    requires SrvCarries(h, common, derivations)
    ensures SrvCarries(h', common, derivations + [With(attrs)]) && h'.traceID == h.traceID
  {
    if |attrs| == 0 {
      h' := h;
    } else if |h.groups| == 0 {
      var baked, trace := ApplyRootAttrs(h.baked, attrs);
      h' := h.(baked := baked, traceAttr := h.traceAttr || trace);
    } else {
      h' := h.(groups := MergeLast(h.groups, attrs));
    }
    WithAttrsCarries(h, h', attrs, common, derivations);
  }

  lemma {:induction false} WithAttrsCarries(h: SrvHandler, h': SrvHandler, attrs: seq<Attr>, common: seq<Attr>, derivations: seq<Derivation>)
    requires SrvCarries(h, common, derivations)
    requires h.groups == [] ==>
      h' == h.(baked := h.baked + RenderAttrs(attrs), traceAttr := h.traceAttr || HasField(RenderAttrs(attrs), TRACE_KEY))
    requires h.groups != [] ==> h' == if attrs == [] then h else h.(groups := MergeLast(h.groups, attrs))
    ensures SrvCarries(h', common, derivations + [With(attrs)])
  {
    var d := With(attrs);
    RootSnoc(derivations, d);
    assert attrs + [] == attrs && RootAttrs([d]) == attrs && RootAttrs(derivations) + [] == RootAttrs(derivations);
    Assoc(common, RootAttrs(derivations), attrs);
    RenderConcat(common + RootAttrs(derivations), attrs);
    HasFieldConcat(h.baked, RenderAttrs(attrs), TRACE_KEY);
    WithAttrsKeepsEmits(h, h', attrs, common, derivations);
  }

  lemma {:induction false} WithAttrsKeepsEmits(h: SrvHandler, h': SrvHandler, attrs: seq<Attr>, common: seq<Attr>, derivations: seq<Derivation>)
    requires Emits(h, common, derivations)
    requires h.groups == [] ==> h'.groups == [] && h'.baked == h.baked + RenderAttrs(attrs)
    requires h.groups != [] ==> h' == if attrs == [] then h else h.(groups := MergeLast(h.groups, attrs))
    ensures Emits(h', common, derivations + [With(attrs)])
  {
    var d := With(attrs);
    forall record: seq<Attr>
      ensures Emitted(h', record) == CallerFields(common, derivations + [d], record)
    {
      WrapSnoc(derivations, d, record);
      assert Wrap([d], record) == attrs + record;
      assert Emitted(h, attrs + record) == CallerFields(common, derivations + [d], record);
      RenderConcat(attrs, record);
      if h.groups == [] {
        Assoc(h.baked, RenderAttrs(attrs), RenderAttrs(record));
      } else if attrs == [] {
        assert attrs + record == record;
      } else {
        MergeLastRenders(h.groups, attrs, record);
      }
    }
  }

  /** WithGroup: pushes a frame. */
  function SrvWithGroup(h: SrvHandler, name: string): SrvHandler {
    if name == "" then h else h.(groups := h.groups + [GroupFrame(name, [])])
  }

  /** A pushed frame writes a record as the handler below writes the group made of it. */
  lemma {:induction false} WithGroupEmits(h: SrvHandler, name: string, record: seq<Attr>)
    ensures Emitted(SrvWithGroup(h, name), record) == Emitted(h, Wrap([Open(name)], record))
  {
    if name != "" {
      RenderOne(Attr(name, Group(record)));
      if h.groups == [] {
        assert DictFields(SrvWithGroup(h, name).groups, record) == [] + RenderAttrs(record) == RenderAttrs(record);
      } else {
        PushFrameRenders(h.groups, name, record);
      }
    }
  }

  lemma WithGroupCarries(h: SrvHandler, name: string, common: seq<Attr>, derivations: seq<Derivation>)
    requires SrvCarries(h, common, derivations)
    ensures SrvCarries(SrvWithGroup(h, name), common, derivations + [Open(name)])
  {
    RootOpen(derivations, name);
    WithGroupKeepsEmits(h, name, common, derivations);
    var groups := SrvWithGroup(h, name).groups;
    forall i | 0 <= i < |groups|
      ensures groups[i].name != ""
    {
      if i < |h.groups| { assert groups[i] == h.groups[i]; }
    }
  }

  lemma {:induction false} RootOpen(derivations: seq<Derivation>, name: string)
    ensures RootAttrs(derivations + [Open(name)]) == RootAttrs(derivations)
    ensures RootGroup(derivations + [Open(name)]) == if RootGroup(derivations) == "" then name else RootGroup(derivations)
  {
    RootSnoc(derivations, Open(name));
    assert [Open(name)][1..] == [];
    assert RootAttrs([Open(name)]) == [] && RootAttrs(derivations) + [] == RootAttrs(derivations);
  }

  lemma WithGroupKeepsEmits(h: SrvHandler, name: string, common: seq<Attr>, derivations: seq<Derivation>)
    requires Emits(h, common, derivations)
    ensures Emits(SrvWithGroup(h, name), common, derivations + [Open(name)])
  {
    var d, h' := Open(name), SrvWithGroup(h, name);
    forall record: seq<Attr>
      ensures Emitted(h', record) == CallerFields(common, derivations + [d], record)
    {
      WrapSnoc(derivations, d, record);
      assert Emitted(h, Wrap([d], record)) == CallerFields(common, derivations + [d], record);
      WithGroupEmits(h, name, record);
    }
  }

  /** Builds a handler, derives it and logs one record. */
  method SrvLog(common: seq<Attr>, derivations: seq<Derivation>, record: seq<Attr>, traceID: Option<string>)
      returns (out: seq<Field>)
    ensures SrvTracePosition(common, derivations, record) <= |CallerFields(common, derivations, record)|
    ensures out == WithTraceID(CallerFields(common, derivations, record), SrvTracePosition(common, derivations, record), traceID)
  {
    var baked, trace := ApplyRootAttrs([], common);
    var h := SrvHandler(baked, [], trace, traceID);
    BakedCarries(h, common);
    var i := 0;
    while i < |derivations|
      invariant 0 <= i <= |derivations|
      invariant SrvCarries(h, common, derivations[..i]) && h.traceID == traceID
    {
      assert derivations[..i + 1] == derivations[..i] + [derivations[i]];
      match derivations[i] {
        case With(attrs) =>
          h := SrvWithAttrs(h, attrs, common, derivations[..i]);
        case Open(group) =>
          WithGroupCarries(h, group, common, derivations[..i]);
          h := SrvWithGroup(h, group);
      }
      i := i + 1;
    }
    assert derivations[..|derivations|] == derivations;
    out := SrvHandle(h, record, common, derivations);
  }

  lemma {:induction false} BakedCarries(h: SrvHandler, common: seq<Attr>)
    requires h.baked == RenderAttrs(common) && h.groups == []
    requires h.traceAttr <==> HasField(h.baked, TRACE_KEY)
    ensures SrvCarries(h, common, [])
  {
    assert common + [] == common;
    forall record: seq<Attr>
      ensures Emitted(h, record) == CallerFields(common, [], record)
    {
      RenderConcat(common, record);
    }
  }
}
