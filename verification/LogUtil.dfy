/** The logutil backend: the trace-ID handler that records a derivation history and replays it per
    record, and its composition with the sanitizing filter over the standard library's handler. */
module LogUtil {
  import opened Wrappers
  import opened LogAttrs
  import opened LogSanitize
  import opened LogStd
  import opened LogText
  import opened LogChain

  // ---------------------------------------------------------------- root keys

  /** The scan for a root key: by name, through empty-key groups only, and not counting what renders nothing. */
  predicate AttrHasRootKey(a: Attr, key: string)
    decreases a
  {
    if a.key != key && a.key != "" then false
    else
      var v := Resolve(a.value);
      if a.key == key then ValueRenders(v)
      else if !v.Group? then false
      else exists i :: 0 <= i < |v.attrs| && AttrHasRootKey(v.attrs[i], key)
  }

  predicate HasRootKey(attrs: seq<Attr>, key: string) {
    exists i :: 0 <= i < |attrs| && AttrHasRootKey(attrs[i], key)
  }

  /** A caller location written without a key of its own puts its components' names at the root. */
  predicate InlinesLocation(a: Attr, key: string)
    decreases a
  {
    var v := Resolve(a.value);
    a.key == ""
    && if v.Source? then !EmptySource(v) && HasField(SourceFields(v), key)
       else v.Group? && exists i :: 0 <= i < |v.attrs| && InlinesLocation(v.attrs[i], key)
  }

  predicate AnyInlinesLocation(attrs: seq<Attr>, key: string) {
    exists i :: 0 <= i < |attrs| && InlinesLocation(attrs[i], key)
  }

  /** A root field of that name is rendered exactly when the scan sees one or an inlined caller location has a
      component of that name. */
  lemma {:induction false} RootKeyIffField(a: Attr, key: string)
    requires key != ""
    ensures HasField(RenderAttr(a), key) <==> AttrHasRootKey(a, key) || InlinesLocation(a, key)
    decreases a
  {
    var v := Resolve(a.value);
    RendersIffFields(a);
    if a.key != "" {
      if RenderAttr(a) != [] {
        assert RenderAttr(a)[0].name == a.key && |RenderAttr(a)| == 1;
      }
    } else if v.Group? {
      RootFieldIffSeen(v.attrs, key);
      assert AttrHasRootKey(a, key) <==> HasRootKey(v.attrs, key);
      assert InlinesLocation(a, key) <==> AnyInlinesLocation(v.attrs, key);
    }
  }

  lemma {:induction false} RootFieldIffSeen(attrs: seq<Attr>, key: string)
    requires key != ""
    ensures HasField(RenderAttrs(attrs), key) <==> HasRootKey(attrs, key) || AnyInlinesLocation(attrs, key)
    decreases attrs
  {
    if attrs != [] {
      var rest := attrs[1..];
      RootKeyIffField(attrs[0], key);
      RootFieldIffSeen(rest, key);
      HasFieldConcat(RenderAttr(attrs[0]), RenderAttrs(rest), key);
      forall i | 0 <= i < |rest|
        ensures rest[i] == attrs[i + 1]
      {
      }
      assert HasRootKey(attrs, key) <==> AttrHasRootKey(attrs[0], key) || HasRootKey(rest, key) by {
        if i :| 0 <= i < |attrs| && AttrHasRootKey(attrs[i], key) { if i > 0 { assert rest[i - 1] == attrs[i]; } }
        if i :| 0 <= i < |rest| && AttrHasRootKey(rest[i], key) { assert attrs[i + 1] == rest[i]; }
      }
      assert AnyInlinesLocation(attrs, key) <==> InlinesLocation(attrs[0], key) || AnyInlinesLocation(rest, key) by {
        if i :| 0 <= i < |attrs| && InlinesLocation(attrs[i], key) { if i > 0 { assert rest[i - 1] == attrs[i]; } }
        if i :| 0 <= i < |rest| && InlinesLocation(rest[i], key) { assert attrs[i + 1] == rest[i]; }
      }
    }
  }

  /** No location has a component of another name, so for such a key the scan alone is exact. */
  lemma {:induction false} NoOtherComponents(a: Attr, key: string)
    requires key !in {"function", "file", "line"}
    ensures !InlinesLocation(a, key)
    decreases a
  {
    var v := Resolve(a.value);
    if v.Group? {
      forall i | 0 <= i < |v.attrs|
        ensures !InlinesLocation(v.attrs[i], key)
      {
        NoOtherComponents(v.attrs[i], key);
      }
    }
  }

  lemma {:induction false} RootKeysIffField(attrs: seq<Attr>, key: string)
    requires key !in {"", "function", "file", "line"}
    ensures HasRootKey(attrs, key) <==> HasField(RenderAttrs(attrs), key)
  {
    RootFieldIffSeen(attrs, key);
    forall i | 0 <= i < |attrs|
      ensures !InlinesLocation(attrs[i], key)
    {
      NoOtherComponents(attrs[i], key);
    }
  }

  // ---------------------------------------------------------------- the trace-ID handler

  /** A standard handler is known by the derivations applied to it. */
  datatype TraceHandler = TraceHandler(
    inner: seq<Derivation>,
    root: seq<Derivation>,
    ops: seq<Derivation>,
    grouped: bool,
    traceAttr: bool,
    traceGroup: bool,
    traceFilled: bool,
    traceID: string)

  function NewTraceHandler(std: seq<Derivation>, traceID: string, traceAttr: bool): TraceHandler {
    TraceHandler(std, std, [], false, traceAttr, false, false, traceID)
  }

  function TraceWithAttrs(h: TraceHandler, attrs: seq<Attr>): TraceHandler {
    if attrs == [] then h
    else h.(inner := h.inner + [With(attrs)],
            ops := h.ops + [With(attrs)],
            traceAttr := h.traceAttr || (!h.grouped && HasRootKey(attrs, TRACE_KEY)),
            traceFilled := h.traceFilled || (h.traceGroup && AttrsRender(attrs)))
  }

  function TraceWithGroup(h: TraceHandler, name: string): TraceHandler {
    if name == "" then h
    else h.(inner := h.inner + [Open(name)],
            ops := h.ops + [Open(name)],
            grouped := true,
            traceGroup := h.traceGroup || (!h.grouped && name == TRACE_KEY))
  }

  function TraceDerive(h: TraceHandler, d: Derivation): TraceHandler {
    match d
    case With(attrs) => TraceWithAttrs(h, attrs)
    case Open(group) => TraceWithGroup(h, group)
  }

  predicate CarriesRootTraceID(h: TraceHandler, record: seq<Attr>) {
    h.traceAttr || (h.traceGroup && (h.traceFilled || AttrsRender(record)))
  }

  /** The flags are an exact summary of the history over the attributes baked into the root handler. */
  ghost predicate Summarised(h: TraceHandler, common: seq<Attr>) {
    && h.root == [With(common)]
    && h.inner == h.root + h.ops
    && (h.grouped <==> RootGroup(h.ops) != "")
    && (h.traceAttr <==> HasField(RenderAttrs(common + RootAttrs(h.ops)), TRACE_KEY))
    && (h.traceGroup <==> RootGroup(h.ops) == TRACE_KEY)
    && (h.traceFilled <==> RootGroup(h.ops) == TRACE_KEY && RenderAttrs(NestedAttrs(h.ops)) != [])
  }

  lemma NewIsSummarised(common: seq<Attr>, traceID: string)
    ensures Summarised(NewTraceHandler([With(common)], traceID, HasRootKey(common, TRACE_KEY)), common)
  {
    RootKeysIffField(common, TRACE_KEY);
    assert common + [] == common;
  }

  /** Every derivation keeps the summary exact. */
  lemma DeriveKeepsSummary(h: TraceHandler, common: seq<Attr>, d: Derivation)
    requires Summarised(h, common)
    ensures Summarised(TraceDerive(h, d), common)
  {
    RootSnoc(h.ops, d);
    Assoc(h.root, h.ops, [d]);
    match d
    case With(attrs) =>
      if attrs != [] { WithKeepsSummary(h, common, attrs); }
    case Open(group) =>
      assert RootAttrs([d]) == [] && AllAttrs([d]) == [];
      assert RootAttrs(h.ops) + [] == RootAttrs(h.ops) && NestedAttrs(h.ops) + [] == NestedAttrs(h.ops);
      if RootGroup(h.ops) == "" {
        UngroupedNothingNested(h.ops);
      }
  }

  lemma {:induction false} WithKeepsSummary(h: TraceHandler, common: seq<Attr>, attrs: seq<Attr>)
    requires Summarised(h, common)
    ensures var h' := TraceWithAttrs(h, attrs);
            && (h'.traceAttr <==> HasField(RenderAttrs(common + RootAttrs(h'.ops)), TRACE_KEY))
            && (h'.traceFilled <==> RootGroup(h'.ops) == TRACE_KEY && RenderAttrs(NestedAttrs(h'.ops)) != [])
  {
    var d := With(attrs);
    var baked, nested := RootAttrs(h.ops), NestedAttrs(h.ops);
    RootSnoc(h.ops, d);
    assert attrs + [] == attrs && RootAttrs([d]) == AllAttrs([d]) == attrs;
    assert baked + [] == baked && nested + [] == nested;
    RootKeysIffField(attrs, TRACE_KEY);
    RenderAnyIffFields(attrs);
    Assoc(common, baked, attrs);
    RenderConcat(common + baked, attrs);
    HasFieldConcat(RenderAttrs(common + baked), RenderAttrs(attrs), TRACE_KEY);
    RenderConcat(nested, attrs);
    if RootGroup(h.ops) == "" { UngroupedNothingNested(h.ops); }
  }

  lemma {:induction false} UngroupedNothingNested(ops: seq<Derivation>)
    requires RootGroup(ops) == ""
    ensures NestedAttrs(ops) == []
    decreases |ops|
  {
    if ops != [] {
      UngroupedNothingNested(ops[1..]);
    }
  }

  /** After any chain of derivations. */
  function TraceDeriveAll(h: TraceHandler, derivations: seq<Derivation>): TraceHandler
    decreases |derivations|
  {
    if derivations == [] then h else TraceDeriveAll(TraceDerive(h, derivations[0]), derivations[1..])
  }

  lemma {:induction false} HistoryIsSummarised(h: TraceHandler, common: seq<Attr>, derivations: seq<Derivation>)
    requires Summarised(h, common)
    ensures Summarised(TraceDeriveAll(h, derivations), common)
    decreases |derivations|
  {
    if derivations != [] {
      DeriveKeepsSummary(h, common, derivations[0]);
      HistoryIsSummarised(TraceDerive(h, derivations[0]), common, derivations[1..]);
    }
  }

  /** The trace ID the handler decides it must inject is missing from the caller's fields, and conversely. */
  lemma InjectsIffMissing(h: TraceHandler, common: seq<Attr>, record: seq<Attr>)
    requires Summarised(h, common)
    ensures HasField(CallerFields(common, h.ops, record), TRACE_KEY) <==>
            if h.grouped then CarriesRootTraceID(h, record) else h.traceAttr || HasRootKey(record, TRACE_KEY)
  {
    RenderConcat(common, Wrap(h.ops, record));
    RenderConcat(common, RootAttrs(h.ops));
    HasFieldConcat(RenderAttrs(common), RenderAttrs(Wrap(h.ops, record)), TRACE_KEY);
    HasFieldConcat(RenderAttrs(common), RenderAttrs(RootAttrs(h.ops)), TRACE_KEY);
    RootFieldSources(h.ops, record, TRACE_KEY);
    RootKeysIffField(record, TRACE_KEY);
    RenderAnyIffFields(record);
  }

  function TraceAttr(traceID: string): Attr {
    Attr(TRACE_KEY, Plain(traceID))
  }

  lemma TraceAttrSettled(traceID: string)
    ensures Settled([TraceAttr(traceID)])
    ensures RenderAttrs([TraceAttr(traceID)]) == [Field(TRACE_KEY, Raw(traceID))]
  {
    RenderOne(TraceAttr(traceID));
    assert Normal(TraceAttr(traceID));
  }

  /** Where this backend writes the injected trace ID: right before the record's own attributes, or,
      under an open group, right after the common ones. */
  function UtilTracePosition(common: seq<Attr>, derivations: seq<Derivation>): nat {
    if RootGroup(derivations) == "" then |RenderAttrs(common + RootAttrs(derivations))| else |RenderAttrs(common)|
  }

  lemma UtilTracePositionInRange(common: seq<Attr>, derivations: seq<Derivation>, record: seq<Attr>)
    ensures UtilTracePosition(common, derivations) <= |CallerFields(common, derivations, record)|
  {
    if RootGroup(derivations) == "" {
      WrapUngrouped(derivations, record);
      Assoc(common, RootAttrs(derivations), record);
      RenderConcat(common + RootAttrs(derivations), record);
    } else {
      RenderConcat(common, Wrap(derivations, record));
    }
  }

  lemma InsertedBetween(head: seq<Field>, tail: seq<Field>, traceID: string)
    requires !HasField(head + tail, TRACE_KEY)
    ensures WithTraceID(head + tail, |head|, Some(traceID)) == head + [Field(TRACE_KEY, Raw(traceID))] + tail
  {
    assert (head + tail)[..|head|] == head && (head + tail)[|head|..] == tail;
  }

  lemma RootSettled(h: TraceHandler, common: seq<Attr>)
    requires Summarised(h, common) && SettledOps(h.inner)
    ensures SettledOps(h.root + h.ops) && SettledOps(h.root + [With([TraceAttr(h.traceID)])] + h.ops)
  {
    TraceAttrSettled(h.traceID);
    assert h.inner[0] == With(common);
    assert forall i :: 0 <= i < |h.ops| ==> h.ops[i] == h.inner[i + 1];
  }

  lemma {:induction false} WrapBehind(common: seq<Attr>, mine: seq<Attr>, ops: seq<Derivation>, record: seq<Attr>)
    ensures Wrap([With(common)] + [With(mine)] + ops, record) == common + (mine + Wrap(ops, record))
  {
    var all := [With(common)] + [With(mine)] + ops;
    assert all[0] == With(common) && all[1..] == [With(mine)] + ops && all[1..][0] == With(mine) && all[1..][1..] == ops;
  }

  lemma {:induction false} RenderBetween(common: seq<Attr>, mine: seq<Attr>, wrapped: seq<Attr>)
    ensures RenderAttrs(common + (mine + wrapped)) == RenderAttrs(common) + RenderAttrs(mine) + RenderAttrs(wrapped)
    ensures RenderAttrs(common + wrapped) == RenderAttrs(common) + RenderAttrs(wrapped)
  {
    RenderConcat(common, mine + wrapped);
    RenderConcat(mine, wrapped);
    RenderConcat(common, wrapped);
    Assoc(RenderAttrs(common), RenderAttrs(mine), RenderAttrs(wrapped));
  }

  /** Replaying the history after a root-level trace ID writes the caller's fields plus that one field. */
  lemma {:induction false} ReplayInjects(h: TraceHandler, common: seq<Attr>, record: seq<Attr>)
    requires Summarised(h, common) && SettledOps(h.inner) && Settled(record)
    requires h.grouped && !HasField(CallerFields(common, h.ops, record), TRACE_KEY)
    ensures UtilTracePosition(common, h.ops) <= |CallerFields(common, h.ops, record)|
    ensures StdRecord(h.root + [With([TraceAttr(h.traceID)])] + h.ops, record).fields
         == WithTraceID(CallerFields(common, h.ops, record), UtilTracePosition(common, h.ops), Some(h.traceID))
  {
    var mine := [TraceAttr(h.traceID)];
    var ops := h.root + [With(mine)] + h.ops;
    var wrapped := Wrap(h.ops, record);
    RootSettled(h, common);
    TraceAttrSettled(h.traceID);
    SettledStdRecord(ops, record);
    WrapBehind(common, mine, h.ops, record);
    RenderBetween(common, mine, wrapped);
    InsertedBetween(RenderAttrs(common), RenderAttrs(wrapped), h.traceID);
  }

  /** Leading the record with the trace ID does so on an ungrouped handler. */
  lemma {:induction false} LeadInjects(h: TraceHandler, common: seq<Attr>, record: seq<Attr>)
    requires Summarised(h, common) && SettledOps(h.inner) && Settled(record)
    requires !h.grouped && !HasField(CallerFields(common, h.ops, record), TRACE_KEY)
    ensures UtilTracePosition(common, h.ops) <= |CallerFields(common, h.ops, record)|
    ensures StdRecord(h.inner, [TraceAttr(h.traceID)] + record).fields
         == WithTraceID(CallerFields(common, h.ops, record), UtilTracePosition(common, h.ops), Some(h.traceID))
  {
    var mine, baked := [TraceAttr(h.traceID)], common + RootAttrs(h.ops);
    TraceAttrSettled(h.traceID);
    SettledStdRecord(h.inner, mine + record);
    assert h.inner[1..] == h.ops;
    WrapUngrouped(h.ops, mine + record);
    WrapUngrouped(h.ops, record);
    assert h.inner[0] == With(common);
    Assoc(common, RootAttrs(h.ops), mine + record);
    Assoc(common, RootAttrs(h.ops), record);
    assert Wrap(h.inner, mine + record) == baked + (mine + record);
    assert common + Wrap(h.ops, record) == baked + record;
    RenderConcat(baked, mine + record);
    RenderConcat(mine, record);
    RenderConcat(baked, record);
    InsertedBetween(RenderAttrs(baked), RenderAttrs(record), h.traceID);
    Assoc(RenderAttrs(baked), RenderAttrs(mine), RenderAttrs(record));
  }

  /** Derives a handler by the recorded operations, one by one. */
  method Replay(start: seq<Derivation>, ops: seq<Derivation>) returns (target: seq<Derivation>)
    ensures target == start + ops
  {
    target := start;
    var i := 0;
    while i < |ops|
      invariant 0 <= i <= |ops|
      invariant target == start + ops[..i]
    {
      assert ops[..i + 1] == ops[..i] + [ops[i]];
      target := target + [ops[i]];
      i := i + 1;
    }
    assert ops[..|ops|] == ops;
  }

  /** The standard handler's line: its fields, and its text, which says the same. */
  method StdWrite(ops: seq<Derivation>, record: seq<Attr>) returns (out: seq<Field>, text: seq<Token>)
    requires SettledOps(ops) && Settled(record)
    ensures out == StdRecord(ops, record).fields == RenderAttrs(Wrap(ops, record))
    ensures ParseLine(text) == Some(out)
  {
    FilteredChainIsReadable([], ops, record);
    assert [] + RenderAttrs(Wrap(ops, record)) == RenderAttrs(Wrap(ops, record));
    return StdRecord(ops, record).fields, LineText([], ops, record);
  }

  /** Handles a record: the fast path leads it with the trace ID, an open group replays the history. */
  method TraceHandle(h: TraceHandler, record: seq<Attr>, ghost common: seq<Attr>)
      returns (out: seq<Field>, text: seq<Token>)
    requires Summarised(h, common) && SettledOps(h.inner) && Settled(record)
    ensures UtilTracePosition(common, h.ops) <= |CallerFields(common, h.ops, record)|
    ensures out == WithTraceID(CallerFields(common, h.ops, record), UtilTracePosition(common, h.ops), Some(h.traceID))
    ensures ParseLine(text) == Some(out)
  {
    UtilTracePositionInRange(common, h.ops, record);
    InjectsIffMissing(h, common, record);
    SettledStdRecord(h.inner, record);
    assert h.inner[1..] == h.ops;
    if !h.grouped {
      if h.traceAttr || HasRootKey(record, TRACE_KEY) {
        out, text := StdWrite(h.inner, record);
        return;
      }
      LeadInjects(h, common, record);
      TraceAttrSettled(h.traceID);
      out, text := StdWrite(h.inner, [TraceAttr(h.traceID)] + record);
      return;
    }
    var target := h.root;
    if !CarriesRootTraceID(h, record) {
      target := target + [With([TraceAttr(h.traceID)])];
      ReplayInjects(h, common, record);
    }
    RootSettled(h, common);
    target := Replay(target, h.ops);
    out, text := StdWrite(target, record);
  }

  // ---------------------------------------------------------------- the composed handler

  /** The handler below the filter: the trace handler, or the bare standard one when no trace ID is configured. */
  datatype UtilHandler = Traced(trace: TraceHandler) | Untraced(std: seq<Derivation>)

  function History(h: UtilHandler): seq<Derivation> {
    match h
    case Traced(t) => t.ops
    case Untraced(std) => if std == [] then [] else std[1..]
  }

  function TraceIDOf(h: UtilHandler): Option<string> {
    if h.Traced? then Some(h.trace.traceID) else None
  }

  /** h carries, filtered, what the caller derived over the common attributes. */
  ghost predicate Carries(h: UtilHandler, clean: seq<Attr>, derivations: seq<Derivation>) {
    && Settled(clean)
    && SettledOps(History(h))
    && (match h
        case Traced(t) => Summarised(t, clean)
        case Untraced(std) => |std| > 0 && std[0] == With(clean))
    && (RootGroup(History(h)) == "" <==> RootGroup(derivations) == "")
    && SameMeaning(History(h), derivations)
  }

  /** Whatever record follows, both chains render the same. */
  ghost predicate SameMeaning(a: seq<Derivation>, b: seq<Derivation>) {
    forall record: seq<Attr> :: RenderAttrs(Wrap(a, record)) == RenderAttrs(Wrap(b, record))
  }

  method NewUtilHandler(common: seq<Attr>, traceID: Option<string>) returns (h: UtilHandler, ghost clean: seq<Attr>)
    ensures RenderAttrs(clean) == RenderAttrs(common)
    ensures Carries(h, clean, []) && TraceIDOf(h) == traceID
  {
    var attrs, _ := SanitizeAttrs(common);
    clean := attrs;
    NormAttrsPreserves(common);
    NormAttrsIsNormal(common);
    AllNormalSettled(attrs);
    var std := [With(attrs)];
    if traceID.Some? {
      NewIsSummarised(attrs, traceID.value);
      return Traced(NewTraceHandler(std, traceID.value, HasRootKey(attrs, TRACE_KEY))), attrs;
    }
    return Untraced(std), attrs;
  }

  function UtilApply(h: UtilHandler, d: Derivation): UtilHandler {
    match h
    case Traced(t) => Traced(TraceDerive(t, d))
    case Untraced(std) => Untraced(std + [d])
  }

  /** Applying a filtered derivation carries the caller's unfiltered one. */
  lemma ApplyCarries(h: UtilHandler, clean: seq<Attr>, derivations: seq<Derivation>, d: Derivation, filtered: Derivation)
    requires Carries(h, clean, derivations)
    requires d.With? ==> filtered == With(NormAttrs(d.attrs)) && filtered.attrs != []
    requires d.Open? ==> filtered == d && d.group != ""
    ensures Carries(UtilApply(h, filtered), clean, derivations + [d])
  {
    var h' := UtilApply(h, filtered);
    if h.Traced? {
      DeriveKeepsSummary(h.trace, clean, filtered);
    }
    assert History(h') == History(h) + [filtered];
    ApplyKeepsSettled(History(h), d, filtered);
    SameRootGroup(History(h), derivations, d, filtered);
    ApplyKeepsMeaning(History(h), derivations, d, filtered);
  }

  lemma ApplyKeepsSettled(ops: seq<Derivation>, d: Derivation, filtered: Derivation)
    requires SettledOps(ops)
    requires d.With? ==> filtered == With(NormAttrs(d.attrs))
    requires d.Open? ==> filtered == d
    ensures SettledOps(ops + [filtered])
  {
    if d.With? {
      NormAttrsIsNormal(d.attrs);
      AllNormalSettled(filtered.attrs);
    }
  }

  lemma {:induction false} SameRootGroup(ops: seq<Derivation>, derivations: seq<Derivation>, d: Derivation, filtered: Derivation)
    requires RootGroup(ops) == "" <==> RootGroup(derivations) == ""
    requires d.With? <==> filtered.With?
    requires d.Open? ==> filtered == d
    ensures RootGroup(ops + [filtered]) == "" <==> RootGroup(derivations + [d]) == ""
  {
    RootSnoc(ops, filtered);
    RootSnoc(derivations, d);
  }

  lemma ApplyKeepsMeaning(ops: seq<Derivation>, derivations: seq<Derivation>, d: Derivation, filtered: Derivation)
    requires SameMeaning(ops, derivations)
    requires d.With? ==> filtered == With(NormAttrs(d.attrs))
    requires d.Open? ==> filtered == d
    ensures SameMeaning(ops + [filtered], derivations + [d])
  {
    forall record: seq<Attr>
      ensures RenderAttrs(Wrap(ops + [filtered], record)) == RenderAttrs(Wrap(derivations + [d], record))
    {
      WrapSnoc(derivations, d, record);
      assert RenderAttrs(Wrap(ops, Wrap([d], record))) == RenderAttrs(Wrap(derivations, Wrap([d], record)));
      FilteredWrap(ops, d, filtered, record);
    }
  }

  /** A filtered derivation at the end of a history means what the unfiltered one does. */
  lemma {:induction false} FilteredWrap(ops: seq<Derivation>, d: Derivation, filtered: Derivation, record: seq<Attr>)
    requires d.With? ==> filtered == With(NormAttrs(d.attrs))
    requires d.Open? ==> filtered == d
    ensures RenderAttrs(Wrap(ops + [filtered], record)) == RenderAttrs(Wrap(ops, Wrap([d], record)))
  {
    var x, y := Wrap([filtered], record), Wrap([d], record);
    WrapSnoc(ops, filtered, record);
    if d.With? {
      NormAttrsPreserves(d.attrs);
      WrapOne(filtered, record);
      WrapOne(d, record);
      RenderConcat(filtered.attrs, record);
      RenderConcat(d.attrs, record);
    }
    WrapCongruent(ops, x, y);
  }

  /** A derivation the filter swallows renders nothing either way. */
  lemma SkipCarries(h: UtilHandler, clean: seq<Attr>, derivations: seq<Derivation>, d: Derivation)
    requires Carries(h, clean, derivations)
    requires if d.With? then NormAttrs(d.attrs) == [] else d.group == ""
    ensures Carries(h, clean, derivations + [d])
  {
    RootSnoc(derivations, d);
    forall record: seq<Attr>
      ensures RenderAttrs(Wrap(History(h), record)) == RenderAttrs(Wrap(derivations + [d], record))
    {
      WrapSnoc(derivations, d, record);
      if d.With? {
        NormAttrsPreserves(d.attrs);
        RenderConcat(d.attrs, record);
      }
      WrapCongruent(derivations, Wrap([d], record), record);
    }
  }

  /** WithAttrs and WithGroup of the composed handler. */
  method UtilDerive(h: UtilHandler, d: Derivation, ghost clean: seq<Attr>, ghost derivations: seq<Derivation>)
      returns (h': UtilHandler)
    requires Carries(h, clean, derivations)
    ensures Carries(h', clean, derivations + [d]) && TraceIDOf(h') == TraceIDOf(h)
  {
    if d.With? {
      var attrs, _ := SanitizeAttrs(d.attrs);
      if |attrs| == 0 {
        SkipCarries(h, clean, derivations, d);
        return h;
      }
      ApplyCarries(h, clean, derivations, d, With(attrs));
      return UtilApply(h, With(attrs));
    }
    if d.group == "" {
      SkipCarries(h, clean, derivations, d);
      return h;
    }
    ApplyCarries(h, clean, derivations, d, d);
    return UtilApply(h, d);
  }

  /** Handles a record through the filter. */
  method UtilHandle(h: UtilHandler, record: seq<Attr>, ghost common: seq<Attr>, ghost clean: seq<Attr>,
                    ghost derivations: seq<Derivation>) returns (out: seq<Field>, text: seq<Token>)
    requires Carries(h, clean, derivations) && RenderAttrs(clean) == RenderAttrs(common)
    ensures UtilTracePosition(common, derivations) <= |CallerFields(common, derivations, record)|
    ensures out == WithTraceID(CallerFields(common, derivations, record), UtilTracePosition(common, derivations), TraceIDOf(h))
    ensures ParseLine(text) == Some(out)
  {
    var filtered := SanitizeRecord(record);
    SameCaller(h, record, filtered, common, clean, derivations);
    UtilTracePositionInRange(common, derivations, record);
    match h
    case Traced(t) =>
      assert forall i :: 0 <= i < |t.inner| && t.inner[i].With? ==>
        t.inner[i] == if i == 0 then With(clean) else t.ops[i - 1];
      out, text := TraceHandle(t, filtered, clean);
    case Untraced(std) =>
      assert forall i :: 0 <= i < |std| && std[i].With? ==> std[i] == if i == 0 then With(clean) else History(h)[i - 1];
      out, text := StdWrite(std, filtered);
  }

  /** Filtering changes neither the caller's fields nor where the trace ID goes. */
  lemma {:induction false} SameCaller(h: UtilHandler, record: seq<Attr>, filtered: seq<Attr>, common: seq<Attr>, clean: seq<Attr>,
                   derivations: seq<Derivation>)
    requires Carries(h, clean, derivations)
    requires RenderAttrs(clean) == RenderAttrs(common) && RenderAttrs(filtered) == RenderAttrs(record)
    ensures CallerFields(clean, History(h), filtered) == CallerFields(common, derivations, record)
    ensures UtilTracePosition(clean, History(h)) == UtilTracePosition(common, derivations)
  {
    WrapCongruent(derivations, filtered, record);
    RenderConcat(clean, Wrap(History(h), filtered));
    RenderConcat(common, Wrap(derivations, record));
    if RootGroup(derivations) == "" {
      WrapUngrouped(History(h), []);
      WrapUngrouped(derivations, []);
      assert RootAttrs(History(h)) + [] == RootAttrs(History(h)) && RootAttrs(derivations) + [] == RootAttrs(derivations);
      RenderConcat(clean, RootAttrs(History(h)));
      RenderConcat(common, RootAttrs(derivations));
    }
  }

  /** Builds a handler, derives it and logs one record. */
  method UtilLog(common: seq<Attr>, derivations: seq<Derivation>, record: seq<Attr>, traceID: Option<string>)
      returns (out: seq<Field>, text: seq<Token>)
    ensures UtilTracePosition(common, derivations) <= |CallerFields(common, derivations, record)|
    ensures out == WithTraceID(CallerFields(common, derivations, record), UtilTracePosition(common, derivations), traceID)
    ensures ParseLine(text) == Some(out)
  {
    var h, clean := NewUtilHandler(common, traceID);
    var i := 0;
    while i < |derivations|
      invariant 0 <= i <= |derivations|
      invariant Carries(h, clean, derivations[..i]) && TraceIDOf(h) == traceID
    {
      assert derivations[..i + 1] == derivations[..i] + [derivations[i]];
      h := UtilDerive(h, derivations[i], clean, derivations[..i]);
      i := i + 1;
    }
    assert derivations[..|derivations|] == derivations;
    out, text := UtilHandle(h, record, common, clean, derivations);
  }
}
