/** The two logging backends side by side. */
module LogBackends {
  import opened Wrappers
  import opened LogAttrs
  import opened LogSanitize
  import opened LogText
  import LogUtil
  import LogSrv

  /** The line is the caller's fields, with the trace ID inserted somewhere if they lack one. */
  ghost predicate Carries(line: seq<Field>, caller: seq<Field>, traceID: Option<string>) {
    exists i: nat | i <= |caller| :: line == WithTraceID(caller, i, traceID)
  }

  /** For every configuration, derivation chain and record, both backends write the caller's own fields,
      in the same order and nesting, and decide alike whether to add a trace ID. */
  method LogBoth(common: seq<Attr>, derivations: seq<Derivation>, record: seq<Attr>, traceID: Option<string>)
      returns (util: seq<Field>, srv: seq<Field>, utilText: seq<Token>)
    ensures Carries(util, CallerFields(common, derivations, record), traceID)
    ensures Carries(srv, CallerFields(common, derivations, record), traceID)
    ensures ParseLine(utilText) == Some(util)
    ensures |util| == |srv|
    ensures CountField(util, TRACE_KEY) == CountField(srv, TRACE_KEY)
    ensures var caller := CallerFields(common, derivations, record);
            && (traceID.None? || HasField(caller, TRACE_KEY) ==> util == srv == caller)
            && (traceID.Some? && !HasField(caller, TRACE_KEY) ==>
                  |util| == |caller| + 1 && CountField(util, TRACE_KEY) == 1)
  {
    util, utilText := LogUtil.UtilLog(common, derivations, record, traceID);
    srv := LogSrv.SrvLog(common, derivations, record, traceID);
    ghost var caller := CallerFields(common, derivations, record);
    TraceIDCount(caller, LogUtil.UtilTracePosition(common, derivations), traceID);
    TraceIDCount(caller, LogSrv.SrvTracePosition(common, derivations, record), traceID);
    CountPositive(caller, TRACE_KEY);
  }

  /** What the injection rule comes to in the caller's terms: the line already has a root trace_id exactly
      when a common or ungrouped derived attribute renders one, the record does with no group open, or the
      outermost group is named trace_id and holds anything. */
  lemma {:induction false} TraceIDSuppliedByCaller(common: seq<Attr>, derivations: seq<Derivation>, record: seq<Attr>)
    ensures HasField(CallerFields(common, derivations, record), TRACE_KEY) <==>
            || LogUtil.HasRootKey(common, TRACE_KEY)
            || LogUtil.HasRootKey(RootAttrs(derivations), TRACE_KEY)
            || (RootGroup(derivations) == "" && LogUtil.HasRootKey(record, TRACE_KEY))
            || (RootGroup(derivations) == TRACE_KEY
                && (AttrsRender(NestedAttrs(derivations)) || AttrsRender(record)))
  {
    RenderConcat(common, Wrap(derivations, record));
    HasFieldConcat(RenderAttrs(common), RenderAttrs(Wrap(derivations, record)), TRACE_KEY);
    RootFieldSources(derivations, record, TRACE_KEY);
    LogUtil.RootKeysIffField(common, TRACE_KEY);
    LogUtil.RootKeysIffField(RootAttrs(derivations), TRACE_KEY);
    LogUtil.RootKeysIffField(record, TRACE_KEY);
    RenderAnyIffFields(NestedAttrs(derivations));
    RenderAnyIffFields(record);
  }
}
