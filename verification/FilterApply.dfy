/** Filtering end to end: rules compiled against the element type of a slice, evaluated on every element, and the
    matches in the window left in place. */
module FilterApply {
  import opened Wrappers
  import opened FilterPaths
  import opened FilterSlice

  /** A rule names a field and accepts or refuses the value found there, if any. */
  datatype Rule = Rule(selector: string, accepts: Option<Value> -> bool)

  datatype CompiledRule = CompiledRule(target: Selector, accepts: Option<Value> -> bool)

  /** A rule's verdict on what was read: an unreachable field is a refusal, not an error. */
  function Judge(accepts: Option<Value> -> bool, read: Result<Read, PathError>): Result<bool, string> {
    match read
    case Err(_) => Err("invalid filter")
    case Ok(ReadPanicked) => Err("panic")
    case Ok(Unreachable) => Ok(false)
    case Ok(Read(leaf)) => Ok(accepts(leaf))
  }

  function Evaluator(types: Types, maxDepth: nat, elemType: TypeId): (CompiledRule, Value) -> Result<bool, string> {
    (rule: CompiledRule, elem: Value) => Judge(rule.accepts, RuleRead(types, maxDepth, rule.target, elemType, elem))
  }

  predicate Compiles(types: Types, maxDepth: nat, elemType: TypeId, rule: Rule)
    requires elemType in types
  {
    Compiled(types, maxDepth, elemType, rule.selector).Ok?
  }

  ghost predicate AllCompile(types: Types, maxDepth: nat, elemType: TypeId, rules: seq<seq<Rule>>)
    requires elemType in types
  {
    forall i, j :: 0 <= i < |rules| && 0 <= j < |rules[i]| ==> Compiles(types, maxDepth, elemType, rules[i][j])
  }

  function CompiledOf(types: Types, maxDepth: nat, elemType: TypeId, rule: Rule): CompiledRule
    requires elemType in types && Compiles(types, maxDepth, elemType, rule)
  {
    CompiledRule(Compiled(types, maxDepth, elemType, rule.selector).value, rule.accepts)
  }

  ghost predicate GroupCompiledTo(types: Types, maxDepth: nat, elemType: TypeId, group: seq<Rule>, compiled: seq<CompiledRule>)
    requires elemType in types
  {
    |compiled| == |group|
    && forall j :: 0 <= j < |group| ==>
         Compiles(types, maxDepth, elemType, group[j]) && compiled[j] == CompiledOf(types, maxDepth, elemType, group[j])
  }

  ghost predicate CompiledTo(types: Types, maxDepth: nat, elemType: TypeId, rules: seq<seq<Rule>>, compiled: seq<seq<CompiledRule>>)
    requires elemType in types
  {
    |compiled| == |rules|
    && forall i :: 0 <= i < |rules| ==> GroupCompiledTo(types, maxDepth, elemType, rules[i], compiled[i])
  }

  lemma GroupSnoc(types: Types, maxDepth: nat, elemType: TypeId, group: seq<Rule>, compiled: seq<CompiledRule>,
                                     j: nat, target: Selector)
    requires elemType in types && j < |group| && GroupCompiledTo(types, maxDepth, elemType, group[..j], compiled)
    requires Compiled(types, maxDepth, elemType, group[j].selector) == Ok(target)
    ensures GroupCompiledTo(types, maxDepth, elemType, group[..j + 1], compiled + [CompiledRule(target, group[j].accepts)])
  {
    var all := compiled + [CompiledRule(target, group[j].accepts)];
    forall k | 0 <= k < j + 1
      ensures Compiles(types, maxDepth, elemType, group[..j + 1][k])
      ensures all[k] == CompiledOf(types, maxDepth, elemType, group[..j + 1][k])
    {
      if k < j { assert group[..j + 1][k] == group[..j][k]; }
    }
  }

  method CompileGroup(fields: FieldGetter, group: seq<Rule>, elemType: TypeId) returns (r: Result<seq<CompiledRule>, PathError>)
    requires fields.Valid() && elemType in fields.types
    modifies fields
    ensures fields.Valid()
    ensures r.Ok? ==> GroupCompiledTo(fields.types, fields.maxDepth, elemType, group, r.value)
    ensures r.Err? ==> exists j :: 0 <= j < |group| && !Compiles(fields.types, fields.maxDepth, elemType, group[j])
  {
    var compiled: seq<CompiledRule> := [];
    for j := 0 to |group|
      invariant fields.Valid()
      invariant GroupCompiledTo(fields.types, fields.maxDepth, elemType, group[..j], compiled)
    {
      var target := fields.CompileSelector(elemType, group[j].selector);
      if target.Err? {
        assert !Compiles(fields.types, fields.maxDepth, elemType, group[j]);
        return Err(target.error);
      }
      GroupSnoc(fields.types, fields.maxDepth, elemType, group, compiled, j, target.value);
      compiled := compiled + [CompiledRule(target.value, group[j].accepts)];
    }
    assert group[..|group|] == group;
    return Ok(compiled);
  }

  lemma CompiledSnoc(types: Types, maxDepth: nat, elemType: TypeId, rules: seq<seq<Rule>>,
                                        compiled: seq<seq<CompiledRule>>, i: nat, group: seq<CompiledRule>)
    requires elemType in types && i < |rules| && CompiledTo(types, maxDepth, elemType, rules[..i], compiled)
    requires GroupCompiledTo(types, maxDepth, elemType, rules[i], group)
    ensures CompiledTo(types, maxDepth, elemType, rules[..i + 1], compiled + [group])
  {
    forall k | 0 <= k < i + 1
      ensures GroupCompiledTo(types, maxDepth, elemType, rules[..i + 1][k], (compiled + [group])[k])
    {
      if k < i { assert rules[..i + 1][k] == rules[..i][k]; }
    }
  }

  /** Compiles every rule up front; the first that does not compile is a client error. */
  method CompileRules(fields: FieldGetter, rules: seq<seq<Rule>>, elemType: TypeId) returns (r: Result<seq<seq<CompiledRule>>, PathError>)
    requires fields.Valid() && elemType in fields.types
    modifies fields
    ensures fields.Valid()
    ensures r.Ok? ==> CompiledTo(fields.types, fields.maxDepth, elemType, rules, r.value)
    ensures r.Err? ==> !AllCompile(fields.types, fields.maxDepth, elemType, rules)
  {
    var compiled: seq<seq<CompiledRule>> := [];
    for i := 0 to |rules|
      invariant fields.Valid()
      invariant CompiledTo(fields.types, fields.maxDepth, elemType, rules[..i], compiled)
    {
      var group := CompileGroup(fields, rules[i], elemType);
      if group.Err? {
        return Err(group.error);
      }
      CompiledSnoc(fields.types, fields.maxDepth, elemType, rules, compiled, i, group.value);
      compiled := compiled + [group.value];
    }
    assert rules[..|rules|] == rules;
    return Ok(compiled);
  }

  // ---------------------------------------------------------------- rules as their names read

  /** Whether an element passes a rule when its field is looked up name by name. */
  predicate PassesByName(types: Types, t: TypeId, rule: Rule, elem: Value) {
    if rule.selector == "" then rule.accepts(Some(elem))
    else
      match DescendByName(types, elem, t, Split(rule.selector))
      case Found(v) => rule.accepts(Unwrap(v, MAX_LEAF_INDIRECTIONS))
      case Missing => false
      case Panicked => false
  }

  ghost predicate SatisfiesByName(types: Types, t: TypeId, rules: seq<seq<Rule>>, elem: Value) {
    forall i :: 0 <= i < |rules| ==> SomeByName(types, t, rules[i], elem)
  }

  ghost predicate SomeByName(types: Types, t: TypeId, group: seq<Rule>, elem: Value) {
    exists j :: 0 <= j < |group| && PassesByName(types, t, group[j], elem)
  }

  /** On an element of the type it was compiled for, a rule neither fails nor panics, and reads what its names say. */
  lemma {:induction false} CompiledReadsByName(types: Types, maxDepth: nat, t: TypeId, rule: Rule, elem: Value)
    requires WellFormed(types) && t in types && !types[t].Interface? && HasType(types, elem, t)
    requires Compiles(types, maxDepth, t, rule)
    ensures Evaluator(types, maxDepth, t)(CompiledOf(types, maxDepth, t, rule), elem) == Ok(PassesByName(types, t, rule, elem))
  {
    if rule.selector != "" {
      ResolvedPathIsSound(types, elem, t, Split(rule.selector));
    }
  }

  lemma NoRuleErrs<R, E>(rules: seq<seq<R>>, eval: (R, E) -> Result<bool, string>, elem: E)
    requires forall i, j :: 0 <= i < |rules| && 0 <= j < |rules[i]| ==> eval(rules[i][j], elem).Ok?
    ensures Verdict(rules, eval, elem).Ok?
  {
    var r := Verdict(rules, eval, elem);
    VerdictIsExact(rules, eval, elem, r);
  }

  lemma {:induction false} CompiledVerdict(types: Types, maxDepth: nat, t: TypeId, rules: seq<seq<Rule>>,
                                           compiled: seq<seq<CompiledRule>>, elem: Value)
    requires WellFormed(types) && t in types && !types[t].Interface? && HasType(types, elem, t)
    requires CompiledTo(types, maxDepth, t, rules, compiled)
    ensures Verdict(compiled, Evaluator(types, maxDepth, t), elem) == Ok(SatisfiesByName(types, t, rules, elem))
  {
    var eval := Evaluator(types, maxDepth, t);
    var r := Verdict(compiled, eval, elem);
    forall i, j | 0 <= i < |compiled| && 0 <= j < |compiled[i]|
      ensures j < |rules[i]| && eval(compiled[i][j], elem) == Ok(PassesByName(types, t, rules[i][j], elem))
    {
      assert GroupCompiledTo(types, maxDepth, t, rules[i], compiled[i]);
      CompiledReadsByName(types, maxDepth, t, rules[i][j], elem);
    }
    VerdictIsExact(compiled, eval, elem, r);
    NoRuleErrs(compiled, eval, elem);
    forall i | 0 <= i < |rules|
      ensures SomeRule(compiled[i], eval, elem) <==> SomeByName(types, t, rules[i], elem)
    {
      assert GroupCompiledTo(types, maxDepth, t, rules[i], compiled[i]);
      if SomeRule(compiled[i], eval, elem) {
        var j :| 0 <= j < |compiled[i]| && eval(compiled[i][j], elem) == Ok(true);
        assert PassesByName(types, t, rules[i][j], elem);
      }
      if SomeByName(types, t, rules[i], elem) {
        var j :| 0 <= j < |rules[i]| && PassesByName(types, t, rules[i][j], elem);
        assert eval(compiled[i][j], elem) == Ok(true);
      }
    }
  }

  lemma {:induction false} MatchesAgree<E>(s: seq<E>, a: E -> Result<bool, string>, b: E -> Result<bool, string>)
    requires forall i :: 0 <= i < |s| ==> a(s[i]) == b(s[i])
    ensures Matches(s, a) == Matches(s, b)
    decreases |s|
  {
    if s != [] {
      MatchesAgree(s[..|s| - 1], a, b);
    }
  }

  ghost function ByName(types: Types, t: TypeId, rules: seq<seq<Rule>>): Value -> Result<bool, string> {
    e => Ok(SatisfiesByName(types, t, rules, e))
  }

  /** Filters a slice of a concrete element type. A rule that does not compile is reported before anything is
      touched; otherwise filtering cannot fail, and leaves exactly the window of the elements that satisfy the
      rules as their selectors read name by name. */
  method ApplySubset(fields: FieldGetter, rules: seq<seq<Rule>>, elemType: TypeId, slice: Slice<Value>, offset: nat, length: nat)
      returns (r: Result<(nat, nat), string>)
    requires fields.Valid() && slice.Valid()
    requires WellFormed(fields.types) && elemType in fields.types && !fields.types[elemType].Interface?
    requires forall k :: 0 <= k < slice.len ==> HasType(fields.types, slice.data[k], elemType)
    modifies fields, slice, slice.data
    ensures fields.Valid() && slice.Valid()
    ensures r.Err? <==> !AllCompile(fields.types, fields.maxDepth, elemType, rules)
    ensures r.Err? ==> slice.len == old(slice.len) && slice.data[..] == old(slice.data[..])
    ensures r.Ok? ==>
      var was := old(slice.Elements());
      var matches := Matches(was, ByName(fields.types, elemType, rules));
      && slice.Elements() == Pick(was, Window(matches, offset, length))
      && r.value == (slice.len, |matches|)
  {
    var compiled := CompileRules(fields, rules, elemType);
    if compiled.Err? {
      return Err("invalid filter");
    }
    ghost var was := slice.Elements();
    var eval := Evaluator(fields.types, fields.maxDepth, elemType);
    EveryRuleCompiles(fields.types, fields.maxDepth, elemType, rules, compiled.value);
    forall k | 0 <= k < |was|
      ensures RulesMatcher(compiled.value, eval)(was[k]) == ByName(fields.types, elemType, rules)(was[k])
    {
      CompiledVerdict(fields.types, fields.maxDepth, elemType, rules, compiled.value, was[k]);
    }
    MatchesAgree(was, RulesMatcher(compiled.value, eval), ByName(fields.types, elemType, rules));
    r := FilterByRules(slice, compiled.value, eval, offset, length);
  }

  lemma EveryRuleCompiles(types: Types, maxDepth: nat, t: TypeId, rules: seq<seq<Rule>>, compiled: seq<seq<CompiledRule>>)
    requires t in types && CompiledTo(types, maxDepth, t, rules, compiled)
    ensures AllCompile(types, maxDepth, t, rules)
  {
    forall i, j | 0 <= i < |rules| && 0 <= j < |rules[i]|
      ensures Compiles(types, maxDepth, t, rules[i][j])
    {
      assert GroupCompiledTo(types, maxDepth, t, rules[i], compiled[i]);
    }
  }
}
