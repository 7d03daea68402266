/** Field selectors: resolving a dotted name on a type to a chain of field indices, caching the result,
    and walking a value along it. */
module FilterPaths {
  import opened Wrappers

  type TypeId = nat

  /** A field as reflection reports it for a name (or tag): its index chain, through any embedded structs. */
  datatype StructField = StructField(index: seq<nat>, exported: bool, fieldType: TypeId)

  datatype TypeDef =
    | Basic
    | Struct(fields: seq<TypeId>, lookup: map<string, StructField>)
    | Pointer(elem: TypeId)
    | Interface

  /** The types of a program; they may refer to one another in cycles. */
  type Types = map<TypeId, TypeDef>

  datatype PathError = FieldNotFound | InvalidFilter

  /** What one pointer indirection makes of a type. */
  function Deref(types: Types, t: TypeId): TypeId {
    if t in types && types[t].Pointer? then types[t].elem else t
  }

  /** The type an index chain leads to, one indirection before every step. */
  function ChainType(types: Types, t: TypeId, index: seq<nat>): Option<TypeId>
    decreases |index|
  {
    if index == [] then Some(t)
    else
      var s := Deref(types, t);
      if s in types && types[s].Struct? && index[0] < |types[s].fields|
      then ChainType(types, types[s].fields[index[0]], index[1..])
      else None
  }

  /** Reflection's own answers are sound: a reported field's chain leads to its reported type. */
  ghost predicate WellFormed(types: Types) {
    forall t, name :: t in types && types[t].Struct? && name in types[t].lookup ==>
      && types[t].lookup[name].index != []
      && ChainType(types, t, types[t].lookup[name].index) == Some(types[t].lookup[name].fieldType)
  }

  // ---------------------------------------------------------------- values

  datatype Value =
    | BasicValue(id: int)
    | StructValue(fields: seq<Value>)
    | NilPointer
    | PointerTo(target: Value)
    | NilInterface
    | Boxed(dynamicType: TypeId, inner: Value)

  ghost predicate HasType(types: Types, v: Value, t: TypeId)
    decreases v
  {
    t in types &&
    match types[t]
    case Basic => v.BasicValue?
    case Struct(fields, _) =>
      v.StructValue? && |v.fields| == |fields| && forall i :: 0 <= i < |fields| ==> HasType(types, v.fields[i], fields[i])
    case Pointer(elem) => v.NilPointer? || (v.PointerTo? && HasType(types, v.target, elem))
    case Interface => v.NilInterface? || (v.Boxed? && HasType(types, v.inner, v.dynamicType))
  }

  /** A walk finds a value, meets a nil pointer, or misuses reflection (a field of a non-struct). */
  datatype Walked = Found(value: Value) | Missing | Panicked

  function Step(v: Value, i: nat): Walked {
    match v
    case NilPointer => Missing
    case PointerTo(StructValue(fields)) => if i < |fields| then Found(fields[i]) else Panicked
    case StructValue(fields) => if i < |fields| then Found(fields[i]) else Panicked
    case _ => Panicked
  }

  function Walk(v: Value, path: seq<nat>): Walked
    decreases |path|
  {
    if path == [] then Found(v)
    else
      match Step(v, path[0])
      case Found(w) => Walk(w, path[1..])
      case other => other
  }

  const MAX_LEAF_INDIRECTIONS := 100

  /** The concrete value behind a leaf's pointers and interfaces; none behind a nil or an overlong chain. */
  function Unwrap(v: Value, hops: nat): Option<Value> {
    if hops == 0 then None
    else
      match v
      case NilPointer => None
      case NilInterface => None
      case PointerTo(target) => Unwrap(target, hops - 1)
      case Boxed(_, inner) => Unwrap(inner, hops - 1)
      case _ => Some(v)
  }

  method UnwrapLeaf(v: Value) returns (leaf: Option<Value>)
    ensures leaf == Unwrap(v, MAX_LEAF_INDIRECTIONS)
  {
    var value := v;
    var hops: nat := MAX_LEAF_INDIRECTIONS;
    while hops > 0
      invariant Unwrap(v, MAX_LEAF_INDIRECTIONS) == Unwrap(value, hops)
      decreases hops
    {
      match value {
        case NilPointer => return None;
        case NilInterface => return None;
        case PointerTo(target) => value := target;
        case Boxed(_, inner) => value := inner;
        case _ => return Some(value);
      }
      hops := hops - 1;
    }
    return None;
  }

  /** What a rule reads: a value (absent for a nil leaf), or nothing because the field is unreachable. */
  datatype Read = Read(leaf: Option<Value>) | Unreachable | ReadPanicked

  function ReadOf(w: Walked): Read {
    match w
    case Found(v) => Read(Unwrap(v, MAX_LEAF_INDIRECTIONS))
    case Missing => Unreachable
    case Panicked => ReadPanicked
  }

  method WalkFieldPath(v: Value, path: seq<nat>) returns (r: Read)
    ensures r == ReadOf(Walk(v, path))
  {
    var value := v;
    for i := 0 to |path|
      invariant Walk(v, path) == Walk(value, path[i..])
    {
      assert path[i..][0] == path[i] && path[i..][1..] == path[i + 1..];
      match Step(value, path[i]) {
        case Found(w) => value := w;
        case Missing => return Unreachable;
        case Panicked => return ReadPanicked;
      }
    }
    var leaf := UnwrapLeaf(value);
    return Read(leaf);
  }

  // ---------------------------------------------------------------- resolution

  function Prepend(head: seq<nat>, r: Result<seq<nat>, PathError>): Result<seq<nat>, PathError> {
    match r
    case Err(e) => Err(e)
    case Ok(rest) => Ok(head + rest)
  }

  lemma PrependLaws(a: seq<nat>, b: seq<nat>, r: Result<seq<nat>, PathError>)
    ensures Prepend([], r) == r
    ensures Prepend(a, Prepend(b, r)) == Prepend(a + b, r)
  {
    if r.Ok? {
      assert [] + r.value == r.value;
      assert a + (b + r.value) == (a + b) + r.value;
    }
  }

  /** Resolves field names one by one against the type, appending each field's index chain. */
  function FieldPath(types: Types, t: TypeId, names: seq<string>): Result<seq<nat>, PathError>
    decreases |names|
  {
    if names == [] then Ok([])
    else
      match FieldOf(types, t, names[0])
      case Err(e) => Err(e)
      case Ok(field) =>
        Prepend(field.index, FieldPath(types, field.fieldType, names[1..]))
  }

  function FieldOf(types: Types, t: TypeId, name: string): Result<StructField, PathError> {
    var s := Deref(types, t);
    if !(s in types && types[s].Struct?) then Err(InvalidFilter)
    else if name !in types[s].lookup then Err(FieldNotFound)
    else if !types[s].lookup[name].exported then Err(InvalidFilter)
    else Ok(types[s].lookup[name])
  }

  method GetFieldPath(types: Types, t: TypeId, fieldNames: seq<string>) returns (r: Result<seq<nat>, PathError>)
    ensures r == FieldPath(types, t, fieldNames)
  {
    var fieldPath: seq<nat> := [];
    var here, names := t, fieldNames;
    PrependLaws([], [], FieldPath(types, t, fieldNames));
    while |names| > 0
      invariant FieldPath(types, t, fieldNames) == Prepend(fieldPath, FieldPath(types, here, names))
      decreases |names|
    {
      match FieldOf(types, here, names[0]) {
        case Err(e) => return Err(e);
        case Ok(field) =>
          PrependLaws(fieldPath, field.index, FieldPath(types, field.fieldType, names[1..]));
          fieldPath := fieldPath + field.index;
          here := field.fieldType;
          names := names[1..];
      }
    }
    assert fieldPath + [] == fieldPath;
    return Ok(fieldPath);
  }

  /** Reading a value name by name: each name's field of the current type, from the current value. */
  function DescendByName(types: Types, v: Value, t: TypeId, names: seq<string>): Walked
    decreases |names|
  {
    if names == [] then Found(v)
    else
      match FieldOf(types, t, names[0])
      case Err(_) => Panicked
      case Ok(field) =>
        match Walk(v, field.index)
        case Found(w) => DescendByName(types, w, field.fieldType, names[1..])
        case other => other
  }

  lemma {:induction false} WalkConcat(v: Value, a: seq<nat>, b: seq<nat>)
    ensures Walk(v, a + b) == match Walk(v, a) case Found(w) => Walk(w, b) case other => other
    decreases |a|
  {
    if a == [] {
      assert a + b == b;
    } else {
      assert (a + b)[0] == a[0] && (a + b)[1..] == a[1..] + b;
      if Step(v, a[0]).Found? {
        WalkConcat(Step(v, a[0]).value, a[1..], b);
      }
    }
  }

  /** A chain that leads somewhere on the type never misuses reflection on a value of that type, and what
      it finds has the type it leads to. */
  lemma {:induction false} ChainIsSafe(types: Types, v: Value, t: TypeId, index: seq<nat>)
    requires HasType(types, v, t) && ChainType(types, t, index).Some?
    ensures !Walk(v, index).Panicked?
    ensures Walk(v, index).Found? ==> HasType(types, Walk(v, index).value, ChainType(types, t, index).value)
    decreases |index|
  {
    if index != [] {
      var s := Deref(types, t);
      if v.PointerTo? { assert HasType(types, v.target, s); }
      if Step(v, index[0]).Found? {
        ChainIsSafe(types, Step(v, index[0]).value, types[s].fields[index[0]], index[1..]);
      }
    }
  }

  /** Fields are looked up after one indirection, which a chain makes by itself. */
  lemma {:induction false} ChainFromPointer(types: Types, t: TypeId, index: seq<nat>)
    requires index != [] && Deref(types, Deref(types, t)) == Deref(types, t)
    ensures ChainType(types, t, index) == ChainType(types, Deref(types, t), index)
  {
  }

  /** A selector that resolves on a type is safe on every value of it: the walk never takes a field of a
      non-struct, and it returns exactly what descending name by name returns. */
  lemma {:induction false} ResolvedPathIsSound(types: Types, v: Value, t: TypeId, names: seq<string>)
    requires WellFormed(types) && HasType(types, v, t) && FieldPath(types, t, names).Ok?
    ensures var path := FieldPath(types, t, names).value;
            !Walk(v, path).Panicked? && Walk(v, path) == DescendByName(types, v, t, names)
    decreases |names|
  {
    if names != [] {
      var s := Deref(types, t);
      var field := FieldOf(types, t, names[0]).value;
      var rest := FieldPath(types, field.fieldType, names[1..]).value;
      assert types[s].Struct? && names[0] in types[s].lookup;
      assert ChainType(types, s, field.index) == Some(field.fieldType);
      WalkConcat(v, field.index, rest);
      ChainFromPointer(types, t, field.index);
      ChainIsSafe(types, v, t, field.index);
      if Walk(v, field.index).Found? {
        ResolvedPathIsSound(types, Walk(v, field.index).value, field.fieldType, names[1..]);
      }
    }
  }

  // ---------------------------------------------------------------- selectors and the path cache

  const SEPARATOR := '.'
  const DEFAULT_MAX_ENTRIES := 16384

  /** The names of a dotted selector; there is always at least one, possibly empty. */
  function Split(selector: string): (names: seq<string>)
    ensures names != []
    decreases |selector|
  {
    if selector == "" then [""]
    else
      var rest := Split(selector[1..]);
      if selector[0] == SEPARATOR then [""] + rest else [[selector[0]] + rest[0]] + rest[1..]
  }

  function CountSeparators(selector: string): nat {
    if selector == "" then 0
    else (if selector[0] == SEPARATOR then 1 else 0) + CountSeparators(selector[1..])
  }

  lemma {:induction false} DepthIsNameCount(selector: string)
    ensures |Split(selector)| == CountSeparators(selector) + 1
    decreases |selector|
  {
    if selector != "" {
      DepthIsNameCount(selector[1..]);
    }
  }

  /** What a selector resolves to, cache or no cache. */
  function Resolved(types: Types, maxDepth: nat, t: TypeId, selector: string): Result<seq<nat>, PathError> {
    if |Split(selector)| > maxDepth then Err(InvalidFilter) else FieldPath(types, t, Split(selector))
  }

  class FieldGetter {
    const types: Types
    const maxDepth: nat
    const maxEntries: nat  // 0 selects the default
    var cache: map<(TypeId, string), seq<nat>>
    var count: nat

    constructor (types: Types, maxDepth: nat, maxEntries: nat)
      ensures Valid() && this.types == types && this.maxDepth == maxDepth && cache == map[]
    {
      this.types, this.maxDepth, this.maxEntries := types, maxDepth, maxEntries;
      cache, count := map[], 0;
    }

    function Ceiling(): nat {
      if maxEntries == 0 then DEFAULT_MAX_ENTRIES else maxEntries
    }

    /** Every cached path is the one resolution would give, and the cache keeps within its ceiling. */
    ghost predicate Valid()
      reads this
    {
      && count == |cache| <= Ceiling()
      && forall k :: k in cache ==> FieldPath(types, k.0, Split(k.1)) == Ok(cache[k])
    }

    method CacheSet(t: TypeId, selector: string, path: seq<nat>)
      requires Valid() && FieldPath(types, t, Split(selector)) == Ok(path)
      modifies this
      ensures Valid()
      ensures cache == if old(count) >= Ceiling() || (t, selector) in old(cache) then old(cache)
                       else old(cache)[(t, selector) := path]
    {
      if count >= Ceiling() {
        return;
      }
      if (t, selector) !in cache {
        cache := cache[(t, selector) := path];
        count := count + 1;
      }
    }

    /** Resolves a selector on a type. The answer never depends on what has been cached before, on whether
        the cache is full, or on whether this selector was resolved already. */
    method ResolvePath(t: TypeId, selector: string) returns (r: Result<seq<nat>, PathError>)
      requires Valid()
      modifies this
      ensures Valid() && r == Resolved(types, maxDepth, t, selector)
      ensures old(cache).Keys <= cache.Keys
    {
      DepthIsNameCount(selector);
      if CountSeparators(selector) + 1 > maxDepth {
        return Err(InvalidFilter);
      }
      if (t, selector) in cache {
        return Ok(cache[(t, selector)]);
      }
      r := GetFieldPath(types, t, Split(selector));
      if r.Ok? {
        CacheSet(t, selector, r.value);
      }
    }

    /** Compiles a rule's selector against the slice's element type. */
    method CompileSelector(elemType: TypeId, selector: string) returns (r: Result<Selector, PathError>)
      requires Valid() && elemType in types
      modifies this
      ensures Valid() && r == Compiled(types, maxDepth, elemType, selector)
    {
      if selector == "" {
        return Ok(WholeElem);
      }
      if types[elemType].Interface? {
        return Ok(Dynamic(selector));
      }
      var path := ResolvePath(elemType, selector);
      match path
      case Err(_) => return Err(InvalidFilter);
      case Ok(p) => return Ok(Fixed(p));
    }

    /** The value a rule reads from an element: by the precompiled path, or, for an interface-typed element,
        by resolving the selector on its concrete type each time. */
    method RuleValue(rule: Selector, elemType: TypeId, elem: Value) returns (r: Result<Read, PathError>)
      requires Valid()
      modifies this
      ensures Valid() && r == RuleRead(types, maxDepth, rule, elemType, elem)
    {
      var value, t := elem, elemType;
      if elem.Boxed? {
        value, t := elem.inner, elem.dynamicType;
      }
      match rule
      case WholeElem => return Ok(Read(if elem.NilInterface? then None else Some(value)));
      case Fixed(path) =>
        var read := WalkFieldPath(value, path);
        return Ok(read);
      case Dynamic(selector) =>
        if elem.NilInterface? {
          return Ok(Unreachable);
        }
        var path := ResolvePath(t, selector);
        match path
        case Err(FieldNotFound) => return Ok(Unreachable);
        case Err(InvalidFilter) => return Err(InvalidFilter);
        case Ok(p) =>
          var read := WalkFieldPath(value, p);
          return Ok(read);
    }
  }

  datatype Selector = WholeElem | Fixed(path: seq<nat>) | Dynamic(selector: string)

  function Compiled(types: Types, maxDepth: nat, elemType: TypeId, selector: string): Result<Selector, PathError>
    requires elemType in types
  {
    if selector == "" then Ok(WholeElem)
    else if types[elemType].Interface? then Ok(Dynamic(selector))
    else
      match Resolved(types, maxDepth, elemType, selector)
      case Err(_) => Err(InvalidFilter)
      case Ok(path) => Ok(Fixed(path))
  }

  /** The value a compiled rule reads. */
  function RuleRead(types: Types, maxDepth: nat, rule: Selector, elemType: TypeId, elem: Value): Result<Read, PathError> {
    var value := if elem.Boxed? then elem.inner else elem;
    var t := if elem.Boxed? then elem.dynamicType else elemType;
    match rule
    case WholeElem => Ok(Read(if elem.NilInterface? then None else Some(value)))
    case Fixed(path) => Ok(ReadOf(Walk(value, path)))
    case Dynamic(selector) =>
      if elem.NilInterface? then Ok(Unreachable)
      else
        match Resolved(types, maxDepth, t, selector)
        case Err(FieldNotFound) => Ok(Unreachable)
        case Err(InvalidFilter) => Err(InvalidFilter)
        case Ok(path) => Ok(ReadOf(Walk(value, path)))
  }

  /** The same object gives the same answer in a slice of its own type and boxed in a slice of interfaces:
      a selector valid on its type reads the same there, safely and by name, and one its type lacks, an
      error when compiled, merely fails to match. */
  lemma {:induction false} BoxedElementsReadAlike(types: Types, maxDepth: nat, t: TypeId, v: Value, boxes: TypeId, selector: string)
    requires WellFormed(types) && HasType(types, v, t) && !types[t].Interface?
    requires boxes in types && types[boxes].Interface? && selector != ""
    ensures var fixed := Compiled(types, maxDepth, t, selector);
            var boxed := RuleRead(types, maxDepth, Dynamic(selector), boxes, Boxed(t, v));
            && Compiled(types, maxDepth, boxes, selector) == Ok(Dynamic(selector))
            && (fixed.Ok? ==>
                  && boxed == RuleRead(types, maxDepth, fixed.value, t, v)
                  && boxed == Ok(ReadOf(DescendByName(types, v, t, Split(selector))))
                  && boxed != Ok(ReadPanicked))
            && (fixed.Err? ==> boxed == Ok(Unreachable) || boxed == Err(InvalidFilter))
            && (fixed.Err? && boxed == Ok(Unreachable) ==> Resolved(types, maxDepth, t, selector) == Err(FieldNotFound))
  {
    if Compiled(types, maxDepth, t, selector).Ok? {
      ResolvedPathIsSound(types, v, t, Split(selector));
    }
  }
}
