/** The path cache under concurrent use: any number of goroutines resolve selectors, and each store is three
    atomic steps, reading the count, storing unless present and counting. */
module FieldCache {
  import opened Wrappers
  import opened FilterPaths

  type Thread = nat
  type Key = (TypeId, string)

  datatype Stage =
    | Idle
    | Resolving(key: Key)          // the cache did not have the key
    | Storing(key: Key)            // the count was below the ceiling when it was read
    | Counting(key: Key)           // the key was newly stored
    | Answered(key: Key, path: seq<nat>)

  datatype State = State(stages: map<Thread, Stage>, cache: map<Key, seq<nat>>, count: nat)

  const INITIAL := State(map[], map[], 0)

  function At(s: State, t: Thread): Stage {
    if t in s.stages then s.stages[t] else Idle
  }

  function Move(s: State, t: Thread, stage: Stage): State {
    s.(stages := s.stages[t := stage])
  }

  /** One step of goroutine t; resolving is the pure FieldPath, a resolution that fails stores nothing. */
  predicate ThreadStep(types: Types, ceiling: nat, s: State, s': State, t: Thread, key: Key) {
    match At(s, t)
    case Idle => s' == Begun(s, t, key)
    case Answered(_, _) => s' == Begun(s, t, key)
    case Resolving(k) =>
      (match FieldPath(types, k.0, Split(k.1))
       case Err(_) => s' == Move(s, t, Idle)
       case Ok(path) => s' == if s.count >= ceiling then Move(s, t, Answered(k, path)) else Move(s, t, Storing(k)))
    case Storing(k) =>
      (match FieldPath(types, k.0, Split(k.1))
       case Err(_) => false
       case Ok(path) => s' == if k in s.cache then Move(s, t, Answered(k, path))
                              else Move(s, t, Counting(k)).(cache := s.cache[k := path]))
    case Counting(k) => k in s.cache && s' == Move(s, t, Answered(k, s.cache[k])).(count := s.count + 1)
  }

  /** A resolution begins: a cached path answers at once. */
  function Begun(s: State, t: Thread, key: Key): State {
    Move(s, t, if key in s.cache then Answered(key, s.cache[key]) else Resolving(key))
  }

  ghost predicate Step(types: Types, ceiling: nat, s: State, s': State) {
    exists t: Thread, key: Key :: ThreadStep(types, ceiling, s, s', t, key)
  }

  ghost predicate Run(types: Types, ceiling: nat, run: seq<State>) {
    run != [] && run[0] == INITIAL && forall i :: 0 < i < |run| ==> Step(types, ceiling, run[i - 1], run[i])
  }

  // ---------------------------------------------------------------- who is storing

  /** The goroutines that have stored and not yet counted. */
  function Uncounted(stages: map<Thread, Stage>): set<Thread> {
    set t | t in stages && stages[t].Counting?
  }

  /** The goroutines between reading the count and counting. */
  function Storers(stages: map<Thread, Stage>): set<Thread> {
    set t | t in stages && (stages[t].Storing? || stages[t].Counting?)
  }

  function Unit(b: bool): nat {
    if b then 1 else 0
  }

  lemma MoveCounts(s: State, t: Thread, stage: Stage)
    ensures |Uncounted(s.stages[t := stage])| == |Uncounted(s.stages)| - Unit(At(s, t).Counting?) + Unit(stage.Counting?)
  {
    var was, now := Uncounted(s.stages), Uncounted(s.stages[t := stage]);
    assert now - {t} == was - {t};
    Without(was, t);
    Without(now, t);
  }

  lemma MoveStores(s: State, t: Thread, stage: Stage)
    ensures |Storers(s.stages[t := stage])|
         == |Storers(s.stages)| - Unit(At(s, t).Storing? || At(s, t).Counting?) + Unit(stage.Storing? || stage.Counting?)
  {
    var was, now := Storers(s.stages), Storers(s.stages[t := stage]);
    assert now - {t} == was - {t};
    Without(was, t);
    Without(now, t);
  }

  lemma Without(a: set<Thread>, t: Thread)
    ensures |a| == |a - {t}| + Unit(t in a)
  {
    if t in a { assert a == (a - {t}) + {t}; } else { assert a == a - {t}; }
  }

  // ---------------------------------------------------------------- what every step keeps

  predicate Right(types: Types, key: Key, path: seq<nat>) {
    FieldPath(types, key.0, Split(key.1)) == Ok(path)
  }

  /** Nothing but right answers is cached or given, and only cached keys are to be counted. */
  ghost predicate Exact(types: Types, s: State) {
    && (forall k :: k in s.cache ==> Right(types, k, s.cache[k]))
    && (forall t :: t in s.stages && s.stages[t].Counting? ==> s.stages[t].key in s.cache)
    && (forall t :: t in s.stages && s.stages[t].Answered? ==> Right(types, s.stages[t].key, s.stages[t].path))
  }

  ghost predicate Inv(types: Types, s: State) {
    Exact(types, s) && |s.cache| == s.count + |Uncounted(s.stages)|
  }

  /** What one step changes: its own goroutine's stage, at most one new key with its right path, or the count. */
  lemma StepChanges(types: Types, ceiling: nat, s: State, s': State, t: Thread, key: Key)
    requires Exact(types, s) && ThreadStep(types, ceiling, s, s', t, key)
    ensures t in s'.stages && s'.stages == s.stages[t := s'.stages[t]]
    ensures var was, now := At(s, t), s'.stages[t];
            && (now.Answered? ==> Right(types, now.key, now.path))
            && (now.Counting? ==> was.Storing? && now.key !in s.cache && now.key in s'.cache
                                  && s'.cache == s.cache[now.key := s'.cache[now.key]] && Right(types, now.key, s'.cache[now.key]))
            && (!now.Counting? ==> s'.cache == s.cache)
            && s'.count == s.count + Unit(was.Counting?)
            && (was.Counting? ==> now.Answered?)
            && (now.Storing? ==> was.Resolving? && s.count < ceiling)
  {
  }

  lemma StepKeepsExact(types: Types, ceiling: nat, s: State, s': State, t: Thread, key: Key)
    requires Exact(types, s) && ThreadStep(types, ceiling, s, s', t, key)
    ensures Exact(types, s')
  {
    StepChanges(types, ceiling, s, s', t, key);
  }

  lemma StepKeepsInv(types: Types, ceiling: nat, s: State, s': State)
    requires Inv(types, s) && Step(types, ceiling, s, s')
    ensures Inv(types, s')
  {
    var t: Thread, key: Key :| ThreadStep(types, ceiling, s, s', t, key);
    StepKeepsExact(types, ceiling, s, s', t, key);
    StepKeepsCount(types, ceiling, s, s', t, key);
  }

  lemma StepKeepsCount(types: Types, ceiling: nat, s: State, s': State, t: Thread, key: Key)
    requires Exact(types, s) && ThreadStep(types, ceiling, s, s', t, key) && |s.cache| == s.count + |Uncounted(s.stages)|
    ensures |s'.cache| == s'.count + |Uncounted(s'.stages)|
  {
    StepChanges(types, ceiling, s, s', t, key);
    MoveCounts(s, t, s'.stages[t]);
    if s'.stages[t].Counting? {
      NewKeyCounts(s.cache, s'.stages[t].key, s'.cache[s'.stages[t].key]);
    }
  }

  lemma NewKeyCounts(cache: map<Key, seq<nat>>, k: Key, path: seq<nat>)
    requires k !in cache
    ensures |cache[k := path]| == |cache| + 1
  {
    assert cache[k := path].Keys == cache.Keys + {k};
  }

  lemma {:induction false} RunKeepsInv(types: Types, ceiling: nat, run: seq<State>, i: nat)
    requires Run(types, ceiling, run) && i < |run|
    ensures Inv(types, run[i])
  {
    if i > 0 {
      RunKeepsInv(types, ceiling, run, i - 1);
      StepKeepsInv(types, ceiling, run[i - 1], run[i]);
    }
  }

  /** In every interleaving, with any ceiling, every answer is the one resolution alone would give. */
  lemma {:induction false} AnswersAreExact(types: Types, ceiling: nat, run: seq<State>, i: nat, t: Thread)
    requires Run(types, ceiling, run) && i < |run| && At(run[i], t).Answered?
    ensures var a := At(run[i], t); FieldPath(types, a.key.0, Split(a.key.1)) == Ok(a.path)
  {
    RunKeepsInv(types, ceiling, run, i);
  }

  lemma {:induction false} RoomForStorers(types: Types, ceiling: nat, run: seq<State>, i: nat, n: nat)
    requires Run(types, ceiling, run) && i < |run| && ceiling > 0 && n > 0
    requires forall k :: 0 <= k < |run| ==> |Storers(run[k].stages)| <= n
    ensures run[i].count + |Storers(run[i].stages)| < ceiling + n
  {
    if i == 0 {
      assert Storers(INITIAL.stages) == {};
    } else {
      RoomForStorers(types, ceiling, run, i - 1, n);
      var s, s' := run[i - 1], run[i];
      RunKeepsInv(types, ceiling, run, i - 1);
      assert Step(types, ceiling, s, s');
      var t: Thread, key: Key :| ThreadStep(types, ceiling, s, s', t, key);
      StepChanges(types, ceiling, s, s', t, key);
      MoveStores(s, t, s'.stages[t]);
    }
  }

  /** The cache outgrows its ceiling by at most the number of stores under way at once, less one: not at all when
      stores do not overlap. */
  lemma OvershootIsBounded(types: Types, ceiling: nat, run: seq<State>, i: nat, n: nat)
    requires Run(types, ceiling, run) && i < |run| && ceiling > 0 && n > 0
    requires forall k :: 0 <= k < |run| ==> |Storers(run[k].stages)| <= n
    ensures |run[i].cache| < ceiling + n
  {
    RunKeepsInv(types, ceiling, run, i);
    RoomForStorers(types, ceiling, run, i, n);
    SubsetIsSmaller(Uncounted(run[i].stages), Storers(run[i].stages));
  }

  lemma SubsetIsSmaller(a: set<Thread>, b: set<Thread>)
    requires a <= b
    ensures |a| <= |b|
  {
    assert b == a + (b - a);
  }
}
