/** The life of an acquired MySQL lock as a protocol: the keep-alive goroutine, any number of concurrent
    release calls behind one sync.Once, and lost-lock handlers that may call release themselves. Every
    atomic step of every party interleaves freely. */
module MysqlLock {
  import opened Wrappers

  /** A caller of the release function; KEEPER is the keep-alive goroutine, which calls it from a handler. */
  type Thread = nat
  const KEEPER: Thread := 0

  datatype Query = Freed | NotHeld | Failed
  datatype Outcome = Outcome(query: Query, closeFailed: bool)

  /** Where a thread stands in a call to the release function. */
  datatype Caller =
    | Idle
    | Entered
    | Cancelling
    | AwaitingDone
    | Querying
    | Closing(query: Query)
    | Returned(outcome: Outcome)

  datatype Phase = Instance | PerLock

  /** Where the keep-alive goroutine stands. */
  datatype Keeper =
    | Waiting
    | Pinging
    | Verdict(failed: bool)
    | MustClose(lost: bool)
    | MustNotify
    | Handling(phase: Phase)
    | Exited

  datatype Config = Config(instanceHandler: bool, lostHandler: bool)

  datatype State = State(
    config: Config,
    keeper: Keeper,
    callers: map<Thread, Caller>,
    cancelled: bool,
    doneCloses: nat,
    owner: Option<Thread>,     // the thread the once chose
    result: Option<Outcome>,   // set when the once completes
    releases: nat,
    instanceCalls: nat,
    lostCalls: nat)

  function At(s: State, t: Thread): Caller {
    if t in s.callers then s.callers[t] else Idle
  }

  function Move(s: State, t: Thread, c: Caller): State {
    s.(callers := s.callers[t := c])
  }

  function Initial(config: Config): State {
    State(config, Waiting, map[], false, 0, None, None, 0, 0, 0)
  }

  /** The handler the keep-alive goroutine is running, if the configuration has one for this phase. */
  predicate HandlerRuns(s: State) {
    s.keeper.Handling? && if s.keeper.phase.Instance? then s.config.instanceHandler else s.config.lostHandler
  }

  predicate MidCall(c: Caller) {
    !c.Idle? && !c.Returned?
  }

  function StartPhase(s: State, phase: Phase): State {
    match phase
    case Instance => s.(keeper := Handling(Instance), instanceCalls := s.instanceCalls + if s.config.instanceHandler then 1 else 0)
    case PerLock => s.(keeper := Handling(PerLock), lostCalls := s.lostCalls + if s.config.lostHandler then 1 else 0)
  }

  /** The steps of the keep-alive goroutine. */
  predicate KeeperStep(s: State, s': State) {
    match s.keeper
    case Waiting => s' == s.(keeper := Pinging) || (s.cancelled && s' == s.(keeper := Verdict(false)))
    case Pinging => s' == s.(keeper := Waiting) || s' == s.(keeper := Verdict(true))
    case Verdict(failed) => s' == s.(keeper := MustClose(failed && !s.cancelled))
    case MustClose(lost) => s' == s.(doneCloses := s.doneCloses + 1, keeper := if lost then MustNotify else Exited)
    case MustNotify =>
      s' == if s.config.instanceHandler || s.config.lostHandler then StartPhase(s, Instance) else s.(keeper := Exited)
    case Handling(phase) =>
      && !MidCall(At(s, KEEPER))
      && s' == if phase.Instance? then StartPhase(s, PerLock) else s.(keeper := Exited)
    case Exited => false
  }

  /** The steps of one thread inside the release function; entering it is the caller's choice. */
  predicate CallerStep(s: State, s': State, t: Thread) {
    match At(s, t)
    case Idle => (t == KEEPER ==> HandlerRuns(s)) && s' == Move(s, t, Entered)
    case Returned(_) => (t == KEEPER ==> HandlerRuns(s)) && s' == Move(s, t, Entered)
    case Entered =>
      || (s.result.Some? && s' == Move(s, t, Returned(s.result.value)))
      || (s.owner.None? && s' == Move(s, t, Cancelling).(owner := Some(t)))
    case Cancelling => s' == Move(s, t, AwaitingDone).(cancelled := true)
    case AwaitingDone => s.doneCloses > 0 && s' == Move(s, t, Querying).(releases := s.releases + 1)
    case Querying => exists q :: s' == Move(s, t, Closing(q))
    case Closing(q) =>
      exists f :: s' == Move(s, t, Returned(Outcome(q, f))).(result := Some(Outcome(q, f)))
  }

  ghost predicate Step(s: State, s': State) {
    KeeperStep(s, s') || exists t: Thread :: CallerStep(s, s', t)
  }

  /** A run: any interleaving of steps from a freshly acquired lock. */
  ghost predicate Run(run: seq<State>) {
    run != [] && run[0] == Initial(run[0].config) && Steps(run)
  }

  ghost predicate Steps(run: seq<State>) {
    forall i :: 0 < i < |run| ==> Step(run[i - 1], run[i])
  }

  // ---------------------------------------------------------------- what every step keeps

  predicate InBody(c: Caller) {
    c.Cancelling? || c.AwaitingDone? || c.Querying? || c.Closing?
  }

  predicate DoneClosed(k: Keeper) {
    k.MustNotify? || k.Handling? || k.Exited?
  }

  predicate Notified(k: Keeper) {
    k.Handling? || k.Exited?
  }

  /** Where one thread may be. */
  predicate Role(s: State, t: Thread) {
    && (InBody(At(s, t)) <==> s.owner == Some(t) && s.result.None?)
    && (At(s, t).Returned? ==> s.result == Some(At(s, t).outcome))
  }

  /** How far the owner has come: it waits only after canceling, and has the connection only after done is closed. */
  predicate Progress(s: State) {
    && (s.result.Some? ==> s.owner.Some?)
    && (s.owner.Some? && At(s, s.owner.value).AwaitingDone? ==> s.cancelled)
    && (s.owner.Some? && CallerUses(s, s.owner.value) ==> s.doneCloses > 0)
    && s.releases == (if s.result.Some? || (s.owner.Some? && CallerUses(s, s.owner.value)) then 1 else 0)
  }

  /** What the keep-alive goroutine has done so far. */
  predicate KeeperDid(s: State) {
    && s.doneCloses == (if DoneClosed(s.keeper) then 1 else 0)
    && (MidCall(At(s, KEEPER)) ==> HandlerRuns(s))
    && s.instanceCalls <= (if Notified(s.keeper) then 1 else 0)
    && s.lostCalls <= (if s.keeper == Handling(PerLock) || s.keeper.Exited? then 1 else 0)
  }

  ghost predicate Inv(s: State) {
    (forall t: Thread :: Role(s, t)) && Progress(s) && KeeperDid(s)
  }

  /** Whether a thread is using the lock's connection; the keep-alive goroutine's own use is its ping. */
  predicate CallerUses(s: State, t: Thread) {
    At(s, t).Querying? || At(s, t).Closing?
  }

  lemma KeeperStepKeepsInv(s: State, s': State)
    requires Inv(s) && KeeperStep(s, s')
    ensures Inv(s')
  {
    assert s'.callers == s.callers && s'.owner == s.owner && s'.result == s.result
           && s'.cancelled == s.cancelled && s'.releases == s.releases && s'.config == s.config;
    forall t: Thread
      ensures Role(s', t) && At(s', t) == At(s, t)
    {
      assert Role(s, t);
    }
    assert s'.doneCloses == (if DoneClosed(s'.keeper) then 1 else 0) && s'.doneCloses >= s.doneCloses;
  }

  /** The owner and the result change only in the hands of the thread that takes the step. */
  predicate OnlyTakes(s: State, s': State, t: Thread) {
    && (s'.owner == s.owner || (s.owner.None? && s'.owner == Some(t)))
    && (s'.result == s.result || (s.owner == Some(t) && s.result.None?))
  }

  lemma RolesKept(s: State, s': State, t: Thread)
    requires (forall u: Thread :: Role(s, u)) && OnlyTakes(s, s', t) && Role(s', t)
    requires s'.callers == s.callers[t := At(s', t)]
    ensures forall u: Thread :: Role(s', u)
  {
    forall u: Thread
      ensures Role(s', u)
    {
      if u != t {
        assert At(s', u) == At(s, u);
        assert Role(s, u);
      }
    }
  }

  lemma CallerStepKeepsRoles(s: State, s': State, t: Thread)
    requires (forall u: Thread :: Role(s, u)) && Progress(s) && CallerStep(s, s', t)
    ensures forall u: Thread :: Role(s', u)
    ensures s'.callers == s.callers[t := At(s', t)] && OnlyTakes(s, s', t)
  {
    assert Role(s, t);
    RolesKept(s, s', t);
  }

  lemma CallerStepKeepsInv(s: State, s': State, t: Thread)
    requires Inv(s) && CallerStep(s, s', t)
    ensures Inv(s')
  {
    CallerStepKeepsRoles(s, s', t);
    assert Role(s, t);
    if s.owner.Some? && s.owner != Some(t) {
      assert At(s', s.owner.value) == At(s, s.owner.value);
    }
    if t != KEEPER {
      assert At(s', KEEPER) == At(s, KEEPER);
    }
  }

  lemma StepKeepsInv(s: State, s': State)
    requires Inv(s) && Step(s, s')
    ensures Inv(s')
    ensures s.result.Some? ==> s'.result == s.result
  {
    if KeeperStep(s, s') {
      KeeperStepKeepsInv(s, s');
    } else {
      var t: Thread :| CallerStep(s, s', t);
      CallerStepKeepsInv(s, s', t);
      assert Role(s, t);
    }
  }

  lemma {:induction false} RunKeepsInv(run: seq<State>, i: nat)
    requires Run(run) && i < |run|
    ensures Inv(run[i])
  {
    if i > 0 {
      RunKeepsInv(run, i - 1);
      StepKeepsInv(run[i - 1], run[i]);
    }
  }

  // ---------------------------------------------------------------- safety over every run

  /** At every moment of every run the connection has at most one user, RELEASE_LOCK has been issued at
      most once, the done channel closed at most once, and each lost-lock handler invoked at most once. */
  lemma SafeAtEveryMoment(run: seq<State>, i: nat, t: Thread, u: Thread)
    requires Run(run) && i < |run|
    ensures CallerUses(run[i], t) ==> !run[i].keeper.Pinging?
    ensures CallerUses(run[i], t) && CallerUses(run[i], u) ==> t == u
    ensures run[i].releases <= 1 && run[i].doneCloses <= 1
    ensures run[i].instanceCalls <= 1 && run[i].lostCalls <= 1
    ensures run[i].result.Some? ==> run[i].releases == 1
  {
    RunKeepsInv(run, i);
    assert Role(run[i], t) && Role(run[i], u);
  }

  lemma {:induction false} ResultIsFinal(run: seq<State>, i: nat, j: nat)
    requires Run(run) && i <= j < |run| && run[i].result.Some?
    ensures run[j].result == run[i].result
    decreases j - i
  {
    if i < j {
      RunKeepsInv(run, i);
      StepKeepsInv(run[i], run[i + 1]);
      ResultIsFinal(run, i + 1, j);
    }
  }

  /** Whenever and wherever two release calls return, they return the same result. */
  lemma EveryCallerGetsTheSameResult(run: seq<State>, i: nat, t: Thread, j: nat, u: Thread)
    requires Run(run) && i < |run| && j < |run|
    requires At(run[i], t).Returned? && At(run[j], u).Returned?
    ensures At(run[i], t) == At(run[j], u)
  {
    RunKeepsInv(run, i);
    RunKeepsInv(run, j);
    assert Role(run[i], t) && Role(run[j], u);
    if i <= j {
      ResultIsFinal(run, i, j);
    } else {
      ResultIsFinal(run, j, i);
    }
  }

  /** A lock loss is notified only on a ping failure that preceded any release: the verdict is fixed before
      done is closed, and a release that came first makes the goroutine exit silently. */
  lemma ReleaseBeforeVerdictIsSilent(run: seq<State>, i: nat, j: nat)
    requires Run(run) && i <= j < |run|
    requires run[i].cancelled && (run[i].keeper.Waiting? || run[i].keeper.Pinging? || run[i].keeper.Verdict?)
    ensures !run[j].keeper.MustNotify? && !run[j].keeper.Handling?
    ensures run[j].lostCalls == 0 && run[j].instanceCalls == 0
  {
    RunKeepsInv(run, i);
    SilentStaysSilent(run, i, j);
  }

  predicate Silent(s: State) {
    && s.cancelled && s.lostCalls == 0 && s.instanceCalls == 0
    && !s.keeper.MustNotify? && !s.keeper.Handling? && s.keeper != MustClose(true)
  }

  lemma {:induction false} SilentStaysSilent(run: seq<State>, i: nat, j: nat)
    requires Run(run) && i <= j < |run| && Silent(run[i])
    ensures Silent(run[j])
    decreases j - i
  {
    if i < j {
      SilentStaysSilent(run, i + 1, j);
    }
  }

  // ---------------------------------------------------------------- no deadlock

  /** How far a pending release call is from returning. */
  function Distance(s: State): nat {
    if s.result.Some? then 1
    else if s.owner.None? then 12
    else
      match At(s, s.owner.value)
      case Cancelling => 11
      case AwaitingDone =>
        if s.doneCloses > 0 then 4
        else
          (match s.keeper
           case Pinging => 8
           case Waiting => 7
           case Verdict(_) => 6
           case _ => 5)
      case Querying => 3
      case _ => 2
  }

  predicate StartsPing(s: State, s': State) {
    s.keeper.Waiting? && s'.keeper.Pinging?
  }

  /** The release is under way: a thread was chosen and has no result yet. */
  predicate UnderWay(s: State) {
    s.owner.Some? && s.result.None?
  }

  /** The chosen thread moves, or, while it waits for the keep-alive goroutine to stop, that goroutine does. */
  predicate Productive(s: State, s': State)
    requires UnderWay(s)
  {
    At(s', s.owner.value) != At(s, s.owner.value)
    || (At(s, s.owner.value).AwaitingDone? && s.doneCloses == 0 && s'.keeper != s.keeper && !StartsPing(s, s'))
  }

  /** The next step of the chosen thread, when it can take one. */
  lemma OwnerAdvances(s: State, o: Thread) returns (s': State)
    requires Inv(s) && UnderWay(s) && s.owner == Some(o) && (At(s, o).AwaitingDone? ==> s.doneCloses > 0)
    ensures CallerStep(s, s', o) && At(s', o) != At(s, o) && Distance(s') < Distance(s)
    ensures s'.callers == s.callers[o := At(s', o)] && (At(s', o).Returned? || MidCall(At(s', o)))
  {
    assert Role(s, o);
    match At(s, o) {
      case Cancelling => s' := Move(s, o, AwaitingDone).(cancelled := true);
      case AwaitingDone => s' := Move(s, o, Querying).(releases := s.releases + 1);
      case Querying => s' := Move(s, o, Closing(Freed));
      case Closing(q) => s' := Move(s, o, Returned(Outcome(q, false))).(result := Some(Outcome(q, false)));
    }
  }

  /** The next step of the keep-alive goroutine, while it has not closed done. */
  lemma KeeperAdvances(s: State) returns (s': State)
    requires Inv(s) && UnderWay(s) && At(s, s.owner.value).AwaitingDone? && s.doneCloses == 0
    ensures KeeperStep(s, s') && s'.keeper != s.keeper && !StartsPing(s, s') && Distance(s') < Distance(s)
    ensures s'.callers == s.callers
  {
    match s.keeper {
      case Waiting => s' := s.(keeper := Verdict(false));
      case Pinging => s' := s.(keeper := Verdict(true));
      case Verdict(failed) => s' := s.(keeper := MustClose(failed && !s.cancelled));
      case MustClose(lost) => s' := s.(doneCloses := s.doneCloses + 1, keeper := if lost then MustNotify else Exited);
    }
  }

  /** While a release is under way a productive step is always possible, also when the release function was
      called from a lost-lock handler. */
  lemma ProductiveStepExists(s: State) returns (s': State)
    requires Inv(s) && UnderWay(s)
    ensures Step(s, s') && Inv(s') && Productive(s, s') && Distance(s') < Distance(s)
    ensures forall t :: MidCall(At(s, t)) ==> At(s', t).Returned? || MidCall(At(s', t))
  {
    var o := s.owner.value;
    if At(s, o).AwaitingDone? && s.doneCloses == 0 {
      s' := KeeperAdvances(s);
      assert forall t :: At(s', t) == At(s, t);
    } else {
      s' := OwnerAdvances(s, o);
      assert forall t :: t != o ==> At(s', t) == At(s, t);
      assert CallerStep(s, s', o);
    }
    StepKeepsInv(s, s');
  }

  /** Whatever state the parties are in, some step brings a pending release call closer to returning. */
  lemma PendingCallAdvances(s: State, t: Thread) returns (s': State)
    requires Inv(s) && MidCall(At(s, t))
    ensures Step(s, s') && Inv(s')
    ensures At(s', t).Returned? || (MidCall(At(s', t)) && Distance(s') < Distance(s))
  {
    if UnderWay(s) {
      s' := ProductiveStepExists(s);
    } else {
      assert Role(s, t);
      s' := if s.result.Some? then Move(s, t, Returned(s.result.value)) else Move(s, t, Cancelling).(owner := Some(t));
      assert CallerStep(s, s', t);
      StepKeepsInv(s, s');
    }
  }

  /** Two runs of steps that meet make one. */
  lemma StepsJoin(run: seq<State>, rest: seq<State>)
    requires run != [] && rest != [] && rest[0] == run[|run| - 1] && Steps(run) && Steps(rest)
    ensures Steps(run + rest[1..])
    ensures (run + rest[1..])[|run + rest[1..]| - 1] == rest[|rest| - 1]
  {
    var n, longer := |run|, run + rest[1..];
    forall i | 0 < i < |longer|
      ensures Step(longer[i - 1], longer[i])
    {
      if i >= n {
        assert longer[i - 1] == rest[i - n] && longer[i] == rest[i - n + 1];
        assert Step(rest[i - n + 1 - 1], rest[i - n + 1]);
      }
    }
  }

  /** Every pending release call of every reachable state can be driven to its return. */
  lemma {:induction false} PendingCallCanReturn(s: State, t: Thread) returns (rest: seq<State>)
    requires Inv(s) && MidCall(At(s, t))
    ensures rest != [] && rest[0] == s && At(rest[|rest| - 1], t).Returned?
    ensures Steps(rest)
    decreases Distance(s)
  {
    var s' := PendingCallAdvances(s, t);
    if At(s', t).Returned? {
      rest := [s, s'];
    } else {
      var more := PendingCallCanReturn(s', t);
      StepsJoin([s, s'], more);
      rest := [s, s'] + more[1..];
    }
  }

  /** No run is ever stuck: from wherever it stands, it can continue until a pending release call returns. */
  lemma NoReleaseIsStuck(run: seq<State>, t: Thread) returns (longer: seq<State>)
    requires Run(run) && MidCall(At(run[|run| - 1], t))
    ensures Run(longer) && run <= longer && At(longer[|longer| - 1], t).Returned?
  {
    var n := |run|;
    RunKeepsInv(run, n - 1);
    var rest := PendingCallCanReturn(run[n - 1], t);
    longer := run + rest[1..];
    StepsJoin(run, rest);
  }

  // ---------------------------------------------------------------- how long it can take

  /** Whatever a step's outcome and whoever takes it: a productive step brings the result closer, and only another
      ping, by one, ever moves it away. */
  lemma NothingElseSetsItBack(s: State, s': State)
    requires Inv(s) && Step(s, s') && UnderWay(s)
    ensures Distance(s') <= Distance(s) + if StartsPing(s, s') then 1 else 0
    ensures Productive(s, s') ==> Distance(s') < Distance(s)
  {
    var o := s.owner.value;
    assert Role(s, o);
    if KeeperStep(s, s') {
      KeeperStepDistance(s, s');
    } else {
      var t: Thread :| CallerStep(s, s', t);
      if t == o {
        OwnerStepAdvances(s, s', o);
      } else {
        OtherStepDistance(s, s', t, o);
      }
    }
  }

  lemma KeeperStepDistance(s: State, s': State)
    requires Inv(s) && UnderWay(s) && KeeperStep(s, s')
    ensures Distance(s') <= Distance(s) + if StartsPing(s, s') then 1 else 0
    ensures Productive(s, s') ==> Distance(s') < Distance(s)
  {
    assert s'.callers == s.callers && s'.owner == s.owner && s'.result == s.result;
    assert At(s', s.owner.value) == At(s, s.owner.value);
  }

  lemma OtherStepDistance(s: State, s': State, t: Thread, o: Thread)
    requires Inv(s) && UnderWay(s) && s.owner == Some(o) && t != o && CallerStep(s, s', t)
    ensures Distance(s') == Distance(s) && !Productive(s, s')
  {
    assert Role(s, t);
    assert At(s', o) == At(s, o);
  }

  lemma OwnerStepAdvances(s: State, s': State, o: Thread)
    requires Inv(s) && UnderWay(s) && s.owner == Some(o) && CallerStep(s, s', o) && InBody(At(s, o))
    ensures Distance(s') < Distance(s) && !StartsPing(s, s')
  {
    if At(s, o).Closing? {
      assert s'.result.Some?;
    } else {
      assert s'.owner == s.owner && s'.result == s.result && s'.keeper == s.keeper && s'.doneCloses == s.doneCloses;
    }
  }

  /** How many steps of run[i..j+1] start a ping, and how many are productive. */
  ghost function Pings(run: seq<State>, i: nat, j: nat): nat
    requires i <= j < |run|
    decreases j - i
  {
    if i == j then 0 else (if StartsPing(run[i], run[i + 1]) then 1 else 0) + Pings(run, i + 1, j)
  }

  ghost function ProductiveSteps(run: seq<State>, i: nat, j: nat): nat
    requires i <= j < |run| && forall k :: i <= k < j ==> UnderWay(run[k])
    decreases j - i
  {
    if i == j then 0 else (if Productive(run[i], run[i + 1]) then 1 else 0) + ProductiveSteps(run, i + 1, j)
  }

  lemma {:induction false} DistanceBoundsSteps(run: seq<State>, i: nat, j: nat)
    requires Run(run) && i <= j < |run| && forall k :: i <= k < j ==> UnderWay(run[k])
    ensures Distance(run[j]) + ProductiveSteps(run, i, j) <= Distance(run[i]) + Pings(run, i, j)
    decreases j - i
  {
    if i < j {
      RunKeepsInv(run, i);
      assert Step(run[(i + 1) - 1], run[i + 1]);
      NothingElseSetsItBack(run[i], run[i + 1]);
      DistanceBoundsSteps(run, i + 1, j);
    }
  }

  /** In every run, with every outcome: a release under way sees at most 11 productive steps more than pings
      started meanwhile, so a schedule that keeps running the chosen thread and the keep-alive goroutine, and in
      which pings come to an end, reaches its result. */
  lemma {:induction false} ReleaseIsBounded(run: seq<State>, i: nat, j: nat)
    requires Run(run) && i <= j < |run| && forall k :: i <= k <= j ==> UnderWay(run[k])
    ensures ProductiveSteps(run, i, j) < 11 + Pings(run, i, j)
  {
    DistanceBoundsSteps(run, i, j);
    RunKeepsInv(run, j);
    RunKeepsInv(run, i);
    assert Role(run[i], run[i].owner.value) && Role(run[j], run[j].owner.value);
  }

  /** Once there is a result, the next step of any pending call is its return, with that result. */
  lemma ResultReleasesCallers(s: State, s': State, t: Thread)
    requires Inv(s) && s.result.Some? && MidCall(At(s, t)) && CallerStep(s, s', t)
    ensures At(s', t) == Returned(s.result.value)
  {
    assert Role(s, t);
  }
}
