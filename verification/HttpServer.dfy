/** The lifecycle of the HTTP server as a protocol: any number of concurrent start and shutdown calls, the
    monitor goroutine and a serve goroutine that may fail, interleaving atomic step by atomic step. */
module HttpServer {
  import opened Wrappers

  type Thread = nat
  const MONITOR: Thread := 0  // the goroutine that waits for a signal, a cancelation or a shutdown
  const SERVER: Thread := 1   // the goroutine that serves

  /** Where a thread stands in StartServerCtx or Shutdown. */
  datatype Call =
    | Idle
    | StartLocking
    | StartHolding
    | SpawningMonitor
    | SpawningServe
    | ServerShutdown      // inside net/http Server.Shutdown
    | AtOnce
    | ClosingDone         // first statement of the once body
    | BodyLocking
    | BodyHolding
    | ShutdownReturned

  datatype Goroutine = NotSpawned | Running | InShutdown | Exited

  datatype State = State(
    calls: map<Thread, Call>,
    monitor: Goroutine,
    serve: Goroutine,
    mutex: Option<Thread>,
    started: bool,
    starter: Option<Thread>, // the thread whose start took effect
    stopped: bool,
    owner: Option<Thread>,   // the thread the once chose
    onceDone: bool,
    doneCloses: nat,
    waitGroup: int,          // this server's contribution
    decrements: nat,
    listenerCloses: nat,     // explicit closes, outside net/http
    spawns: nat,
    published: nat)          // errors delivered on ServeError

  const INITIAL := State(map[], NotSpawned, NotSpawned, None, false, None, false, None, false, 0, 0, 0, 0, 0, 0)

  function At(s: State, t: Thread): Call {
    if t in s.calls then s.calls[t] else Idle
  }

  function Move(s: State, t: Thread, c: Call): State {
    s.(calls := s.calls[t := c])
  }

  predicate Resting(c: Call) {
    c.Idle? || c.ShutdownReturned?
  }

  /** A call begins; the two goroutines enter Shutdown only through their own steps. */
  predicate BeginStep(s: State, s': State, t: Thread) {
    && Resting(At(s, t)) && t != MONITOR && t != SERVER
    && (s' == Move(s, t, StartLocking) || s' == Move(s, t, ServerShutdown))
  }

  /** One step of a thread inside StartServerCtx. */
  predicate StartStep(s: State, s': State, t: Thread) {
    match At(s, t)
    case StartLocking => s.mutex.None? && s' == Move(s, t, StartHolding).(mutex := Some(t))
    case StartHolding =>
      s' == if s.started || s.stopped then Move(s, t, Idle).(mutex := None)
            else Move(s, t, SpawningMonitor).(mutex := None, started := true, starter := Some(t), waitGroup := s.waitGroup + 1)
    case SpawningMonitor => s' == Move(s, t, SpawningServe).(monitor := Running, spawns := s.spawns + 1)
    case SpawningServe => s' == Move(s, t, Idle).(serve := Running)
    case _ => false
  }

  /** One step of a thread inside Shutdown. */
  predicate ShutdownStep(s: State, s': State, t: Thread) {
    match At(s, t)
    case ServerShutdown => s' == Move(s, t, AtOnce)
    case AtOnce =>
      || (s.onceDone && s' == Move(s, t, ShutdownReturned))
      || (s.owner.None? && s' == Move(s, t, ClosingDone).(owner := Some(t)))
    case ClosingDone => s' == Move(s, t, BodyLocking).(doneCloses := s.doneCloses + 1)
    case BodyLocking => s.mutex.None? && s' == Move(s, t, BodyHolding).(mutex := Some(t))
    case BodyHolding =>
      var r := Move(s, t, ShutdownReturned).(mutex := None, stopped := true, onceDone := true);
      s' == if s.started then r.(waitGroup := s.waitGroup - 1, decrements := s.decrements + 1)
            else r.(listenerCloses := s.listenerCloses + 1)
    case _ => false
  }

  /** The monitor: a signal or a canceled context may arrive at any time; a closed done channel releases it. */
  predicate MonitorStep(s: State, s': State) {
    match s.monitor
    case Running =>
      || s' == Move(s, MONITOR, ServerShutdown).(monitor := InShutdown)
      || (s.doneCloses > 0 && s' == s.(monitor := Exited))
    case InShutdown => At(s, MONITOR).ShutdownReturned? && s' == s.(monitor := Exited)
    case _ => false
  }

  /** The serve goroutine: it ends normally once the server was told to shut down, or fails at any time. */
  predicate ServeStep(s: State, s': State) {
    match s.serve
    case Running =>
      || s' == s.(serve := Exited)
      || s' == Move(s, SERVER, ServerShutdown).(serve := InShutdown, published := if s.published == 0 then 1 else s.published)
    case InShutdown => At(s, SERVER).ShutdownReturned? && s' == s.(serve := Exited)
    case _ => false
  }

  ghost predicate Step(s: State, s': State) {
    MonitorStep(s, s') || ServeStep(s, s') || exists t: Thread :: CallStep(s, s', t)
  }

  predicate CallStep(s: State, s': State, t: Thread) {
    BeginStep(s, s', t) || StartStep(s, s', t) || ShutdownStep(s, s', t)
  }

  ghost predicate Steps(run: seq<State>) {
    forall i :: 0 < i < |run| ==> Step(run[i - 1], run[i])
  }

  /** A run: any interleaving of steps from a new server. */
  ghost predicate Run(run: seq<State>) {
    run != [] && run[0] == INITIAL && Steps(run)
  }

  // ---------------------------------------------------------------- what every step keeps

  predicate InBody(c: Call) {
    c.ClosingDone? || c.BodyLocking? || c.BodyHolding?
  }

  predicate Holds(c: Call) {
    c.StartHolding? || c.BodyHolding?
  }

  predicate Spawning(c: Call) {
    c.SpawningMonitor? || c.SpawningServe?
  }

  predicate InShutdownCall(c: Call) {
    !c.Idle? && !c.StartLocking? && !c.StartHolding? && !Spawning(c)
  }

  /** Where one thread may be. */
  predicate Role(s: State, t: Thread) {
    && (InBody(At(s, t)) <==> s.owner == Some(t) && !s.onceDone)
    && (Holds(At(s, t)) <==> s.mutex == Some(t))
    && (At(s, t).ShutdownReturned? ==> s.onceDone)
    && (Spawning(At(s, t)) ==> s.starter == Some(t))
  }

  /** Who may be where. */
  ghost predicate Roles(s: State) {
    (forall t: Thread :: Role(s, t)) && (s.onceDone ==> s.owner.Some?)
  }

  /** What the counters and flags say. */
  ghost predicate Ledger(s: State) {
    && (s.starter.Some? <==> s.started)
    && (s.stopped <==> s.onceDone)
    && s.doneCloses == (if s.onceDone || (s.owner.Some? && !At(s, s.owner.value).ClosingDone?) then 1 else 0)
    && s.waitGroup == (if s.started && !s.onceDone then 1 else 0)
    && s.decrements == (if s.started && s.onceDone then 1 else 0)
    && s.listenerCloses == (if !s.started && s.onceDone then 1 else 0)
    && s.published <= 1
  }

  /** The one start that takes effect spawns the goroutines, which then call only Shutdown. */
  ghost predicate Spawns(s: State) {
    && (s.starter.Some? && At(s, s.starter.value).SpawningMonitor? ==> s.spawns == 0 && s.monitor.NotSpawned? && s.serve.NotSpawned?)
    && (s.starter.Some? && At(s, s.starter.value).SpawningServe? ==> s.serve.NotSpawned?)
    && (!s.started ==> s.spawns == 0 && s.monitor.NotSpawned? && s.serve.NotSpawned?)
    && s.spawns <= 1
    && (At(s, MONITOR).Idle? || InShutdownCall(At(s, MONITOR))) && (At(s, SERVER).Idle? || InShutdownCall(At(s, SERVER)))
    && (!Resting(At(s, MONITOR)) ==> s.monitor.InShutdown?) && (!Resting(At(s, SERVER)) ==> s.serve.InShutdown?)
  }

  ghost predicate Inv(s: State) {
    Roles(s) && Ledger(s) && Spawns(s)
  }

  /** What one thread's step does to the others: nothing. */
  ghost predicate OnlyMoves(s: State, s': State, t: Thread) {
    forall u: Thread {:trigger At(s', u)} :: u != t ==> At(s', u) == At(s, u)
  }

  /** What is shared changes hands only to and from the thread that takes the step. */
  predicate OnlyTakes(s: State, s': State, t: Thread) {
    && (s'.owner == s.owner || (s.owner.None? && s'.owner == Some(t)))
    && (s'.onceDone == s.onceDone || (s.owner == Some(t) && s'.onceDone))
    && (s'.mutex == s.mutex || (s.mutex.None? && s'.mutex == Some(t)) || (s.mutex == Some(t) && s'.mutex.None?))
    && (s'.starter == s.starter || (s.starter.None? && s'.starter == Some(t)))
    && (s'.onceDone ==> s'.owner.Some?)
  }

  lemma OthersKeepRole(s: State, s': State, t: Thread, u: Thread)
    requires Roles(s) && OnlyTakes(s, s', t) && u != t && At(s', u) == At(s, u)
    ensures Role(s', u)
  {
    assert Role(s, u);
  }

  lemma RolesKept(s: State, s': State, t: Thread)
    requires Roles(s) && OnlyMoves(s, s', t) && OnlyTakes(s, s', t) && Role(s', t)
    ensures Roles(s')
  {
    forall u: Thread
      ensures Role(s', u)
    {
      if u != t {
        assert At(s', u) == At(s, u);
        OthersKeepRole(s, s', t, u);
      }
    }
  }

  lemma BeginStepKeepsInv(s: State, s': State, t: Thread)
    requires Inv(s) && BeginStep(s, s', t)
    ensures Inv(s')
  {
    assert Role(s, t);
    assert OnlyMoves(s, s', t);
    RolesKept(s, s', t);
  }

  lemma StartStepKeepsRoles(s: State, s': State, t: Thread)
    requires Roles(s) && Ledger(s) && StartStep(s, s', t)
    ensures Roles(s') && OnlyMoves(s, s', t)
  {
    assert Role(s, t);
    assert OnlyMoves(s, s', t);
    RolesKept(s, s', t);
  }

  lemma StartStepKeepsInv(s: State, s': State, t: Thread)
    requires Inv(s) && StartStep(s, s', t)
    ensures Inv(s')
  {
    StartStepKeepsRoles(s, s', t);
    assert Role(s, t);
  }

  lemma ShutdownStepKeepsRoles(s: State, s': State, t: Thread)
    requires Roles(s) && ShutdownStep(s, s', t)
    ensures Roles(s') && OnlyMoves(s, s', t)
  {
    assert Role(s, t);
    assert OnlyMoves(s, s', t);
    RolesKept(s, s', t);
  }

  /** The body of the once is entered by its owner, and the done channel is closed on its first step. */
  lemma ShutdownStepKeepsLedger(s: State, s': State, t: Thread)
    requires Role(s, t) && Ledger(s) && ShutdownStep(s, s', t) && OnlyMoves(s, s', t)
    ensures Ledger(s')
  {
    if s.owner.Some? && s.owner != Some(t) {
      assert At(s', s.owner.value) == At(s, s.owner.value);
    }
  }

  lemma ShutdownStepKeepsInv(s: State, s': State, t: Thread)
    requires Inv(s) && ShutdownStep(s, s', t)
    ensures Inv(s')
  {
    ShutdownStepKeepsRoles(s, s', t);
    assert Role(s, t);
    ShutdownStepKeepsLedger(s, s', t);
    if s.starter.Some? && s.starter != Some(t) {
      assert At(s', s.starter.value) == At(s, s.starter.value);
    }
  }

  lemma MonitorStepKeepsInv(s: State, s': State)
    requires Inv(s) && MonitorStep(s, s')
    ensures Inv(s')
  {
    assert Role(s, MONITOR);
    assert OnlyMoves(s, s', MONITOR);
    RolesKept(s, s', MONITOR);
  }

  lemma ServeStepKeepsInv(s: State, s': State)
    requires Inv(s) && ServeStep(s, s')
    ensures Inv(s')
  {
    assert Role(s, SERVER);
    assert OnlyMoves(s, s', SERVER);
    RolesKept(s, s', SERVER);
  }

  /** Facts a step never takes back. */
  lemma StepKeepsInv(s: State, s': State)
    requires Inv(s) && Step(s, s')
    ensures Inv(s')
    ensures s.onceDone ==> s'.onceDone && s'.started == s.started
    ensures s.started ==> s'.started
  {
    if MonitorStep(s, s') {
      MonitorStepKeepsInv(s, s');
    } else if ServeStep(s, s') {
      ServeStepKeepsInv(s, s');
    } else {
      var t: Thread :| CallStep(s, s', t);
      if BeginStep(s, s', t) {
        BeginStepKeepsInv(s, s', t);
      } else if StartStep(s, s', t) {
        StartStepKeepsInv(s, s', t);
      } else {
        ShutdownStepKeepsInv(s, s', t);
      }
    }
  }

  lemma {:induction false} RunKeepsInv(run: seq<State>, i: nat)
    requires Run(run) && i < |run|
    ensures Inv(run[i])
  {
    if i > 0 {
      RunKeepsInv(run, i - 1);
      StepKeepsInv(run[i - 1], run[i]);
    }
  }

  // ---------------------------------------------------------------- the wait group over every run

  /** At every moment the server's contribution to the wait group is 0 or 1, it has been decremented at most
      once and only if it was started, and the done channel has been closed, and the goroutines spawned, at most once. */
  lemma WaitGroupStaysBalanced(run: seq<State>, i: nat)
    requires Run(run) && i < |run|
    ensures 0 <= run[i].waitGroup <= 1 && run[i].decrements <= 1 && run[i].doneCloses <= 1
    ensures run[i].waitGroup + run[i].decrements == if run[i].started then 1 else 0
    ensures run[i].listenerCloses <= 1 && (run[i].listenerCloses > 0 ==> !run[i].started)
    ensures run[i].spawns <= 1 && run[i].published <= 1
  {
    RunKeepsInv(run, i);
  }

  lemma {:induction false} DoneIsForever(run: seq<State>, i: nat, j: nat)
    requires Run(run) && i <= j < |run| && run[i].onceDone
    ensures run[j].onceDone && run[j].started == run[i].started
    decreases j - i
  {
    if i < j {
      RunKeepsInv(run, i);
      StepKeepsInv(run[i], run[i + 1]);
      DoneIsForever(run, i + 1, j);
    }
  }

  /** Once any shutdown call has returned, the wait group is released for good: no later start, shutdown or
      serve failure touches it again, and no goroutine can be left waiting on the done channel. */
  lemma ReleasedForever(run: seq<State>, i: nat, j: nat, t: Thread)
    requires Run(run) && i <= j < |run| && At(run[i], t).ShutdownReturned?
    ensures run[j].waitGroup == 0 && run[j].stopped
    ensures run[j].decrements == run[i].decrements && run[j].started == run[i].started
    ensures run[j].monitor.Running? ==> MonitorStep(run[j], run[j].(monitor := Exited))
  {
    RunKeepsInv(run, i);
    assert Role(run[i], t);
    DoneIsForever(run, i, j);
    RunKeepsInv(run, j);
  }

  // ---------------------------------------------------------------- no deadlock

  function Distance(s: State, t: Thread): nat {
    if At(s, t).ServerShutdown? then 10 else OnceDistance(s)
  }

  /** How far the once body is from its end. */
  function OnceDistance(s: State): nat {
    if s.onceDone then 1
    else if s.owner.None? then 9
    else
      match At(s, s.owner.value)
      case ClosingDone => 8
      case BodyLocking => if s.mutex.None? then 3 else 4
      case _ => 2
  }

  /** The next step of the thread in the once body, when it can take one. */
  lemma OwnerAdvances(s: State, u: Thread) returns (s': State)
    requires Inv(s) && UnderWay(s) && s.owner == Some(u) && (At(s, u).BodyLocking? ==> s.mutex.None?)
    ensures CallStep(s, s', u) && At(s', u) != At(s, u) && OnceDistance(s') < OnceDistance(s)
    ensures s'.calls == s.calls[u := At(s', u)] && InShutdownCall(At(s', u))
  {
    assert Role(s, u);
    match At(s, u) {
      case ClosingDone => s' := Move(s, u, BodyLocking).(doneCloses := s.doneCloses + 1);
      case BodyLocking => s' := Move(s, u, BodyHolding).(mutex := Some(u));
      case BodyHolding =>
        var r := Move(s, u, ShutdownReturned).(mutex := None, stopped := true, onceDone := true);
        s' := if s.started then r.(waitGroup := s.waitGroup - 1, decrements := s.decrements + 1)
              else r.(listenerCloses := s.listenerCloses + 1);
    }
    assert ShutdownStep(s, s', u);
  }

  /** A start call that holds the mutex the once body waits for can always let go of it. */
  lemma HolderLetsGo(s: State) returns (s': State)
    requires Inv(s) && UnderWay(s) && At(s, s.owner.value).BodyLocking? && s.mutex.Some?
    ensures CallStep(s, s', s.mutex.value) && s'.mutex.None? && s.mutex != s.owner
    ensures s'.calls == s.calls[s.mutex.value := At(s', s.mutex.value)] && !InShutdownCall(At(s, s.mutex.value))
    ensures s'.owner == s.owner && s'.onceDone == s.onceDone
  {
    var u := s.mutex.value;
    assert Role(s, u) && Role(s, s.owner.value);
    assert At(s, u).StartHolding?;
    s' := if s.started || s.stopped then Move(s, u, Idle).(mutex := None)
          else Move(s, u, SpawningMonitor).(mutex := None, started := true, starter := Some(u), waitGroup := s.waitGroup + 1);
    assert StartStep(s, s', u);
  }

  predicate UnderWay(s: State) {
    s.owner.Some? && !s.onceDone
  }

  /** The thread in the once body moves, or, while it waits for the mutex, its holder lets go. */
  predicate Productive(s: State, s': State)
    requires UnderWay(s)
  {
    At(s', s.owner.value) != At(s, s.owner.value)
    || (At(s, s.owner.value).BodyLocking? && s.mutex.Some? && s'.mutex.None?)
  }

  /** While the once body is under way a productive step is always possible. */
  lemma ProductiveStepExists(s: State) returns (s': State, u: Thread)
    requires Inv(s) && UnderWay(s)
    ensures Step(s, s') && CallStep(s, s', u) && Inv(s') && Productive(s, s') && OnceDistance(s') < OnceDistance(s)
    ensures s'.calls == s.calls[u := At(s', u)] && (InShutdownCall(At(s, u)) ==> InShutdownCall(At(s', u)))
  {
    u := s.owner.value;
    if At(s, u).BodyLocking? && s.mutex.Some? {
      s' := HolderLetsGo(s);
      assert At(s', u) == At(s, u);
      u := s.mutex.value;
    } else {
      s' := OwnerAdvances(s, u);
    }
    assert CallStep(s, s', u);
    StepKeepsInv(s, s');
  }

  /** A pending shutdown call can always be brought closer to returning: neither the once nor the mutex can
      block it for good. */
  lemma PendingShutdownAdvances(s: State, t: Thread) returns (s': State)
    requires Inv(s) && InShutdownCall(At(s, t)) && !At(s, t).ShutdownReturned?
    ensures Step(s, s') && Inv(s')
    ensures InShutdownCall(At(s', t))
    ensures At(s', t).ShutdownReturned? || Distance(s', t) < Distance(s, t)
  {
    assert Role(s, t);
    if !At(s, t).ServerShutdown? && UnderWay(s) {
      var u: Thread;
      s', u := ProductiveStepExists(s);
      assert u != t ==> At(s', t) == At(s, t);
      DistanceAfter(s, s', t, u);
    } else {
      s' := if At(s, t).ServerShutdown? then Move(s, t, AtOnce)
            else if s.onceDone then Move(s, t, ShutdownReturned)
            else Move(s, t, ClosingDone).(owner := Some(t));
      assert CallStep(s, s', t);
      StepKeepsInv(s, s');
    }
  }

  lemma DistanceAfter(s: State, s': State, t: Thread, u: Thread)
    requires Inv(s) && UnderWay(s) && CallStep(s, s', u) && OnceDistance(s') < OnceDistance(s)
    requires InShutdownCall(At(s, t)) && !At(s, t).ServerShutdown? && !At(s, t).ShutdownReturned?
    requires (u != t ==> At(s', t) == At(s, t)) && InShutdownCall(At(s', t))
    ensures At(s', t).ShutdownReturned? || Distance(s', t) < Distance(s, t)
  {
  }

  /** Two runs of steps that meet make one. */
  lemma StepsJoin(run: seq<State>, rest: seq<State>)
    requires run != [] && rest != [] && rest[0] == run[|run| - 1] && Steps(run) && Steps(rest)
    ensures Steps(run + rest[1..])
    ensures (run + rest[1..])[|run + rest[1..]| - 1] == rest[|rest| - 1]
  {
    var n, longer := |run|, run + rest[1..];
    forall i | 0 < i < |longer|
      ensures Step(longer[i - 1], longer[i])
    {
      if i >= n {
        assert longer[i - 1] == rest[i - n] && longer[i] == rest[i - n + 1];
        assert Step(rest[i - n + 1 - 1], rest[i - n + 1]);
      }
    }
  }

  /** Every pending shutdown call of every reachable state can be driven to its return. */
  lemma {:induction false} PendingShutdownCanReturn(s: State, t: Thread) returns (rest: seq<State>)
    requires Inv(s) && InShutdownCall(At(s, t)) && !At(s, t).ShutdownReturned?
    ensures rest != [] && rest[0] == s && At(rest[|rest| - 1], t).ShutdownReturned?
    ensures Steps(rest)
    decreases Distance(s, t)
  {
    var s' := PendingShutdownAdvances(s, t);
    if At(s', t).ShutdownReturned? {
      rest := [s, s'];
    } else {
      var more := PendingShutdownCanReturn(s', t);
      StepsJoin([s, s'], more);
      rest := [s, s'] + more[1..];
    }
  }

  /** No run is ever stuck: from wherever it stands, it can continue until a pending shutdown call returns. */
  lemma NoShutdownIsStuck(run: seq<State>, t: Thread) returns (longer: seq<State>)
    requires Run(run) && InShutdownCall(At(run[|run| - 1], t))
    ensures Run(longer) && run <= longer && At(longer[|longer| - 1], t).ShutdownReturned?
  {
    var n := |run|;
    RunKeepsInv(run, n - 1);
    if At(run[n - 1], t).ShutdownReturned? {
      return run;
    }
    var rest := PendingShutdownCanReturn(run[n - 1], t);
    longer := run + rest[1..];
    StepsJoin(run, rest);
  }

  // ---------------------------------------------------------------- how long it can take

  /** A call other than the one in the once body takes the mutex. */
  predicate Overtakes(s: State, s': State)
    requires UnderWay(s)
  {
    s.mutex.None? && s'.mutex.Some? && s'.mutex != s.owner
  }

  /** Whoever takes a step: a productive one brings the end of the once body closer, and only a call that takes the
      mutex first, by one, ever moves it away. */
  lemma NothingElseSetsItBack(s: State, s': State)
    requires Inv(s) && Step(s, s') && UnderWay(s)
    ensures OnceDistance(s') <= OnceDistance(s) + if Overtakes(s, s') then 1 else 0
    ensures Productive(s, s') ==> OnceDistance(s') < OnceDistance(s)
  {
    var o := s.owner.value;
    assert Role(s, o);
    if MonitorStep(s, s') {
      assert o != MONITOR || s.monitor.InShutdown?;
      assert At(s', o) == At(s, o);
    } else if ServeStep(s, s') {
      assert o != SERVER || s.serve.InShutdown?;
      assert At(s', o) == At(s, o);
    } else {
      var t: Thread :| CallStep(s, s', t);
      if t != o {
        OtherStepKeepsOnce(s, s', t, o);
      }
    }
  }

  lemma OtherStepKeepsOnce(s: State, s': State, t: Thread, o: Thread)
    requires Inv(s) && UnderWay(s) && s.owner == Some(o) && CallStep(s, s', t) && t != o
    ensures At(s', o) == At(s, o) && s'.owner == s.owner && s'.onceDone == s.onceDone
    ensures s'.mutex == s.mutex || (s.mutex.None? && s'.mutex == Some(t)) || (s.mutex.Some? && s'.mutex.None?)
  {
    assert Role(s, t);
  }

  /** How many steps of run[i..j+1] overtake, and how many are productive. */
  ghost function Overtakings(run: seq<State>, i: nat, j: nat): nat
    requires i <= j < |run| && forall k :: i <= k < j ==> UnderWay(run[k])
    decreases j - i
  {
    if i == j then 0 else (if Overtakes(run[i], run[i + 1]) then 1 else 0) + Overtakings(run, i + 1, j)
  }

  ghost function ProductiveSteps(run: seq<State>, i: nat, j: nat): nat
    requires i <= j < |run| && forall k :: i <= k < j ==> UnderWay(run[k])
    decreases j - i
  {
    if i == j then 0 else (if Productive(run[i], run[i + 1]) then 1 else 0) + ProductiveSteps(run, i + 1, j)
  }

  lemma {:induction false} DistanceBoundsSteps(run: seq<State>, i: nat, j: nat)
    requires Run(run) && i <= j < |run| && forall k :: i <= k < j ==> UnderWay(run[k])
    ensures OnceDistance(run[j]) + ProductiveSteps(run, i, j) <= OnceDistance(run[i]) + Overtakings(run, i, j)
    decreases j - i
  {
    if i < j {
      RunKeepsInv(run, i);
      assert Step(run[(i + 1) - 1], run[i + 1]);
      NothingElseSetsItBack(run[i], run[i + 1]);
      DistanceBoundsSteps(run, i + 1, j);
    }
  }

  /** In every run: while the once body is under way there are fewer than 8 productive steps more than calls that
      took the mutex first, so a mutex that does not pass its waiter by for ever lets the shutdown finish. */
  lemma {:induction false} ShutdownIsBounded(run: seq<State>, i: nat, j: nat)
    requires Run(run) && i <= j < |run| && forall k :: i <= k <= j ==> UnderWay(run[k])
    ensures ProductiveSteps(run, i, j) < 8 + Overtakings(run, i, j)
  {
    DistanceBoundsSteps(run, i, j);
    RunKeepsInv(run, i);
    RunKeepsInv(run, j);
    assert Role(run[i], run[i].owner.value) && Role(run[j], run[j].owner.value);
  }

  /** Once the body has ended, a pending shutdown call returns within two steps of its own, whoever else moves. */
  lemma DoneReleasesCallers(s: State, s': State, t: Thread)
    requires Inv(s) && s.onceDone && InShutdownCall(At(s, t)) && !At(s, t).ShutdownReturned? && CallStep(s, s', t)
    ensures At(s', t) == if At(s, t).ServerShutdown? then AtOnce else ShutdownReturned
  {
    assert Role(s, t);
  }
}
