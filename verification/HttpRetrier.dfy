/** The retrier of pkg/httpretrier: bounded attempts, and every response either handed over open or closed once. */
module HttpRetrier {
  import opened Wrappers

  const SECOND: int := 1_000_000_000
  const MAX_INT64: int := 0x7FFF_FFFF_FFFF_FFFF

  /** What the Retry-After header holds: nothing usable, a number of seconds, or a moment `after` from now. */
  datatype RetryAfter = Unusable | Seconds(secs: int) | Moment(after: int)

  /** A response's identity is the attempt that obtained it. */
  datatype Response = Response(id: nat, hasBody: bool, retryAfter: RetryAfter)

  /** Everything the outside decides about one attempt. */
  datatype Round = Round(
    endsWhileWaiting: bool, // the context ends before this attempt's timer fires
    takesEnd: bool,         // the choice of select when both of its channels are ready
    reopens: bool,          // GetBody succeeds
    replies: bool,          // the client returns a response ...
    hasBody: bool,
    retryAfter: RetryAfter,
    fails: bool,            // ... and, conforming or not, an error
    wantsRetry: bool,       // the verdict of the retry policy
    closes: bool,           // Body.Close succeeds
    endsDuring: bool,       // the context ends before the next attempt is scheduled
    backoff: nat,           // the next delay of the exponential schedule
    random: nat             // the random number jitter adds
  )

  datatype Error =
    | ClientError(id: nat)
    | EndedBeforeFirst
    | ContextEnded
    | ReopenFailed
    | CloseFailed
    | BodyNotReplayable

  datatype Retrier = Retrier(attempts: nat, respectRetryAfter: bool, maxRetryAfter: int, jitter: int)
  {
    /** What the options admit. */
    predicate Valid() {
      attempts >= 1 && 1 <= maxRetryAfter <= MAX_INT64
    }
  }

  datatype Request = Request(hasGetBody: bool, hasBody: bool)

  /** One reported retry: the attempt that failed and the wait before the next. */
  datatype Report = Report(attempt: nat, delay: int)

  // ----- delays -------------------------------------------------------------

  /** Two's-complement wrap-around of a 64-bit product. */
  function Wrap64(x: int): int {
    (x + MAX_INT64 + 1) % (2 * (MAX_INT64 + 1)) - (MAX_INT64 + 1)
  }

  function RetryAfterDelay(h: RetryAfter, maxRA: int): Option<int> {
    match h
    case Unusable => None
    case Seconds(secs) =>
      if secs <= 0 then None
      else if secs > maxRA / SECOND then Some(maxRA)
      else Some(Wrap64(secs * SECOND))
    case Moment(after) =>
      if after <= 0 then None
      else if after > maxRA then Some(maxRA)
      else Some(after)
  }

  /** The delay the server named, in nanoseconds and without any bound. */
  function Asked(h: RetryAfter): int {
    match h
    case Unusable => 0
    case Seconds(secs) => secs * SECOND
    case Moment(after) => after
  }

  /** The delay is what the server asked for, cut at the cap; the 64-bit product never wraps. */
  lemma DelayIsCappedRequest(h: RetryAfter, maxRA: int)
    requires 1 <= maxRA <= MAX_INT64
    ensures RetryAfterDelay(h, maxRA) == if Asked(h) <= 0 then None else Some(Min(Asked(h), maxRA))
  {
    if h.Seconds? && h.secs > 0 {
      var q := maxRA / SECOND;
      assert q * SECOND <= maxRA < (q + 1) * SECOND;
      if h.secs <= q {
        assert 0 < h.secs * SECOND <= maxRA;
      } else {
        assert h.secs * SECOND >= (q + 1) * SECOND;
      }
    }
  }

  /** base plus a random part below ceil, stopping at the largest duration. */
  function AddJitter(base: int, ceil: int, random: nat): (d: int)
    requires base <= MAX_INT64
    ensures base <= d <= MAX_INT64
  {
    if ceil <= 0 then base else Min(base + random % ceil, MAX_INT64)
  }

  // ----- one call of Do, as its surroundings determine it --------------------

  /** The configuration, the request and the outcome of everything outside the retrier. */
  datatype Exchange = Exchange(c: Retrier, r: Request, endedAtStart: bool, rounds: nat -> Round)
  {
    /** The context is over when attempt k's select runs. */
    predicate EndedAt(k: nat)
      decreases k, 1
    {
      Unarmed(k) || rounds(k).endsWhileWaiting
    }

    /** The context was over when attempt k was to be scheduled, so its timer was never set. */
    predicate Unarmed(k: nat)
      decreases k, 0
    {
      if k == 0 then endedAtStart else EndedAt(k - 1) || rounds(k - 1).endsDuring
    }

    predicate StopsAt(k: nat) {
      Unarmed(k) || (EndedAt(k) && rounds(k).takesEnd)
    }

    /** Attempt k calls the client, given that its turn comes. */
    predicate Calls(k: nat) {
      !StopsAt(k) && (k == 0 || !r.hasGetBody || rounds(k).reopens)
    }

    /** After calling the client, attempt k leaves the rest to the next one. */
    predicate GoesOn(k: nat) {
      k + 1 < c.attempts && rounds(k).wantsRetry
      && (rounds(k).replies && rounds(k).hasBody ==> rounds(k).closes)
      && (r.hasBody ==> r.hasGetBody)
    }

    /** The run makes exactly n client calls. */
    ghost predicate Makes(n: nat) {
      (forall k :: 0 <= k < n ==> Calls(k))
      && (forall k :: 0 <= k < n - 1 ==> GoesOn(k))
      && (n == 0 || GoesOn(n - 1) ==> !Calls(n))
    }

    function ReplyOf(k: nat): (reply: Option<Response>)
      ensures reply.Some? ==> reply.value.id == k
    {
      if rounds(k).replies then Some(Response(k, rounds(k).hasBody, rounds(k).retryAfter)) else None
    }

    /** Attempt k obtained a response that someone must close. */
    predicate Obtains(k: nat) {
      rounds(k).replies && rounds(k).hasBody
    }

    /** What a run of n client calls returns. */
    function Verdict(n: nat): (Option<Response>, Option<Error>) {
      if n == 0 then (None, Some(if endedAtStart then EndedBeforeFirst else ContextEnded))
      else
        var k := n - 1;
        if n == c.attempts || !rounds(k).wantsRetry then
          if rounds(k).fails then (None, Some(ClientError(k))) else (ReplyOf(k), None)
        else if Obtains(k) && !rounds(k).closes then (None, Some(CloseFailed))
        else if r.hasBody && !r.hasGetBody then (None, Some(BodyNotReplayable))
        else if StopsAt(n) then (None, Some(ContextEnded))
        else (None, Some(ReopenFailed))
    }

    /** The client behaves as its interface demands: a response or an error, never both, never neither. */
    ghost predicate Conforming() {
      forall k: nat :: rounds(k).replies != rounds(k).fails
    }

    /** The wait reported after attempt k: the backoff, or a longer one the server asked for, jitter on top. */
    function Delay(k: nat): int
      requires c.Valid()
    {
      var o := rounds(k);
      var asked := Min(Asked(o.retryAfter), c.maxRetryAfter);
      if c.respectRetryAfter && o.replies && asked > o.backoff
      then AddJitter(asked, c.jitter, o.random)
      else o.backoff
    }
  }

  lemma StopsNoSooner(x: Exchange, n: nat, m: nat)
    requires x.Makes(n) && m < n
    ensures !x.Makes(m)
  {
    assert x.Calls(m);
    if m > 0 { assert x.GoesOn(m - 1); }
  }

  /** The number of client calls is determined, and never above the configured attempts. */
  lemma CallsAreDetermined(x: Exchange, n: nat, m: nat)
    requires x.c.Valid() && x.Makes(n) && x.Makes(m)
    ensures n == m && n <= x.c.attempts
  {
    if n < m { StopsNoSooner(x, m, n); }
    if m < n { StopsNoSooner(x, n, m); }
    if n > 1 { assert x.GoesOn(n - 2); }
  }

  /** Once the context is over, at most the attempt whose timer fired at that moment still runs, and
      a context over before the first attempt lets none run. */
  lemma {:induction false} EndAllowsOneMoreCall(x: Exchange, n: nat, k: nat)
    requires x.Makes(n) && k < n
    ensures !x.Unarmed(k) && (x.EndedAt(k) ==> k == n - 1)
  {
    assert x.Calls(k);
    if k < n - 1 { assert x.Calls(k + 1); }
  }

  /** An error never comes with a response, whatever the client does; neither comes back exactly when the run
      ends on a client that gave neither, so a conforming client makes it exactly one of the two. */
  lemma OneOrTheOther(x: Exchange, n: nat)
    ensures x.Verdict(n).1.Some? ==> x.Verdict(n).0.None?
    ensures x.Verdict(n) == (None, None) <==>
            n > 0 && (n == x.c.attempts || !x.rounds(n - 1).wantsRetry) && !x.rounds(n - 1).replies && !x.rounds(n - 1).fails
    ensures x.Conforming() ==> (x.Verdict(n).0.None? <==> x.Verdict(n).1.Some?)
  {
    if n > 0 && x.Conforming() { assert x.rounds(n - 1).replies != x.rounds(n - 1).fails; }
  }

  /** A request without a body is never refused a retry, and one with a body only for want of GetBody. */
  lemma RefusedReplay(x: Exchange, n: nat)
    requires x.c.Valid() && x.Makes(n)
    ensures x.Verdict(n).1 == Some(BodyNotReplayable)
            ==> n == 1 && x.r.hasBody && !x.r.hasGetBody
    ensures x.Verdict(n).1 == Some(ReopenFailed) ==> 1 <= n < x.c.attempts && x.r.hasGetBody && !x.rounds(n).reopens
  {
    if n > 1 { assert x.GoesOn(n - 2); assert x.GoesOn(0); }
    if n > 0 && x.Verdict(n).1 == Some(ReopenFailed) {
      CallsAreDetermined(x, n, n);
      assert x.GoesOn(n - 1);
      assert !x.Calls(n);
    }
  }

  // ----- the state of one call ------------------------------------------------

  class DoState {
    const x: Exchange
    var doResponse: Option<Response>
    var doError: Option<Error>
    var remainingAttempts: nat
    var armed: bool
    var ended: bool
    // What the outside saw: client calls, reopened request bodies, closed response bodies, reported retries.
    ghost var calls: nat
    ghost var reopened: nat
    ghost var closed: multiset<nat>
    ghost var reports: seq<Report>

    constructor (x: Exchange)
      requires x.c.Valid()
      ensures this.x == x && remainingAttempts == x.c.attempts && armed && !ended
      ensures doResponse == None && doError == None
      ensures calls == 0 && reopened == 0 && closed == multiset{} && reports == []
    {
      this.x := x;
      doResponse, doError := None, None;
      remainingAttempts := x.c.attempts;
      armed, ended := true, false;
      calls, reopened, closed, reports := 0, 0, multiset{}, [];
    }

    /** Every response obtained so far is closed once, except the one named, which is open. */
    ghost predicate ClosedBut(open: Option<Response>)
      reads `calls, `closed
    {
      forall k: nat :: closed[k] == if k < calls && x.Obtains(k) && !(open.Some? && open.value.id == k) then 1 else 0
    }

    /** Retries are reported in order, once each, with the wait the schedule and the server call for. */
    ghost predicate Reported()
      requires x.c.Valid()
      reads `reports
    {
      forall j :: 0 <= j < |reports| ==> reports[j] == Report(j + 1, x.Delay(j))
    }

    /** All earlier attempts made their call and went on, and what they obtained is closed. */
    ghost predicate Progress()
      reads this
    {
      x.c.Valid()
      && calls <= x.c.attempts && remainingAttempts == x.c.attempts - calls
      && (forall k :: 0 <= k < calls ==> x.Calls(k))
      && (forall k :: 0 <= k < calls - 1 ==> x.GoesOn(k))
      && Reported()
    }

    /** Every request body reopened so far went out with a client call. */
    ghost predicate BodiesSent()
      reads `reopened, `calls
    {
      reopened == if x.r.hasGetBody && calls > 0 then calls - 1 else 0
    }

    /** Where the loop of Do stands before each select: the timer is set unless the context is over,
        so the select can always proceed. */
    ghost predicate Waiting()
      reads this
    {
      Progress() && remainingAttempts > 0 && ClosedBut(None) && BodiesSent()
      && (calls > 0 ==> x.GoesOn(calls - 1))
      && ended == x.Unarmed(calls) && armed == !ended
      && |reports| == (if armed || calls == 0 then calls else calls - 1)
    }

    /** The client has just answered. */
    ghost predicate Answered()
      reads this
    {
      Progress() && calls > 0 && ClosedBut(doResponse)
      && doResponse == x.ReplyOf(calls - 1)
      && doError == if x.rounds(calls - 1).fails then Some(ClientError(calls - 1)) else None
    }

    /** The run is over and its verdict is in the fields. */
    ghost predicate Finished()
      reads this
    {
      Progress() && x.Makes(calls) && ClosedBut(doResponse) && BodiesSent()
      && (doResponse, doError) == x.Verdict(calls)
      && calls - 1 <= |reports| <= calls
    }

    /** Closes the body of the current response. */
    method CloseBody() returns (ok: bool)
      requires doResponse.Some? && doResponse.value.hasBody
      modifies `closed
      ensures closed == old(closed)[doResponse.value.id := old(closed)[doResponse.value.id] + 1]
      ensures ok == x.rounds(doResponse.value.id).closes
    {
      closed := closed[doResponse.value.id := closed[doResponse.value.id] + 1];
      ok := x.rounds(doResponse.value.id).closes;
    }

    /** Recreates the request body just before a retry; the first attempt and a request without GetBody need none. */
    method ReopenBodyForRetry() returns (ok: bool)
      requires remainingAttempts == x.c.attempts - calls
      modifies `doResponse, `doError, `reopened
      ensures ok == (calls == 0 || !x.r.hasGetBody || x.rounds(calls).reopens)
      ensures reopened == old(reopened) + if ok && x.r.hasGetBody && calls > 0 then 1 else 0
      ensures ok ==> doResponse == old(doResponse) && doError == old(doError)
      ensures !ok ==> doResponse == None && doError == Some(ReopenFailed)
    {
      if remainingAttempts == x.c.attempts || !x.r.hasGetBody {
        return true;
      }
      if !x.rounds(x.c.attempts - remainingAttempts).reopens {
        doResponse := None;
        doError := Some(ReopenFailed);
        return false;
      }
      reopened := reopened + 1;
      return true;
    }

    /** The client's answer to the next attempt, which uses it up. */
    method CallClient()
      requires Progress() && remainingAttempts > 0 && ClosedBut(None)
      requires calls > 0 ==> x.GoesOn(calls - 1)
      requires x.Calls(calls)
      modifies `doResponse, `doError, `calls, `remainingAttempts
      ensures calls == old(calls) + 1 && remainingAttempts == old(remainingAttempts) - 1
      ensures Answered()
    {
      var k := x.c.attempts - remainingAttempts;
      doResponse := x.ReplyOf(k);
      doError := if x.rounds(k).fails then Some(ClientError(k)) else None;
      calls := calls + 1;
      remainingAttempts := remainingAttempts - 1;
    }

    /** Closes and clears the response that came with an error. */
    method DropResponse()
      requires calls > 0 && doResponse == x.ReplyOf(calls - 1)
      requires ClosedBut(doResponse)
      modifies `doResponse, `closed
      ensures doResponse == None && ClosedBut(None)
    {
      if doResponse.Some? && doResponse.value.hasBody {
        var _ := CloseBody();
      }
      doResponse := None;
    }

    /** Closes the response of the attempt just made and checks that the request body can be sent again. */
    method CloseAndCheckReplay() returns (ok: bool)
      requires calls > 0 && doResponse == x.ReplyOf(calls - 1)
      requires ClosedBut(doResponse)
      modifies `doResponse, `doError, `closed
      ensures ClosedBut(None)
      ensures ok == ((x.Obtains(calls - 1) ==> x.rounds(calls - 1).closes) && (x.r.hasBody ==> x.r.hasGetBody))
      ensures ok ==> doResponse == old(doResponse) && doError == old(doError)
      ensures !ok ==> doResponse == None
                      && doError == Some(if x.Obtains(calls - 1) && !x.rounds(calls - 1).closes
                                         then CloseFailed else BodyNotReplayable)
    {
      if doResponse.Some? && doResponse.value.hasBody {
        var closed := CloseBody();
        if !closed {
          doResponse := None;
          doError := Some(CloseFailed);
          return false;
        }
      }
      if !x.r.hasGetBody && x.r.hasBody {
        doResponse := None;
        doError := Some(BodyNotReplayable);
        return false;
      }
      return true;
    }

    /** Reports the retry and sets the timer, unless the context ended during the attempt. */
    method ScheduleRetry()
      requires x.c.Valid() && calls > 0 && remainingAttempts == x.c.attempts - calls
      requires doResponse == x.ReplyOf(calls - 1) && ended == x.EndedAt(calls - 1)
      modifies `ended, `armed, `reports
      ensures ended == x.Unarmed(calls)
      ensures armed == if ended then old(armed) else true
      ensures reports == old(reports) + if ended then [] else [Report(calls, x.Delay(calls - 1))]
    {
      var k := x.c.attempts - remainingAttempts - 1;
      ended := ended || x.rounds(k).endsDuring;
      if ended {
        return;
      }
      var delay: int := x.rounds(k).backoff;
      if x.c.respectRetryAfter && doResponse.Some? {
        DelayIsCappedRequest(doResponse.value.retryAfter, x.c.maxRetryAfter);
        var ra := RetryAfterDelay(doResponse.value.retryAfter, x.c.maxRetryAfter);
        if ra.Some? && ra.value > delay {
          delay := AddJitter(ra.value, x.c.jitter, x.rounds(k).random);
        }
      }
      reports := reports + [Report(x.c.attempts - remainingAttempts, delay)];
      armed := true;
    }

    /** Closes what is left to close and tells whether another attempt is to follow. */
    method Settle() returns (done: bool)
      requires Answered()
      modifies `doResponse, `doError, `closed
      ensures done == !x.GoesOn(calls - 1)
      ensures done ==> ClosedBut(doResponse) && (doResponse, doError) == x.Verdict(calls)
      ensures !done ==> ClosedBut(None) && doResponse == x.ReplyOf(calls - 1)
    {
      if remainingAttempts == 0 || !x.rounds(x.c.attempts - remainingAttempts - 1).wantsRetry {
        if doError.Some? {
          DropResponse();
        }
        return true;
      }
      var replayable := CloseAndCheckReplay();
      return !replayable;
    }

    /** The timer of the next attempt has fired. */
    ghost predicate Fired()
      reads this
    {
      Progress() && remainingAttempts > 0 && ClosedBut(None) && BodiesSent()
      && (calls > 0 ==> x.GoesOn(calls - 1))
      && !x.StopsAt(calls) && ended == x.EndedAt(calls) && !armed && |reports| == calls
    }

    /** Waits for the timer or the end of the context; with both there, either may be taken. */
    method Select() returns (fired: bool)
      requires Waiting() && !x.endedAtStart
      modifies `ended, `armed
      ensures fired ==> Fired()
      ensures !fired ==> Progress() && ClosedBut(None) && BodiesSent() && calls - 1 <= |reports| <= calls
      ensures !fired ==> x.Makes(calls) && x.Verdict(calls) == (None, Some(ContextEnded))
    {
      var k := x.c.attempts - remainingAttempts;
      ended := ended || x.rounds(k).endsWhileWaiting;
      fired := !(ended && (!armed || x.rounds(k).takesEnd));
      if fired {
        armed := false;
      }
    }

    /** Sends the request, its body reopened where needed. */
    method Send() returns (sent: bool)
      requires Fired()
      modifies this
      ensures !sent ==> Finished()
      ensures sent ==> Answered() && BodiesSent() && calls == old(calls) + 1
      ensures unchanged(`ended, `armed, `reports)
    {
      sent := ReopenBodyForRetry();
      if sent {
        CallClient();
      }
    }

    /** Settles the answer and, if another attempt is to follow, schedules it. */
    method Conclude() returns (done: bool)
      requires Answered() && BodiesSent()
      requires ended == x.EndedAt(calls - 1) && !armed && |reports| == calls - 1
      modifies this
      ensures done ==> Finished()
      ensures !done ==> Waiting() && calls == old(calls)
    {
      done := Settle();
      if !done {
        ScheduleRetry();
      }
    }

    /** One attempt, once its timer has fired. */
    method Run() returns (done: bool)
      requires Fired()
      modifies this
      ensures done ==> Finished()
      ensures !done ==> Waiting() && calls == old(calls) + 1
    {
      var sent := Send();
      if !sent {
        return true;
      }
      done := Conclude();
    }
  }

  /** Executes the request: the run makes exactly the client calls its surroundings determine and returns their
      verdict; every response obtained is closed once or returned open; no reopened request body is left unsent. */
  method Do(x: Exchange) returns (response: Option<Response>, error: Option<Error>, ghost s: DoState)
    requires x.c.Valid()
    ensures fresh(s) && s.x == x
    ensures x.Makes(s.calls) && (response, error) == x.Verdict(s.calls)
    ensures error.Some? ==> response.None?
    ensures x.Conforming() ==> (response.None? <==> error.Some?)
    ensures s.calls <= x.c.attempts
    ensures forall k: nat :: s.closed[k] == if k < s.calls && x.Obtains(k) && !(response.Some? && response.value.id == k) then 1 else 0
    ensures s.reopened == if x.r.hasGetBody && s.calls > 0 then s.calls - 1 else 0
    ensures s.calls - 1 <= |s.reports| <= s.calls
            && forall j :: 0 <= j < |s.reports| ==> s.reports[j] == Report(j + 1, x.Delay(j))
  {
    var state := new DoState(x);
    s := state;
    if x.endedAtStart {
      assert !x.Calls(0);
      return None, Some(EndedBeforeFirst), s;
    }
    while true
      invariant state.x == x && fresh(state) && s == state
      invariant state.Waiting()
      decreases state.remainingAttempts
    {
      var fired := state.Select();
      if !fired {
        return None, Some(ContextEnded), s;
      }
      var done := state.Run();
      if done {
        return state.doResponse, state.doError, s;
      }
    }
  }
}
