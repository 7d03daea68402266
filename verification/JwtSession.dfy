/** Token sessions: what a login and any chain of renewals may issue, and when an issued token is
    accepted. Times are nanoseconds since the Unix epoch; tokens carry whole seconds. */
module JwtSession {
  import opened Wrappers

  const SECOND := 1_000_000_000
  const MAX_NUMERIC_DATE := 0x20_0000_0000_0000  // 2^53 seconds

  datatype Config = Config(expiration: int, renewTime: int, maxSession: int, leeway: int)

  datatype Claims = Claims(exp: Option<int>, iat: Option<int>, nbf: Option<int>, authTime: Option<int>)

  /** The configurations the constructor accepts. */
  predicate ValidConfig(c: Config) {
    && c.expiration >= SECOND && c.renewTime > 0
    && (c.maxSession == 0 || c.maxSession >= SECOND) && c.leeway >= 0
  }

  function Floor(t: int): int {
    (t / SECOND) * SECOND
  }

  predicate Encodable(t: Option<int>) {
    t.Some? ==> 0 <= t.value / SECOND <= MAX_NUMERIC_DATE
  }

  function Truncate(t: Option<int>): Option<int> {
    match t
    case None => None
    case Some(x) => Some(Floor(x))
  }

  /** What a signed token carries: every time truncated to whole seconds. A time that cannot be encoded
      makes signing fail. */
  function Sign(c: Claims): Option<Claims> {
    if Encodable(c.exp) && Encodable(c.iat) && Encodable(c.nbf) && Encodable(c.authTime)
    then Some(Claims(Truncate(c.exp), Truncate(c.iat), Truncate(c.nbf), Truncate(c.authTime)))
    else None
  }

  function NewClaims(c: Config, now: int, authTime: Option<int>): Claims {
    var auth := if authTime.Some? then authTime.value else now;
    var exp := now + c.expiration;
    var hard := auth + c.maxSession;
    Claims(Some(if c.maxSession > 0 && hard < exp then hard else exp), Some(now), Some(now), Some(auth))
  }

  datatype Verdict = Accepted | MissingExpiration | Expired | NotYetValid

  function Validate(c: Config, now: int, claims: Claims): Verdict {
    if claims.exp.None? then MissingExpiration
    else if !(now < claims.exp.value + c.leeway) then Expired
    else if claims.nbf.Some? && now + c.leeway < claims.nbf.value then NotYetValid
    else Accepted
  }

  predicate ExpiredOnIssue(c: Config, now: int, exp: Option<int>) {
    exp.Some? && !(now < Floor(exp.value) + c.leeway)
  }

  datatype Response = Unauthorized | TooEarly | SessionExpired | SigningFailed | Issued(token: Claims)

  function SendToken(claims: Claims): Response {
    match Sign(claims)
    case None => SigningFailed
    case Some(token) => Issued(token)
  }

  function LoginResponse(c: Config, now: int): Response {
    SendToken(NewClaims(c, now, None))
  }

  /** The successive readings of the clock during one renewal. */
  datatype Clock = Clock(check: int, until: int, since: int, mint: int, issue: int)

  /** The decision sequence of a renewal. */
  function RenewResponse(c: Config, presented: Claims, clock: Clock): Response {
    if !Validate(c, clock.check, presented).Accepted? then Unauthorized
    else if presented.exp.value - clock.until > c.renewTime then TooEarly
    else
      var start := if presented.authTime.Some? then presented.authTime else presented.iat;
      if c.maxSession > 0 && (start.None? || clock.since - start.value > c.maxSession) then SessionExpired
      else
        var renewed := NewClaims(c, clock.mint, start);
        if ExpiredOnIssue(c, clock.issue, renewed.exp) then SessionExpired else SendToken(renewed)
  }

  /** How a token came about: a login, or the renewal of an earlier token of the session. */
  datatype History = Login(now: int) | Renewal(from: History, clock: Clock)

  /** The response at the end of a history. */
  function Outcome(c: Config, h: History): Response {
    match h
    case Login(now) => LoginResponse(c, now)
    case Renewal(from, clock) =>
      match Outcome(c, from)
      case Issued(token) => RenewResponse(c, token, clock)
      case _ => Unauthorized
  }

  function LoginTime(h: History): int {
    match h
    case Login(now) => now
    case Renewal(from, _) => LoginTime(from)
  }

  /** The reading of the clock at which the last token was checked before being issued. */
  function IssueTime(h: History): int {
    match h
    case Login(now) => now
    case Renewal(_, clock) => clock.issue
  }

  /** The clock never went back. */
  predicate ClockAdvances(h: History) {
    match h
    case Login(_) => true
    case Renewal(from, clock) =>
      ClockAdvances(from) && IssueTime(from) <= clock.check <= clock.until <= clock.since <= clock.mint <= clock.issue
  }

  lemma FloorFacts(t: int)
    ensures Floor(t) <= t < Floor(t) + SECOND
    ensures Floor(Floor(t)) == Floor(t)
    ensures Floor(t + SECOND) == Floor(t) + SECOND
  {
  }

  lemma FloorMonotone(a: int, b: int)
    requires a <= b
    ensures Floor(a) <= Floor(b)
  {
  }

  /** However often a session is renewed, its tokens keep the time of the original login, to the second. */
  lemma {:induction false} AuthTimeNeverMoves(c: Config, h: History)
    requires Outcome(c, h).Issued?
    ensures Outcome(c, h).token.authTime == Some(Floor(LoginTime(h)))
    ensures Outcome(c, h).token.exp.Some?
    ensures c.maxSession > 0 ==> Outcome(c, h).token.exp.value <= LoginTime(h) + c.maxSession
  {
    match h
    case Login(now) =>
      FloorFacts(NewClaims(c, now, None).exp.value);
    case Renewal(from, clock) =>
      AuthTimeNeverMoves(c, from);
      FloorFacts(LoginTime(h));
      FloorFacts(NewClaims(c, clock.mint, Some(Floor(LoginTime(h)))).exp.value);
  }

  /** The session cap is absolute: no token descended from a login, through any renewals, is accepted at or
      after the login plus the cap plus the leeway, despite every time being truncated to seconds. */
  lemma {:induction false} NothingOutlivesTheCap(c: Config, h: History, now: int)
    requires c.maxSession > 0 && Outcome(c, h).Issued?
    requires Validate(c, now, Outcome(c, h).token).Accepted?
    ensures now < LoginTime(h) + c.maxSession + c.leeway
  {
    AuthTimeNeverMoves(c, h);
  }

  /** Nor is the session cut short by more than the truncation: a token limited by the cap lasts to within
      two seconds of it. */
  lemma {:induction false} CapLosesLessThanTwoSeconds(c: Config, h: History)
    requires c.maxSession > 0 && Outcome(c, h).Issued?
    requires var mint := if h.Login? then h.now else h.clock.mint;
             LoginTime(h) + c.maxSession <= mint + c.expiration
    ensures Outcome(c, h).token.exp.value > LoginTime(h) + c.maxSession - 2 * SECOND
  {
    AuthTimeNeverMoves(c, h);
    FloorFacts(LoginTime(h));
    FloorFacts(LoginTime(h) + c.maxSession);
    FloorFacts(Floor(LoginTime(h)) + c.maxSession);
    if h.Renewal? {
      AuthTimeNeverMoves(c, h.from);
    }
  }

  /** No login and no renewal issues a token its own verification would reject at that moment: whole-second
      truncation never makes a token born expired or not yet valid. */
  lemma {:induction false} IssuedTokensAreAcceptedAtOnce(c: Config, h: History)
    requires ValidConfig(c) && ClockAdvances(h) && Outcome(c, h).Issued?
    ensures Validate(c, IssueTime(h), Outcome(c, h).token).Accepted?
  {
    match h
    case Login(now) =>
      FloorFacts(now);
      FloorMonotone(now + SECOND, NewClaims(c, now, None).exp.value);
    case Renewal(from, clock) =>
      FloorFacts(clock.mint);
      AuthTimeNeverMoves(c, from);
  }

  /** A renewal is granted only for a token still accepted, close to its expiry and, with a cap, within the
      session's lifetime. */
  lemma {:induction false} RenewalIsGrantedOnlyInTime(c: Config, h: History)
    requires h.Renewal? && Outcome(c, h).Issued?
    ensures Outcome(c, h.from).token.exp.value - h.clock.until <= c.renewTime
    ensures c.maxSession > 0 ==> h.clock.since <= Floor(LoginTime(h)) + c.maxSession
    ensures h.clock.check < Outcome(c, h.from).token.exp.value + c.leeway
  {
    AuthTimeNeverMoves(c, h.from);
  }
}
