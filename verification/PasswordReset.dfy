/**
 Password resets, and the sign-ins they revoke.

 One row per address holds its latest challenge and its hourly window. Each locked transaction is one
 step; the unlocked reads of a completion and of a sign-in are steps of their own. A step uses a clock
 reading of its own, and readings need not come in the order of the steps unless a lemma says so.
 Keyed hashes and tokens are injective, so they are written as the values they were made from, and an
 address, whose row is never deleted, stands for the row's id.
 */
module PasswordReset {
  import opened Basics

  const CODE_TTL_MS := 1_800_000
  const RESEND_COOLDOWN_MS := 60_000
  const MAX_CODE_ATTEMPTS := 5
  const TOKEN_TTL_MS := 600_000
  const WINDOW_MS := 3_600_000
  const WINDOW_MAX_REQUESTS := 5
  const WINDOW_MAX_FAILED_ATTEMPTS := 10

  datatype CodeHash = CodeHash(address: nat, code: nat)

  datatype Token = Token(address: nat, userId: nat, codeHash: CodeHash, verifiedAt: int)

  datatype SendStatus = SendPending | SendDone | SendFailed

  datatype Window = Window(startedAt: int, requests: nat, failed: nat)

  datatype Challenge = Challenge(
    userId: Option<nat>,
    codeHash: Option<CodeHash>,
    attempts: nat,
    startedAt: int,
    expiresAt: int,
    lastRequestedAt: int,
    verifiedAt: Option<int>,
    token: Option<Token>,
    tokenExpiresAt: Option<int>,
    completedAt: Option<int>,
    sendAttemptId: nat,
    sendStatus: Option<SendStatus>,
    lastSentAt: Option<int>,
    window: Window)

  // ------------------------------------------------------------------ the rules

  datatype ChallengeState = Pending | Verified | Ended

  function StateAt(row: Challenge, now: int): ChallengeState {
    if row.completedAt.Some? || row.attempts >= MAX_CODE_ATTEMPTS then Ended
    else if row.verifiedAt.Some?
    then if row.tokenExpiresAt.Some? && row.tokenExpiresAt.value > now then Verified else Ended
    else if row.expiresAt > now then Pending
    else Ended
  }

  /** A window that has ended counts nothing; the next counted event starts one. */
  function CurrentWindow(w: Window, now: int): Window {
    if now >= w.startedAt + WINDOW_MS then Window(now, 0, 0) else w
  }

  function SecondsUntil(time: int, now: int): int {
    Max(1, (time - now + 999) / 1000)
  }

  function CooldownWait(row: Challenge, now: int): Option<int> {
    var end := row.lastRequestedAt + RESEND_COOLDOWN_MS;
    if now < end then Some(SecondsUntil(end, now)) else None
  }

  function RequestsWait(row: Challenge, now: int): Option<int> {
    var window := CurrentWindow(row.window, now);
    if window.requests >= WINDOW_MAX_REQUESTS then Some(SecondsUntil(window.startedAt + WINDOW_MS, now)) else None
  }

  /** The Retry-After of a refused request, the longest of its waits; None when it is not refused. */
  function RequestRetryAfter(row: Challenge, now: int): Option<int> {
    var (cooldown, requests) := (CooldownWait(row, now), RequestsWait(row, now));
    if cooldown.Some? && requests.Some? then Some(Max(cooldown.value, requests.value))
    else if cooldown.Some? then cooldown
    else requests
  }

  function VerifyRetryAfter(row: Challenge, now: int): Option<int> {
    var window := CurrentWindow(row.window, now);
    if window.failed >= WINDOW_MAX_FAILED_ATTEMPTS then Some(SecondsUntil(window.startedAt + WINDOW_MS, now)) else None
  }

  function TokenExpiry(now: int, expiresAt: int): int {
    Min(now + TOKEN_TTL_MS, expiresAt)
  }

  predicate CanComplete(row: Challenge, token: Token, now: int) {
    row.userId.Some? && row.token == Some(token) && StateAt(row, now) == Verified
  }

  // ------------------------------------------------------------------ statements on one row

  /** A request on a pending challenge only rotates its code. */
  function Rotated(row: Challenge, address: nat, account: Option<nat>, code: nat, now: int): Challenge {
    var window := CurrentWindow(row.window, now);
    row.(userId := account,
         codeHash := if account.Some? then Some(CodeHash(address, code)) else None,
         lastRequestedAt := now,
         window := window.(requests := window.requests + 1),
         sendAttemptId := row.sendAttemptId + 1,
         sendStatus := if account.Some? then Some(SendPending) else None)
  }

  /** Any other request starts a new challenge on the row, whose window goes on. */
  function Restarted(row: Challenge, address: nat, account: Option<nat>, code: nat, now: int): Challenge {
    Rotated(row, address, account, code, now).(
      attempts := 0, startedAt := now, expiresAt := now + CODE_TTL_MS,
      verifiedAt := None, token := None, tokenExpiresAt := None, completedAt := None)
  }

  function FirstChallenge(address: nat, account: Option<nat>, code: nat, now: int): Challenge {
    Challenge(account, if account.Some? then Some(CodeHash(address, code)) else None, 0, now, now + CODE_TTL_MS, now,
              None, None, None, None, 1, if account.Some? then Some(SendPending) else None, None, Window(now, 1, 0))
  }

  function Rerequested(row: Challenge, address: nat, account: Option<nat>, code: nat, now: int): Challenge {
    if StateAt(row, now) == Pending
    then Rotated(row, address, account, code, now)
    else Restarted(row, address, account, code, now)
  }

  /** A wrong code; one that opens a window leaves the request count of the old one in place. */
  function Missed(row: Challenge, now: int): Challenge {
    var window := CurrentWindow(row.window, now);
    var exhausted := row.attempts + 1 >= MAX_CODE_ATTEMPTS;
    row.(attempts := row.attempts + 1,
         window := Window(window.startedAt, row.window.requests, window.failed + 1),
         token := if exhausted then None else row.token,
         tokenExpiresAt := if exhausted then None else row.tokenExpiresAt)
  }

  function Accepted(row: Challenge, token: Token, now: int): Challenge {
    row.(verifiedAt := Some(now), token := Some(token), tokenExpiresAt := Some(TokenExpiry(now, row.expiresAt)))
  }

  function Completed(row: Challenge, now: int): Challenge {
    row.(completedAt := Some(now), codeHash := None, token := None)
  }

  /** The hash a code is compared with: none when the row is bound to another account or to none. */
  function ExpectedHash(row: Challenge, account: Option<nat>): Option<CodeHash> {
    if account.Some? && row.userId == account then row.codeHash else None
  }

  datatype Verdict = Limited(seconds: int) | Unusable | Wrong | Right(token: Token, expiresIn: int)

  function Judge(row: Challenge, address: nat, account: Option<nat>, code: nat, now: int): Verdict {
    var wait := VerifyRetryAfter(row, now);
    if wait.Some? then Limited(wait.value)
    else if StateAt(row, now) == Ended then Unusable
    else if ExpectedHash(row, account) != Some(CodeHash(address, code)) then Wrong
    else if StateAt(row, now) == Verified && row.verifiedAt.Some? && row.tokenExpiresAt.Some?
    then Right(Token(address, row.userId.value, row.codeHash.value, row.verifiedAt.value),
               SecondsUntil(row.tokenExpiresAt.value, now))
    else Right(Token(address, row.userId.value, row.codeHash.value, now),
               SecondsUntil(TokenExpiry(now, row.expiresAt), now))
  }

  function Judged(row: Challenge, verdict: Verdict, now: int): Challenge {
    match verdict
    case Wrong => Missed(row, now)
    case Right(token, _) => if StateAt(row, now) == Pending then Accepted(row, token, now) else row
    case _ => row
  }

  function Delivered(row: Challenge, attemptId: nat, status: SendStatus, now: int): Challenge {
    if row.sendAttemptId != attemptId then row
    else if status == SendDone then row.(sendStatus := Some(status), lastSentAt := Some(now))
    else row.(sendStatus := Some(status))
  }

  // ------------------------------------------------------------------ the machine

  /** A password's stored hash: it matches one password, and every hashing gives another. */
  datatype Password = Password(plain: nat, salt: nat)

  datatype User = User(address: nat, password: Password, verified: bool, authVersion: nat)

  /** An access token; `password` is what was typed to get it, if anything. */
  datatype Session = Session(user: nat, version: nat, password: Option<nat>)

  /** A sign-in between its unlocked read and its locked check. */
  datatype Login = Login(user: nat, seen: User, typed: nat)

  /** A completion between its unlocked read and its transaction, while the new password is being hashed. */
  datatype Completion = Completion(address: nat, userId: nat, token: Token, readAt: int)

  /** What happened, in commit order; the program stores none of it. `challenge` is its start. */
  datatype Entry =
    | Request(address: nat, challenge: int, window: int, at: int, expiresAt: int)
    | Miss(address: nat, challenge: int, window: int, at: int, expiresAt: int)
    | Grant(address: nat, challenge: int, token: Token, at: int, expiresAt: int)
    | Use(address: nat, user: nat, token: Token, at: int)

  datatype State = State(
    users: map<nat, User>,
    rows: map<nat, Challenge>,
    logins: map<nat, Login>,
    completions: map<nat, Completion>,
    sessions: set<Session>,
    log: seq<Entry>,
    clock: int)

  const INIT := State(map[], map[], map[], map[], {}, [], 0)

  datatype Event =
    | Register(user: nat, address: nat, password: Password)
    | UpdateUnverified(user: nat, password: Password)
    | VerifyEmail(user: nat)
    | LoginRead(login: nat, user: nat, typed: nat)
    | LoginCheck(login: nat)
    | RequestCode(address: nat, account: Option<nat>, code: nat, t: int)
    | VerifyCode(address: nat, account: Option<nat>, code: nat, t: int)
    | CompleteRead(completion: nat, address: nat, token: Token, t: int)
    | CompleteCommit(completion: nat, password: Password, t: int)
    | Deliver(address: nat, attemptId: nat, status: SendStatus, t: int)

  /** What the locked lookup of the address's verified account returns. */
  predicate IsAccount(users: map<nat, User>, address: nat, account: Option<nat>) {
    match account
    case Some(u) => u in users && users[u].address == address && users[u].verified
    case None => forall u :: u in users ==> !(users[u].address == address && users[u].verified)
  }

  predicate AddressIsFree(users: map<nat, User>, address: nat) {
    forall u :: u in users ==> users[u].address != address
  }

  function SetUser(s: State, u: nat, user: User): State {
    s.(users := s.users[u := user])
  }

  function SetRow(s: State, address: nat, row: Challenge): State {
    s.(rows := s.rows[address := row])
  }

  function Note(s: State, e: Entry): State {
    s.(log := s.log + [e])
  }

  function AfterRequest(s: State, a: nat, account: Option<nat>, code: nat, t: int): State {
    if !IsAccount(s.users, a, account) || (a in s.rows && RequestRetryAfter(s.rows[a], t).Some?) then s
    else
      var row := if a in s.rows then Rerequested(s.rows[a], a, account, code, t)
                 else FirstChallenge(a, account, code, t);
      Note(SetRow(s, a, row), Request(a, row.startedAt, row.window.startedAt, t, row.expiresAt))
  }

  function AfterVerify(s: State, a: nat, account: Option<nat>, code: nat, t: int): State {
    if !IsAccount(s.users, a, account) || a !in s.rows then s
    else
      var verdict := Judge(s.rows[a], a, account, code, t);
      var row := Judged(s.rows[a], verdict, t);
      match verdict
      case Wrong => Note(SetRow(s, a, row), Miss(a, row.startedAt, row.window.startedAt, t, row.expiresAt))
      case Right(token, _) => Note(SetRow(s, a, row), Grant(a, row.startedAt, token, t, row.expiresAt))
      case _ => s
  }

  function AfterCompleteRead(s: State, w: nat, a: nat, token: Token, t: int): State {
    if w in s.completions || a !in s.rows || !CanComplete(s.rows[a], token, t) then s
    else s.(completions := s.completions[w := Completion(a, s.rows[a].userId.value, token, t)])
  }

  predicate Commits(s: State, p: Completion, t: int) {
    && p.userId in s.users && p.address in s.rows
    && s.rows[p.address].userId == Some(p.userId) && s.users[p.userId].address == p.address
    && CanComplete(s.rows[p.address], p.token, t)
  }

  function WithNewPassword(user: User, password: Password): User {
    user.(password := password, authVersion := user.authVersion + 1)
  }

  function WithoutCompletion(s: State, w: nat): State {
    s.(completions := s.completions - {w})
  }

  function AfterCompleteCommit(s: State, w: nat, password: Password, t: int): State {
    if w !in s.completions then s
    else
      var p := s.completions[w];
      if !Commits(s, p, t) then WithoutCompletion(s, w)
      else
        var user := WithNewPassword(s.users[p.userId], password);
        WithoutCompletion(
          Note(SetUser(SetRow(s, p.address, Completed(s.rows[p.address], t)), p.userId, user),
               Use(p.address, p.userId, p.token, t)), w)
  }

  function AfterLoginRead(s: State, w: nat, u: nat, typed: nat): State {
    if w in s.logins || u !in s.users || s.users[u].password.plain != typed || !s.users[u].verified then s
    else s.(logins := s.logins[w := Login(u, s.users[u], typed)])
  }

  function AfterLoginCheck(s: State, w: nat): State {
    if w !in s.logins then s
    else
      var login := s.logins[w];
      var s' := s.(logins := s.logins - {w});
      if && login.user in s.users && s.users[login.user].password == login.seen.password
         && s.users[login.user].authVersion == login.seen.authVersion
      then s'.(sessions := s.sessions + {Session(login.user, s.users[login.user].authVersion, Some(login.typed))})
      else s'
  }

  function AfterVerifyEmail(s: State, u: nat): State {
    if u !in s.users || s.users[u].verified then s
    else
      SetUser(s, u, s.users[u].(verified := true))
        .(sessions := s.sessions + {Session(u, s.users[u].authVersion, None)})
  }

  function Effect(s: State, e: Event): State {
    match e
    case Register(u, a, p) =>
      if u in s.users || !AddressIsFree(s.users, a) then s else SetUser(s, u, User(a, p, false, 1))
    case UpdateUnverified(u, p) =>
      if u !in s.users || s.users[u].verified then s else SetUser(s, u, s.users[u].(password := p))
    case VerifyEmail(u) => AfterVerifyEmail(s, u)
    case LoginRead(w, u, typed) => AfterLoginRead(s, w, u, typed)
    case LoginCheck(w) => AfterLoginCheck(s, w)
    case RequestCode(a, account, code, t) => AfterRequest(s, a, account, code, t)
    case VerifyCode(a, account, code, t) => AfterVerify(s, a, account, code, t)
    case CompleteRead(w, a, token, t) => AfterCompleteRead(s, w, a, token, t)
    case CompleteCommit(w, p, t) => AfterCompleteCommit(s, w, p, t)
    case Deliver(a, id, status, t) => if a in s.rows then SetRow(s, a, Delivered(s.rows[a], id, status, t)) else s
  }

  predicate IsTimed(e: Event) {
    e.RequestCode? || e.VerifyCode? || e.CompleteRead? || e.CompleteCommit?
  }

  /** The clock is the latest step's reading. */
  function Apply(s: State, e: Event): State {
    if IsTimed(e) then Effect(s, e).(clock := e.t) else Effect(s, e)
  }

  function After(s: State, events: seq<Event>): State {
    if events == [] then s else Apply(After(s, events[..|events| - 1]), events[|events| - 1])
  }

  /** No reading is older than the one before it. */
  ghost predicate InOrder(s: State, events: seq<Event>) {
    events == [] ||
    (InOrder(s, events[..|events| - 1]) && Timely(After(s, events[..|events| - 1]), events[|events| - 1]))
  }

  predicate Timely(s: State, e: Event) {
    IsTimed(e) ==> e.t >= s.clock
  }

  /** Hashing the new password takes at least a millisecond between the read and the transaction. */
  predicate HashesInTime(s: State, e: Event) {
    e.CompleteCommit? && e.completion in s.completions ==> e.t > s.completions[e.completion].readAt
  }

  ghost predicate HashingTakesTime(s: State, events: seq<Event>) {
    events == [] ||
    (&& HashingTakesTime(s, events[..|events| - 1])
     && HashesInTime(After(s, events[..|events| - 1]), events[|events| - 1]))
  }

  // ------------------------------------------------------------------ counting what happened

  datatype Query =
    | MissesOf(address: nat, challenge: int)
    | MissesIn(address: nat, window: int)
    | RequestsIn(address: nat, window: int)
    | MissesBetween(address: nat, from: int, to: int)
    | RequestsBetween(address: nat, from: int, to: int)
    | UsesBy(user: nat)

  predicate Matches(q: Query, e: Entry) {
    match q
    case MissesOf(a, c) => e.Miss? && e.address == a && e.challenge == c
    case MissesIn(a, w) => e.Miss? && e.address == a && e.window == w
    case RequestsIn(a, w) => e.Request? && e.address == a && e.window == w
    case MissesBetween(a, from, to) => e.Miss? && e.address == a && from <= e.at < to
    case RequestsBetween(a, from, to) => e.Request? && e.address == a && from <= e.at < to
    case UsesBy(u) => e.Use? && e.user == u
  }

  function Count(log: seq<Entry>, q: Query): nat {
    if log == [] then 0 else Count(log[..|log| - 1], q) + if Matches(q, log[|log| - 1]) then 1 else 0
  }
}
