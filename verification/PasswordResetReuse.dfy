/**
 When exactly a completed token could complete again, if hashing the new password took no time.

 The token is derived from the row, the account, the code and the millisecond of the verification, so
 it comes back only with a second verification of the same code in that millisecond.
 */
module PasswordResetReuse {
  import opened Basics
  import opened PasswordReset
  import opened PasswordResetProofs
  import opened PasswordResetOrder

  // ------------------------------------------------------------------ runs

  lemma AfterConcat(s: State, a: seq<Event>, b: seq<Event>)
    ensures After(s, a + b) == After(After(s, a), b)
    ensures InOrder(s, a) && InOrder(After(s, a), b) ==> InOrder(s, a + b)
  {
    if b == [] {
      assert a + b == a;
    } else {
      assert (a + b)[..|a + b| - 1] == a + b[..|b| - 1];
      AfterConcat(s, a, b[..|b| - 1]);
    }
  }

  lemma AfterOne(s: State, x: Event)
    ensures After(s, [x]) == Apply(s, x)
    ensures InOrder(s, [x]) <==> Timely(s, x)
  {
    assert [x][..0] == [];
  }

  lemma AfterTwo(s: State, x: Event, y: Event)
    ensures After(s, [x, y]) == Apply(Apply(s, x), y)
    ensures InOrder(s, [x, y]) <==> Timely(s, x) && Timely(Apply(s, x), y)
  {
    AfterOne(s, x);
    assert [x, y][..1] == [x];
  }

  lemma AfterThree(s: State, x: Event, y: Event, z: Event)
    ensures After(s, [x, y, z]) == Apply(Apply(Apply(s, x), y), z)
    ensures InOrder(s, [x, y, z]) <==>
            Timely(s, x) && Timely(Apply(s, x), y) && Timely(Apply(Apply(s, x), y), z)
  {
    AfterTwo(s, x, y);
    assert [x, y, z][..2] == [x, y];
  }

  // ------------------------------------------------------------------ accounts behind rows and tokens

  predicate IsVerifiedAt(users: map<nat, User>, u: nat, a: nat) {
    u in users && users[u].address == a && users[u].verified
  }

  /** A completed token is the one its row would derive again for the same code. */
  predicate UseOk(users: map<nat, User>, e: Entry) {
    e.Use? ==>
      && e.token.address == e.address && e.token.userId == e.user && e.token.codeHash.address == e.address
      && IsVerifiedAt(users, e.user, e.address)
  }

  predicate RowUserOk(users: map<nat, User>, a: nat, row: Challenge) {
    row.userId.Some? ==> IsVerifiedAt(users, row.userId.value, a)
  }

  predicate LastUseIsCompleted(s: State) {
    s.log != [] && s.log[|s.log| - 1].Use? ==>
      var a := s.log[|s.log| - 1].address;
      a in s.rows && s.rows[a].completedAt.Some? && s.rows[a].token.None?
  }

  ghost predicate AccountInv(s: State) {
    && (forall e :: e in s.log ==> UseOk(s.users, e))
    && (forall a :: a in s.rows ==> RowUserOk(s.users, a, s.rows[a]))
    && LastUseIsCompleted(s)
  }

  ghost predicate AccountsStay(before: map<nat, User>, after: map<nat, User>) {
    forall u, a :: IsVerifiedAt(before, u, a) ==> IsVerifiedAt(after, u, a)
  }

  lemma StepsKeepAccounts(s: State, e: Event)
    ensures AccountsStay(s.users, Apply(s, e).users)
  {
  }

  /** Steps on users and pending work leave rows and log alone. */
  lemma QuietKeepsAccounts(s: State, s': State)
    requires AccountInv(s) && AccountsStay(s.users, s'.users) && s'.rows == s.rows && s'.log == s.log
    ensures AccountInv(s')
  {
    forall e | e in s'.log ensures UseOk(s'.users, e) {
      assert UseOk(s.users, e);
    }
    forall a | a in s'.rows ensures RowUserOk(s'.users, a, s'.rows[a]) {
      assert RowUserOk(s.users, a, s.rows[a]);
    }
  }

  lemma RowChangeKeepsAccounts(s: State, s': State, a: nat, row: Challenge, noted: seq<Entry>)
    requires AccountInv(s) && AccountsStay(s.users, s'.users)
    requires s'.rows == s.rows[a := row] && s'.log == s.log + noted && |noted| <= 1
    requires RowUserOk(s'.users, a, row) && (forall e :: e in noted ==> UseOk(s'.users, e) && e.address == a)
    requires noted == [] ==> a in s.rows && row.completedAt == s.rows[a].completedAt && row.token == s.rows[a].token
    requires noted != [] && noted[0].Use? ==> row.completedAt.Some? && row.token.None?
    ensures AccountInv(s')
  {
    forall e | e in s'.log ensures UseOk(s'.users, e) {
      assert e in s.log ==> UseOk(s.users, e);
    }
    forall b | b in s'.rows ensures RowUserOk(s'.users, b, s'.rows[b]) {
      assert b != a ==> RowUserOk(s.users, b, s.rows[b]);
    }
  }

  lemma RequestKeepsAccounts(s: State, a: nat, account: Option<nat>, code: nat, t: int)
    requires AccountInv(s)
    ensures AccountInv(Apply(s, RequestCode(a, account, code, t)))
  {
    var s' := Apply(s, RequestCode(a, account, code, t));
    if s'.log != s.log {
      RowChangeKeepsAccounts(s, s', a, s'.rows[a], [s'.log[|s.log|]]);
    }
  }

  lemma VerifyKeepsAccounts(s: State, a: nat, account: Option<nat>, code: nat, t: int)
    requires AccountInv(s)
    ensures AccountInv(Apply(s, VerifyCode(a, account, code, t)))
  {
    var s' := Apply(s, VerifyCode(a, account, code, t));
    if s'.log == s.log {
      QuietKeepsAccounts(s, s');
    } else {
      VerifyNotes(s, a, account, code, t);
      assert RowUserOk(s.users, a, s.rows[a]);
      RowChangeKeepsAccounts(s, s', a, s'.rows[a], [s'.log[|s.log|]]);
    }
  }

  lemma CommitKeepsAccounts(s: State, w: nat, password: Password, t: int)
    requires Inv(s) && AccountInv(s)
    ensures AccountInv(Apply(s, CompleteCommit(w, password, t)))
  {
    var s' := Apply(s, CompleteCommit(w, password, t));
    StepsKeepAccounts(s, CompleteCommit(w, password, t));
    if s'.log != s.log {
      CommitNotes(s, w, password, t);
      var p := s.completions[w];
      assert RowUserOk(s.users, p.address, s.rows[p.address]) && TokenOk(p.address, s.rows[p.address]);
      RowChangeKeepsAccounts(s, s', p.address, s'.rows[p.address], [s'.log[|s.log|]]);
    } else {
      QuietKeepsAccounts(s, s');
    }
  }

  lemma DeliveryKeepsAccounts(s: State, a: nat, id: nat, status: SendStatus, t: int)
    requires AccountInv(s)
    ensures AccountInv(Apply(s, Deliver(a, id, status, t)))
  {
    if a in s.rows {
      var row := Delivered(s.rows[a], id, status, t);
      assert RowUserOk(s.users, a, s.rows[a]);
      RowChangeKeepsAccounts(s, Apply(s, Deliver(a, id, status, t)), a, row, []);
    }
  }

  lemma ApplyKeepsAccounts(s: State, e: Event)
    requires Inv(s) && AccountInv(s)
    ensures AccountInv(Apply(s, e))
  {
    match e
    case RequestCode(a, account, code, t) => RequestKeepsAccounts(s, a, account, code, t);
    case VerifyCode(a, account, code, t) => VerifyKeepsAccounts(s, a, account, code, t);
    case CompleteCommit(w, p, t) => CommitKeepsAccounts(s, w, p, t);
    case Deliver(a, id, status, t) => DeliveryKeepsAccounts(s, a, id, status, t);
    case _ =>
      QuietSteps(s, e);
      StepsKeepAccounts(s, e);
      QuietKeepsAccounts(s, Apply(s, e));
  }

  lemma {:induction false} EveryRunKeepsAccounts(events: seq<Event>)
    ensures AccountInv(After(INIT, events))
  {
    if events == [] {
    } else {
      EveryRunKeepsAccounts(events[..|events| - 1]);
      EveryRunKeepsInv(events[..|events| - 1]);
      ApplyKeepsAccounts(After(INIT, events[..|events| - 1]), events[|events| - 1]);
    }
  }

  // ------------------------------------------------------------------ the way there

  function TokenOf(u: nat, a: nat, code: nat, t: int): Token {
    Token(a, u, CodeHash(a, code), t)
  }

  /** Verify, complete: all of it in the millisecond t. */
  function Reset(u: nat, a: nat, code: nat, w: nat, t: int): seq<Event> {
    var token := TokenOf(u, a, code, t);
    [VerifyCode(a, Some(u), code, t), CompleteRead(w, a, token, t), CompleteCommit(w, Password(0, w), t)]
  }

  /** A new challenge with the same code drawn, and all of it again. */
  function ResetAgain(u: nat, a: nat, code: nat, w: nat, t: int): seq<Event> {
    [RequestCode(a, Some(u), code, t)] + Reset(u, a, code, w, t)
  }

  /** The account's challenge takes this code. */
  predicate TakesCode(s: State, u: nat, a: nat, code: nat, t: int) {
    && IsVerifiedAt(s.users, u, a) && a in s.rows && s.clock <= t
    && var row := s.rows[a];
       && row.userId == Some(u) && row.codeHash == Some(CodeHash(a, code))
       && StateAt(row, t) == Pending && VerifyRetryAfter(row, t).None?
  }

  /** The account's challenge was verified with this token, which worker w can read. */
  predicate TokenIsReady(s: State, u: nat, a: nat, w: nat, token: Token, t: int) {
    && IsVerifiedAt(s.users, u, a) && a in s.rows && w !in s.completions && s.clock <= t
    && s.rows[a].userId == Some(u) && CanComplete(s.rows[a], token, t)
  }

  lemma Grants(s: State, u: nat, a: nat, code: nat, w: nat, t: int)
    requires TakesCode(s, u, a, code, t) && w !in s.completions
    ensures var (s', row, token) := (Apply(s, VerifyCode(a, Some(u), code, t)), s.rows[a], TokenOf(u, a, code, t));
            && TokenIsReady(s', u, a, w, token, t)
            && s'.rows[a] == Accepted(row, token, t)
            && s'.log == s.log + [Grant(a, row.startedAt, token, t, row.expiresAt)]
  {
  }

  lemma Reads(s: State, u: nat, a: nat, w: nat, token: Token, t: int)
    requires TokenIsReady(s, u, a, w, token, t)
    ensures Apply(s, CompleteRead(w, a, token, t))
            == s.(completions := s.completions[w := Completion(a, u, token, t)], clock := t)
  {
  }

  /** What an accepted completion at t leaves. */
  predicate IsReset(s: State, s': State, u: nat, a: nat, row: Challenge, token: Token, t: int) {
    && s'.log == s.log + [Use(a, u, token, t)] && a in s'.rows && s'.rows[a] == Completed(row, t)
    && s'.clock == t && IsVerifiedAt(s'.users, u, a)
  }

  lemma CommitsAtOnce(s: State, u: nat, a: nat, w: nat, token: Token, t: int)
    requires TokenIsReady(s, u, a, w, token, t)
    ensures var read := s.(completions := s.completions[w := Completion(a, u, token, t)], clock := t);
            IsReset(s, Apply(read, CompleteCommit(w, Password(0, w), t)), u, a, s.rows[a], token, t)
  {
  }

  lemma Uses(s: State, u: nat, a: nat, w: nat, token: Token, t: int)
    requires TokenIsReady(s, u, a, w, token, t)
    ensures var events := [CompleteRead(w, a, token, t), CompleteCommit(w, Password(0, w), t)];
            InOrder(s, events) && IsReset(s, After(s, events), u, a, s.rows[a], token, t)
  {
    Reads(s, u, a, w, token, t);
    CommitsAtOnce(s, u, a, w, token, t);
    AfterTwo(s, CompleteRead(w, a, token, t), CompleteCommit(w, Password(0, w), t));
  }

  lemma Completes(s: State, u: nat, a: nat, code: nat, w: nat, t: int)
    requires TakesCode(s, u, a, code, t) && w !in s.completions
    ensures InOrder(s, Reset(u, a, code, w, t))
    ensures var (token, row) := (TokenOf(u, a, code, t), s.rows[a]);
            IsReset(s.(log := s.log + [Grant(a, row.startedAt, token, t, row.expiresAt)]),
                    After(s, Reset(u, a, code, w, t)), u, a, Accepted(row, token, t), token, t)
  {
    var token := TokenOf(u, a, code, t);
    var (x, y, z) := (VerifyCode(a, Some(u), code, t), CompleteRead(w, a, token, t),
                      CompleteCommit(w, Password(0, w), t));
    Grants(s, u, a, code, w, t);
    Uses(Apply(s, x), u, a, w, token, t);
    AfterOne(s, x);
    AfterConcat(s, [x], [y, z]);
    assert [x] + [y, z] == Reset(u, a, code, w, t);
  }

  /** A completed challenge may be replaced at once when no limit stands in the way. */
  lemma Restarts(s: State, u: nat, a: nat, code: nat, t: int)
    requires IsVerifiedAt(s.users, u, a) && a in s.rows && s.clock <= t && s.rows[a].completedAt.Some?
    requires RequestRetryAfter(s.rows[a], t).None? && VerifyRetryAfter(s.rows[a], t).None?
    ensures var s' := Apply(s, RequestCode(a, Some(u), code, t));
            && TakesCode(s', u, a, code, t) && s'.completions == s.completions
            && |s'.log| == |s.log| + 1 && s'.log[..|s.log|] == s.log
  {
  }

  // ------------------------------------------------------------------ no way there

  /** The run goes on in order and completes the token once more. */
  ghost predicate UsesAgain(s: State, more: seq<Event>, token: Token) {
    && InOrder(s, more)
    && exists k :: |s.log| <= k < |After(s, more).log| && IsUseOf(After(s, more).log[k], token)
  }

  predicate IsUseOf(e: Entry, token: Token) {
    e.Use? && e.token == token
  }

  /** Its millisecond is over, or a limit keeps the row from a second verification within it. */
  predicate CannotVerifyAgain(row: Challenge, t: int, clock: int) {
    || clock > t
    || (row.completedAt.Some? && RequestRetryAfter(row, t).Some?)
    || VerifyRetryAfter(row, t).Some?
  }

  ghost predicate Blocked(s: State, a: nat, token: Token, from: nat) {
    && token.address == a && a in s.rows && s.clock >= token.verifiedAt
    && s.rows[a].token != Some(token) && CannotVerifyAgain(s.rows[a], token.verifiedAt, s.clock)
    && (forall k :: from <= k < |s.log| ==> !IsUseOf(s.log[k], token))
  }

  lemma BlockedGoesOn(s: State, s': State, a: nat, token: Token, from: nat, noted: seq<Entry>)
    requires Blocked(s, a, token, from) && s'.clock >= s.clock && a in s'.rows && s'.rows[a].token != Some(token)
    requires CannotVerifyAgain(s'.rows[a], token.verifiedAt, s'.clock)
    requires s'.log == s.log + noted && (forall e :: e in noted ==> !IsUseOf(e, token))
    ensures Blocked(s', a, token, from)
  {
    forall k | from <= k < |s'.log| ensures !IsUseOf(s'.log[k], token) {
      if k < |s.log| {
        assert !IsUseOf(s.log[k], token);
      } else {
        assert s'.log[k] in noted;
      }
    }
  }

  lemma BlockedWithoutChange(s: State, s': State, a: nat, token: Token, from: nat)
    requires Blocked(s, a, token, from) && s'.clock >= s.clock && s'.log == s.log
    requires a in s'.rows && s'.rows[a] == s.rows[a]
    ensures Blocked(s', a, token, from)
  {
    BlockedGoesOn(s, s', a, token, from, []);
  }

  lemma RequestKeepsBlock(row: Challenge, a: nat, account: Option<nat>, code: nat, at: int, clock: int, t: int)
    requires CannotVerifyAgain(row, at, clock) && at <= clock <= t && RequestRetryAfter(row, t).None?
    ensures CannotVerifyAgain(Rerequested(row, a, account, code, t), at, t)
  {
  }

  /** A right code gives the row a token of this step's time, or leaves the row as it is. */
  lemma VerifyKeepsBlock(row: Challenge, a: nat, account: Option<nat>, code: nat, token: Token, clock: int, t: int)
    requires CannotVerifyAgain(row, token.verifiedAt, clock) && token.verifiedAt <= clock <= t
    requires row.token != Some(token)
    ensures var row' := Judged(row, Judge(row, a, account, code, t), t);
            CannotVerifyAgain(row', token.verifiedAt, t) && row'.token != Some(token)
  {
    if t == token.verifiedAt {
      var verdict := Judge(row, a, account, code, t);
      assert verdict.Limited? || verdict.Unusable?;
    }
  }

  lemma RequestStaysBlocked(s: State, a: nat, token: Token, from: nat, e: Event)
    requires Inv(s) && Blocked(s, a, token, from) && e.RequestCode? && Timely(s, e)
    ensures Blocked(Apply(s, e), a, token, from)
  {
    var s' := Apply(s, e);
    if s'.log == s.log || e.address != a {
      BlockedGoesOn(s, s', a, token, from, if s'.log == s.log then [] else [s'.log[|s.log|]]);
    } else {
      assert TokenOk(a, s.rows[a]);
      RequestKeepsBlock(s.rows[a], a, e.account, e.code, token.verifiedAt, s.clock, e.t);
      BlockedGoesOn(s, s', a, token, from, [s'.log[|s.log|]]);
    }
  }

  lemma VerifyStaysBlocked(s: State, a: nat, token: Token, from: nat, e: Event)
    requires Blocked(s, a, token, from) && e.VerifyCode? && Timely(s, e)
    ensures Blocked(Apply(s, e), a, token, from)
  {
    var s' := Apply(s, e);
    if s'.log == s.log {
      BlockedWithoutChange(s, s', a, token, from);
    } else {
      VerifyNotes(s, e.address, e.account, e.code, e.t);
      if e.address == a {
        VerifyKeepsBlock(s.rows[a], a, e.account, e.code, token, s.clock, e.t);
      }
      BlockedGoesOn(s, s', a, token, from, [s'.log[|s.log|]]);
    }
  }

  lemma CommitStaysBlocked(s: State, a: nat, token: Token, from: nat, e: Event)
    requires Inv(s) && Blocked(s, a, token, from) && e.CompleteCommit? && Timely(s, e)
    ensures Blocked(Apply(s, e), a, token, from)
  {
    var s' := Apply(s, e);
    if s'.log == s.log {
      BlockedWithoutChange(s, s', a, token, from);
    } else {
      CommitNotes(s, e.completion, e.password, e.t);
      var p := s.completions[e.completion];
      assert TokenOk(p.address, s.rows[p.address]);
      BlockedGoesOn(s, s', a, token, from, [s'.log[|s.log|]]);
    }
  }

  lemma DeliveryStaysBlocked(s: State, a: nat, token: Token, from: nat, e: Event)
    requires Blocked(s, a, token, from) && e.Deliver?
    ensures Blocked(Apply(s, e), a, token, from)
  {
    BlockedGoesOn(s, Apply(s, e), a, token, from, []);
  }

  lemma QuietStaysBlocked(s: State, a: nat, token: Token, from: nat, e: Event)
    requires Blocked(s, a, token, from) && Timely(s, e) && IsQuiet(e)
    ensures Blocked(Apply(s, e), a, token, from)
  {
    QuietSteps(s, e);
    BlockedWithoutChange(s, Apply(s, e), a, token, from);
  }

  lemma StaysBlocked(s: State, a: nat, token: Token, from: nat, e: Event)
    requires Inv(s) && Blocked(s, a, token, from) && Timely(s, e)
    ensures Blocked(Apply(s, e), a, token, from)
  {
    if e.RequestCode? {
      RequestStaysBlocked(s, a, token, from, e);
    } else if e.VerifyCode? {
      VerifyStaysBlocked(s, a, token, from, e);
    } else if e.CompleteCommit? {
      CommitStaysBlocked(s, a, token, from, e);
    } else if e.Deliver? {
      DeliveryStaysBlocked(s, a, token, from, e);
    } else {
      QuietStaysBlocked(s, a, token, from, e);
    }
  }

  lemma LogGrows(s: State, e: Event)
    ensures |s.log| <= |Apply(s, e).log|
  {
  }

  lemma {:induction false} RunsStayBlocked(s: State, a: nat, token: Token, more: seq<Event>)
    requires Inv(s) && Blocked(s, a, token, |s.log|) && InOrder(s, more)
    ensures Inv(After(s, more)) && Blocked(After(s, more), a, token, |s.log|) && |s.log| <= |After(s, more).log|
  {
    if more != [] {
      var init := more[..|more| - 1];
      RunsStayBlocked(s, a, token, init);
      ApplyKeepsInv(After(s, init), more[|more| - 1]);
      StaysBlocked(After(s, init), a, token, |s.log|, more[|more| - 1]);
      LogGrows(After(s, init), more[|more| - 1]);
    }
  }

  // ------------------------------------------------------------------ the condition

  /**
   Just after a completion its token can complete again exactly when the clock still shows the millisecond
   of its verification and neither a request nor a code is refused now.
   */
  lemma SecondUseCondition(events: seq<Event>, e: Entry)
    requires InOrder(INIT, events) && e.Use?
    requires var s := After(INIT, events); s.log != [] && e == s.log[|s.log| - 1]
    ensures var s := After(INIT, events);
            && e.address in s.rows
            && ((exists more :: UsesAgain(s, more, e.token)) <==>
                && s.clock == e.token.verifiedAt
                && RequestRetryAfter(s.rows[e.address], s.clock).None?
                && VerifyRetryAfter(s.rows[e.address], s.clock).None?)
  {
    EveryRunKeepsInv(events);
    EveryRunKeepsAccounts(events);
    OrderedRunsKeepOrder(events);
    var s := After(INIT, events);
    assert e in s.log && UseOk(s.users, e) && EntryInOrder(e, s.clock);
    var (row, t) := (s.rows[e.address], s.clock);
    if t == e.token.verifiedAt && RequestRetryAfter(row, t).None? && VerifyRetryAfter(row, t).None? {
      var w := AboveAll(s.completions.Keys);
      CompletesAgain(s, e.user, e.address, e.token.codeHash.code, w, t);
      assert UsesAgain(s, ResetAgain(e.user, e.address, e.token.codeHash.code, w, t), e.token);
    } else if more :| UsesAgain(s, more, e.token) {
      RunsStayBlocked(s, e.address, e.token, more);
    }
  }

  lemma CompletesAgain(s: State, u: nat, a: nat, code: nat, w: nat, t: int)
    requires IsVerifiedAt(s.users, u, a) && a in s.rows && s.clock <= t && s.rows[a].completedAt.Some?
    requires RequestRetryAfter(s.rows[a], t).None? && VerifyRetryAfter(s.rows[a], t).None?
    requires w !in s.completions
    ensures UsesAgain(s, ResetAgain(u, a, code, w, t), TokenOf(u, a, code, t))
  {
    var request := RequestCode(a, Some(u), code, t);
    Restarts(s, u, a, code, t);
    AfterOne(s, request);
    Completes(Apply(s, request), u, a, code, w, t);
    AfterConcat(s, [request], Reset(u, a, code, w, t));
    assert IsUseOf(After(s, ResetAgain(u, a, code, w, t)).log[|s.log| + 2], TokenOf(u, a, code, t));
  }

  // ------------------------------------------------------------------ a run that meets it

  function FirstReset(u: nat, a: nat, code: nat, t: int): seq<Event> {
    [Register(u, a, Password(0, 0)), VerifyEmail(u), RequestCode(a, Some(u), code, t - RESEND_COOLDOWN_MS)]
    + Reset(u, a, code, 0, t)
  }

  lemma Begins(u: nat, a: nat, code: nat, t: int)
    requires t >= RESEND_COOLDOWN_MS
    ensures var events := [Register(u, a, Password(0, 0)), VerifyEmail(u),
                           RequestCode(a, Some(u), code, t - RESEND_COOLDOWN_MS)];
            var s := After(INIT, events);
            && InOrder(INIT, events) && TakesCode(s, u, a, code, t) && s.completions == map[]
            && s.rows[a].lastRequestedAt == t - RESEND_COOLDOWN_MS
            && s.rows[a].window == Window(t - RESEND_COOLDOWN_MS, 1, 0)
  {
    var (x, y, z) := (Register(u, a, Password(0, 0)), VerifyEmail(u),
                      RequestCode(a, Some(u), code, t - RESEND_COOLDOWN_MS));
    AfterThree(INIT, x, y, z);
  }

  lemma NothingIsRefused(row: Challenge, token: Token, t: int)
    requires row.lastRequestedAt == t - RESEND_COOLDOWN_MS && row.window == Window(t - RESEND_COOLDOWN_MS, 1, 0)
    ensures var completed := Completed(Accepted(row, token, t), t);
            RequestRetryAfter(completed, t).None? && VerifyRetryAfter(completed, t).None?
  {
  }

  lemma FirstResetCompletes(u: nat, a: nat, code: nat, t: int)
    requires t >= RESEND_COOLDOWN_MS
    ensures InOrder(INIT, FirstReset(u, a, code, t))
    ensures var s := After(INIT, FirstReset(u, a, code, t));
            && s.log != [] && s.log[|s.log| - 1] == Use(a, u, TokenOf(u, a, code, t), t) && s.clock == t
            && a in s.rows && RequestRetryAfter(s.rows[a], t).None? && VerifyRetryAfter(s.rows[a], t).None?
  {
    var begin := [Register(u, a, Password(0, 0)), VerifyEmail(u),
                  RequestCode(a, Some(u), code, t - RESEND_COOLDOWN_MS)];
    Begins(u, a, code, t);
    var s := After(INIT, begin);
    NothingIsRefused(s.rows[a], TokenOf(u, a, code, t), t);
    Completes(s, u, a, code, 0, t);
    AfterConcat(INIT, begin, Reset(u, a, code, 0, t));
  }

  /** For every account, address, code and time there is a run in which the condition is met. */
  lemma ConditionCanBeMet(u: nat, a: nat, code: nat, t: int)
    requires t >= RESEND_COOLDOWN_MS
    ensures InOrder(INIT, FirstReset(u, a, code, t))
    ensures var s := After(INIT, FirstReset(u, a, code, t));
            && s.log != [] && s.log[|s.log| - 1] == Use(a, u, TokenOf(u, a, code, t), t)
            && exists more :: UsesAgain(s, more, TokenOf(u, a, code, t))
  {
    FirstResetCompletes(u, a, code, t);
    SecondUseCondition(FirstReset(u, a, code, t), Use(a, u, TokenOf(u, a, code, t), t));
  }
}
