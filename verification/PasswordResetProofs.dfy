/** What every run of requests, codes and completions keeps, whatever the order of the clock readings. */
module PasswordResetProofs {
  import opened Basics
  import opened PasswordReset

  // ------------------------------------------------------------------ counting

  lemma CountGrows(log: seq<Entry>, e: Entry, q: Query)
    ensures Count(log + [e], q) == Count(log, q) + if Matches(q, e) then 1 else 0
  {
    assert (log + [e])[..|log|] == log;
  }

  lemma {:induction false} NothingMatches(log: seq<Entry>, q: Query)
    requires forall e :: e in log ==> !Matches(q, e)
    ensures Count(log, q) == 0
  {
    if log != [] {
      NothingMatches(log[..|log| - 1], q);
    }
  }

  predicate IsCapped(q: Query) {
    q.MissesOf? || q.MissesIn? || q.RequestsIn?
  }

  function Cap(q: Query): nat {
    if q.MissesIn? then WINDOW_MAX_FAILED_ATTEMPTS else 5
  }

  ghost predicate Capped(log: seq<Entry>, q: Query) {
    IsCapped(q) ==> Count(log, q) <= Cap(q)
  }

  // ------------------------------------------------------------------ the invariant

  predicate HasWindow(e: Entry) {
    e.Request? || e.Miss?
  }

  predicate HasChallenge(e: Entry) {
    e.Request? || e.Miss? || e.Grant?
  }

  predicate ApartOrSame(v: int, w: int) {
    v == w || v + WINDOW_MS <= w || w + WINDOW_MS <= v
  }

  /** What one entry says by itself. */
  predicate EntryOk(e: Entry) {
    && (HasWindow(e) ==> e.at < e.window + WINDOW_MS)
    && (HasChallenge(e) ==> e.expiresAt == e.challenge + CODE_TTL_MS && e.at < e.expiresAt)
  }

  /** What a later entry f of the same address says about an earlier e. */
  predicate PairOk(e: Entry, f: Entry) {
    e.address == f.address ==>
      && (e.Request? && f.Request? ==> e.at + RESEND_COOLDOWN_MS <= f.at)
      && (HasWindow(e) && HasWindow(f) ==> ApartOrSame(e.window, f.window))
      && (e.Grant? && f.Grant? && e.challenge == f.challenge ==> e.token == f.token)
  }

  /** The token of the row's accepted code. */
  predicate IsGrantOf(row: Challenge, token: Token) {
    && row.verifiedAt == Some(token.verifiedAt)
    && (row.completedAt.None? ==> row.userId == Some(token.userId) && row.codeHash == Some(token.codeHash))
  }

  /** The row bounds every entry of its address. */
  predicate Bounds(row: Challenge, e: Entry) {
    && (HasWindow(e) ==> e.window == row.window.startedAt || e.window + WINDOW_MS <= row.window.startedAt)
    && (HasChallenge(e) ==> e.challenge <= row.startedAt)
    && (e.Request? ==> e.at <= row.lastRequestedAt)
    && (e.Grant? && e.challenge == row.startedAt ==> IsGrantOf(row, e.token))
    && (e.Grant? ==> e.token.address == e.address)
  }

  ghost predicate CountsOk(log: seq<Entry>, a: nat, row: Challenge) {
    && row.attempts == Count(log, MissesOf(a, row.startedAt)) <= MAX_CODE_ATTEMPTS
    && row.window.failed == Count(log, MissesIn(a, row.window.startedAt)) <= WINDOW_MAX_FAILED_ATTEMPTS
    && Count(log, RequestsIn(a, row.window.startedAt)) <= row.window.requests <= WINDOW_MAX_REQUESTS
  }

  predicate TokenOk(a: nat, row: Challenge) {
    && row.startedAt <= row.lastRequestedAt && row.expiresAt == row.startedAt + CODE_TTL_MS
    && (row.tokenExpiresAt.Some? ==> row.tokenExpiresAt.value <= row.expiresAt)
    && (row.codeHash.Some? ==> row.userId.Some? && row.codeHash.value.address == a)
    && (row.token.Some? ==>
          && row.verifiedAt.Some? && row.userId.Some? && row.codeHash.Some?
          && row.token.value == Token(a, row.userId.value, row.codeHash.value, row.verifiedAt.value))
  }

  ghost predicate RowOk(log: seq<Entry>, a: nat, row: Challenge) {
    && CountsOk(log, a, row)
    && TokenOk(a, row)
    && (forall e :: e in log && e.address == a ==> Bounds(row, e))
  }

  ghost predicate LogOk(log: seq<Entry>) {
    && (forall e :: e in log ==> EntryOk(e))
    && (forall i, j :: 0 <= i < j < |log| ==> PairOk(log[i], log[j]))
    && (forall q: Query :: Capped(log, q))
  }

  ghost predicate RowsOk(log: seq<Entry>, rows: map<nat, Challenge>) {
    && (forall a :: a in rows ==> RowOk(log, a, rows[a]))
    && (forall e :: e in log ==> e.address in rows)
  }

  ghost predicate Inv(s: State) {
    LogOk(s.log) && RowsOk(s.log, s.rows)
  }

  // ------------------------------------------------------------------ one more entry

  lemma OtherRowsStay(log: seq<Entry>, e: Entry, b: nat, row: Challenge)
    requires RowOk(log, b, row) && e.address != b
    ensures RowOk(log + [e], b, row)
  {
    CountGrows(log, e, MissesOf(b, row.startedAt));
    CountGrows(log, e, MissesIn(b, row.window.startedAt));
    CountGrows(log, e, RequestsIn(b, row.window.startedAt));
  }

  /** An entry fits the log when it fits each earlier one and what it counts toward has room. */
  lemma LogGrows(log: seq<Entry>, e: Entry)
    requires LogOk(log) && EntryOk(e)
    requires forall f :: f in log ==> PairOk(f, e)
    requires forall q: Query :: IsCapped(q) && Matches(q, e) ==> Count(log, q) < Cap(q)
    ensures LogOk(log + [e])
  {
    forall q: Query ensures Capped(log + [e], q) {
      CountGrows(log, e, q);
      assert Capped(log, q);
    }
    forall i, j | 0 <= i < j < |log + [e]| ensures PairOk((log + [e])[i], (log + [e])[j]) {
      if j == |log| {
        assert log[i] in log;
      } else {
        assert PairOk(log[i], log[j]);
      }
    }
  }

  lemma InvGrows(s: State, a: nat, row: Challenge, e: Entry, s': State)
    requires RowsOk(s.log, s.rows) && e.address == a && LogOk(s.log + [e]) && RowOk(s.log + [e], a, row)
    requires s'.rows == s.rows[a := row] && s'.log == s.log + [e]
    ensures Inv(s')
  {
    forall b | b in s'.rows ensures RowOk(s'.log, b, s'.rows[b]) {
      if b != a {
        OtherRowsStay(s.log, e, b, s.rows[b]);
      }
    }
  }

  // ------------------------------------------------------------------ requests

  lemma NoneYet(log: seq<Entry>, a: nat, q: Query)
    requires IsCapped(q) && q.address == a && forall e :: e in log ==> e.address != a
    ensures Count(log, q) == 0
  {
    NothingMatches(log, q);
  }

  lemma FirstRequestKeepsInv(s: State, a: nat, account: Option<nat>, code: nat, t: int)
    requires Inv(s) && a !in s.rows
    ensures Inv(AfterRequest(s, a, account, code, t))
  {
    if IsAccount(s.users, a, account) {
      var row := FirstChallenge(a, account, code, t);
      var e := Request(a, row.startedAt, row.window.startedAt, t, row.expiresAt);
      FirstEntryFits(s, a, e, row);
      InvGrows(s, a, row, e, AfterRequest(s, a, account, code, t));
    }
  }

  lemma FirstEntryFits(s: State, a: nat, e: Entry, row: Challenge)
    requires Inv(s) && a !in s.rows
             && e == Request(a, row.startedAt, row.window.startedAt, row.startedAt, row.expiresAt)
    requires row.expiresAt == row.startedAt + CODE_TTL_MS && row.window == Window(row.startedAt, 1, 0)
    requires row.attempts == 0 && row.lastRequestedAt == row.startedAt && TokenOk(a, row)
    ensures LogOk(s.log + [e]) && RowOk(s.log + [e], a, row)
  {
    forall f | f in s.log ensures f.address != a {
    }
    forall q: Query | IsCapped(q) && q.address == a ensures Count(s.log, q) == 0 {
      NoneYet(s.log, a, q);
    }
    LogGrows(s.log, e);
    FirstRowFits(s.log, a, e, row);
  }

  lemma FirstRowFits(log: seq<Entry>, a: nat, e: Entry, row: Challenge)
    requires e == Request(a, row.startedAt, row.window.startedAt, row.startedAt, row.expiresAt)
    requires row.window == Window(row.startedAt, 1, 0) && row.attempts == 0 && TokenOk(a, row)
    requires row.lastRequestedAt == row.startedAt && forall f :: f in log ==> f.address != a
    ensures RowOk(log + [e], a, row)
  {
    NoneYet(log, a, MissesOf(a, row.startedAt));
    NoneYet(log, a, MissesIn(a, row.window.startedAt));
    NoneYet(log, a, RequestsIn(a, row.window.startedAt));
    CountGrows(log, e, MissesOf(a, row.startedAt));
    CountGrows(log, e, MissesIn(a, row.window.startedAt));
    CountGrows(log, e, RequestsIn(a, row.window.startedAt));
  }

  /** A window that starts now has no entry yet; the current one has what its row counts at most. */
  lemma WindowCounts(log: seq<Entry>, a: nat, row: Challenge, now: int)
    requires RowOk(log, a, row)
    ensures var w := CurrentWindow(row.window, now);
            && Count(log, RequestsIn(a, w.startedAt)) <= w.requests
            && Count(log, MissesIn(a, w.startedAt)) == w.failed
            && (w.startedAt != row.window.startedAt ==> w.startedAt == now && Count(log, RequestsIn(a, now)) == 0)
  {
    if now >= row.window.startedAt + WINDOW_MS {
      forall e | e in log ensures !Matches(RequestsIn(a, now), e) && !Matches(MissesIn(a, now), e) {
        assert e.address == a ==> Bounds(row, e);
      }
      NothingMatches(log, RequestsIn(a, now));
      NothingMatches(log, MissesIn(a, now));
    }
  }

  /** A challenge that starts now has no entry yet. */
  lemma ChallengeCounts(log: seq<Entry>, a: nat, row: Challenge, now: int)
    requires RowOk(log, a, row) && now > row.startedAt
    ensures Count(log, MissesOf(a, now)) == 0
  {
    forall e | e in log ensures !Matches(MissesOf(a, now), e) {
      assert e.address == a ==> Bounds(row, e);
    }
    NothingMatches(log, MissesOf(a, now));
  }

  lemma AdmittedMeans(row: Challenge, now: int)
    requires RequestRetryAfter(row, now).None?
    ensures now >= row.lastRequestedAt + RESEND_COOLDOWN_MS
    ensures CurrentWindow(row.window, now).requests < WINDOW_MAX_REQUESTS
  {
  }

  lemma RequestKeepsCounts(log: seq<Entry>, a: nat, row: Challenge, row': Challenge, e: Entry, now: int)
    requires RowOk(log, a, row) && RequestRetryAfter(row, now).None?
    requires row'.window == CurrentWindow(row.window, now).(requests := CurrentWindow(row.window, now).requests + 1)
    requires if row'.startedAt == row.startedAt
             then row'.attempts == row.attempts
             else row'.attempts == 0 && row'.startedAt == now
    requires e.Request? && e.address == a && e.challenge == row'.startedAt && e.window == row'.window.startedAt
    ensures CountsOk(log + [e], a, row')
    ensures Count(log, RequestsIn(a, e.window)) < WINDOW_MAX_REQUESTS
  {
    AdmittedMeans(row, now);
    WindowCounts(log, a, row, now);
    if row'.startedAt != row.startedAt {
      ChallengeCounts(log, a, row, now);
    }
    CountGrows(log, e, MissesOf(a, row'.startedAt));
    CountGrows(log, e, MissesIn(a, row'.window.startedAt));
    CountGrows(log, e, RequestsIn(a, row'.window.startedAt));
  }

  lemma LaterRequestFits(log: seq<Entry>, a: nat, row: Challenge, account: Option<nat>, code: nat, t: int,
      row': Challenge, e: Entry)
    requires LogOk(log) && RowOk(log, a, row) && RequestRetryAfter(row, t).None?
    requires row' == Rerequested(row, a, account, code, t)
    requires e == Request(a, row'.startedAt, row'.window.startedAt, t, row'.expiresAt)
    ensures LogOk(log + [e]) && RowOk(log + [e], a, row')
  {
    AdmittedMeans(row, t);
    RequestKeepsCounts(log, a, row, row', e, t);
    RequestBounds(log, a, row, account, code, t, row', e);
    LogGrows(log, e);
  }

  function RequestEntry(a: nat, row: Challenge, t: int): Entry {
    Request(a, row.startedAt, row.window.startedAt, t, row.expiresAt)
  }

  /** What a later request that is noted does. */
  lemma LaterRequestNotes(s: State, a: nat, account: Option<nat>, code: nat, t: int)
    requires a in s.rows && AfterRequest(s, a, account, code, t).log != s.log
    ensures RequestRetryAfter(s.rows[a], t).None?
    ensures var (s', row) := (AfterRequest(s, a, account, code, t), Rerequested(s.rows[a], a, account, code, t));
            s'.rows == s.rows[a := row] && s'.log == s.log + [RequestEntry(a, row, t)]
  {
  }

  lemma LaterRequestKeepsInv(s: State, a: nat, account: Option<nat>, code: nat, t: int)
    requires Inv(s) && a in s.rows
    ensures Inv(AfterRequest(s, a, account, code, t))
  {
    var s' := AfterRequest(s, a, account, code, t);
    if s'.log != s.log {
      LaterRequestNotes(s, a, account, code, t);
      var row := Rerequested(s.rows[a], a, account, code, t);
      LaterRequestFits(s.log, a, s.rows[a], account, code, t, row, RequestEntry(a, row, t));
      InvGrows(s, a, row, RequestEntry(a, row, t), s');
    }
  }

  lemma RequestBounds(log: seq<Entry>, a: nat, row: Challenge, account: Option<nat>, code: nat, now: int,
      row': Challenge, e: Entry)
    requires RowOk(log, a, row) && RequestRetryAfter(row, now).None?
    requires row' == Rerequested(row, a, account, code, now)
    requires e == Request(a, row'.startedAt, row'.window.startedAt, now, row'.expiresAt)
    ensures EntryOk(e) && TokenOk(a, row') && Bounds(row', e)
    ensures forall f :: f in log ==> PairOk(f, e) && (f.address == a ==> Bounds(row', f))
  {
    AdmittedMeans(row, now);
    forall f | f in log ensures PairOk(f, e) && (f.address == a ==> Bounds(row', f)) {
      if f.address == a {
        assert Bounds(row, f);
      }
    }
  }

  // ------------------------------------------------------------------ codes

  lemma WrongCodeKeepsInv(s: State, a: nat, account: Option<nat>, code: nat, t: int)
    requires Inv(s) && a in s.rows && Judge(s.rows[a], a, account, code, t) == Wrong
    ensures Inv(AfterVerify(s, a, account, code, t))
  {
    if IsAccount(s.users, a, account) {
      var row := s.rows[a];
      var row' := Missed(row, t);
      var e := Miss(a, row'.startedAt, row'.window.startedAt, t, row'.expiresAt);
      MissKeepsCounts(s.log, a, row, row', e, t);
      MissBounds(s.log, a, row, row', e, t);
      LogGrows(s.log, e);
      InvGrows(s, a, row', e, AfterVerify(s, a, account, code, t));
    }
  }

  lemma MissKeepsCounts(log: seq<Entry>, a: nat, row: Challenge, row': Challenge, e: Entry, now: int)
    requires RowOk(log, a, row) && VerifyRetryAfter(row, now).None? && StateAt(row, now) != Ended
    requires row' == Missed(row, now) && e == Miss(a, row'.startedAt, row'.window.startedAt, now, row'.expiresAt)
    ensures CountsOk(log + [e], a, row')
    ensures forall q: Query :: IsCapped(q) && Matches(q, e) ==> Count(log, q) < Cap(q)
  {
    WindowCounts(log, a, row, now);
    CountGrows(log, e, MissesOf(a, row'.startedAt));
    CountGrows(log, e, MissesIn(a, row'.window.startedAt));
    CountGrows(log, e, RequestsIn(a, row'.window.startedAt));
  }

  lemma MissBounds(log: seq<Entry>, a: nat, row: Challenge, row': Challenge, e: Entry, now: int)
    requires RowOk(log, a, row) && StateAt(row, now) != Ended
    requires row' == Missed(row, now) && e == Miss(a, row'.startedAt, row'.window.startedAt, now, row'.expiresAt)
    ensures EntryOk(e) && TokenOk(a, row') && Bounds(row', e)
    ensures forall f :: f in log ==> PairOk(f, e) && (f.address == a ==> Bounds(row', f))
  {
    forall f | f in log ensures PairOk(f, e) && (f.address == a ==> Bounds(row', f)) {
      if f.address == a {
        assert Bounds(row, f);
      }
    }
  }

  lemma RightCodeKeepsInv(s: State, a: nat, account: Option<nat>, code: nat, t: int)
    requires Inv(s) && a in s.rows && Judge(s.rows[a], a, account, code, t).Right?
    ensures Inv(AfterVerify(s, a, account, code, t))
  {
    if IsAccount(s.users, a, account) {
      var row := s.rows[a];
      var verdict := Judge(row, a, account, code, t);
      var row' := Judged(row, verdict, t);
      var e := Grant(a, row'.startedAt, verdict.token, t, row'.expiresAt);
      GrantKeepsCounts(s.log, a, row, row', e);
      GrantBounds(s.log, a, row, account, code, row', e, t);
      LogGrows(s.log, e);
      InvGrows(s, a, row', e, AfterVerify(s, a, account, code, t));
    }
  }

  lemma GrantKeepsCounts(log: seq<Entry>, a: nat, row: Challenge, row': Challenge, e: Entry)
    requires RowOk(log, a, row) && (e.Grant? || e.Use?)
    requires row'.attempts == row.attempts && row'.startedAt == row.startedAt && row'.window == row.window
    ensures CountsOk(log + [e], a, row')
  {
    CountGrows(log, e, MissesOf(a, row'.startedAt));
    CountGrows(log, e, MissesIn(a, row'.window.startedAt));
    CountGrows(log, e, RequestsIn(a, row'.window.startedAt));
  }

  lemma GrantBounds(log: seq<Entry>, a: nat, row: Challenge, account: Option<nat>, code: nat, row': Challenge,
      e: Entry, now: int)
    requires RowOk(log, a, row) && Judge(row, a, account, code, now).Right?
    requires row' == Judged(row, Judge(row, a, account, code, now), now)
    requires e == Grant(a, row'.startedAt, Judge(row, a, account, code, now).token, now, row'.expiresAt)
    ensures EntryOk(e) && TokenOk(a, row') && Bounds(row', e)
    ensures forall f :: f in log ==> PairOk(f, e) && (f.address == a ==> Bounds(row', f))
  {
    forall f | f in log ensures PairOk(f, e) && (f.address == a ==> Bounds(row', f)) {
      if f.address == a {
        assert Bounds(row, f);
      }
    }
  }

  lemma VerifyKeepsInv(s: State, a: nat, account: Option<nat>, code: nat, t: int)
    requires Inv(s)
    ensures Inv(AfterVerify(s, a, account, code, t))
  {
    if IsAccount(s.users, a, account) && a in s.rows {
      match Judge(s.rows[a], a, account, code, t)
      case Wrong => WrongCodeKeepsInv(s, a, account, code, t);
      case Right(_, _) => RightCodeKeepsInv(s, a, account, code, t);
      case _ =>
    }
  }

  // ------------------------------------------------------------------ completions and deliveries

  lemma UseBounds(log: seq<Entry>, a: nat, row: Challenge, e: Entry, t: int)
    requires RowOk(log, a, row) && e.Use? && e.address == a
    ensures EntryOk(e) && TokenOk(a, Completed(row, t)) && Bounds(Completed(row, t), e)
    ensures forall f :: f in log ==> PairOk(f, e) && (f.address == a ==> Bounds(Completed(row, t), f))
  {
    forall f | f in log ensures PairOk(f, e) && (f.address == a ==> Bounds(Completed(row, t), f)) {
      if f.address == a {
        assert Bounds(row, f);
      }
    }
  }

  lemma CommitKeepsInv(s: State, w: nat, password: Password, t: int)
    requires Inv(s)
    ensures Inv(AfterCompleteCommit(s, w, password, t))
  {
    if w in s.completions && Commits(s, s.completions[w], t) {
      var p := s.completions[w];
      var row := s.rows[p.address];
      var e := Use(p.address, p.userId, p.token, t);
      UseBounds(s.log, p.address, row, e, t);
      GrantKeepsCounts(s.log, p.address, row, Completed(row, t), e);
      LogGrows(s.log, e);
      InvGrows(s, p.address, Completed(row, t), e, AfterCompleteCommit(s, w, password, t));
    }
  }

  lemma DeliverKeepsRow(log: seq<Entry>, a: nat, row: Challenge, id: nat, status: SendStatus, t: int)
    requires RowOk(log, a, row)
    ensures RowOk(log, a, Delivered(row, id, status, t))
  {
    forall e | e in log && e.address == a ensures Bounds(Delivered(row, id, status, t), e) {
      assert Bounds(row, e);
    }
  }

  lemma DeliverKeepsInv(s: State, a: nat, id: nat, status: SendStatus, t: int)
    requires Inv(s)
    ensures Inv(Apply(s, Deliver(a, id, status, t)))
  {
    if a in s.rows {
      DeliverKeepsRow(s.log, a, s.rows[a], id, status, t);
    }
  }

  lemma RequestKeepsInv(s: State, a: nat, account: Option<nat>, code: nat, t: int)
    requires Inv(s)
    ensures Inv(AfterRequest(s, a, account, code, t))
  {
    if a in s.rows {
      LaterRequestKeepsInv(s, a, account, code, t);
    } else {
      FirstRequestKeepsInv(s, a, account, code, t);
    }
  }

  /** What a verification that is noted does. */
  lemma VerifyNotes(s: State, a: nat, account: Option<nat>, code: nat, t: int)
    requires AfterVerify(s, a, account, code, t).log != s.log
    ensures var s' := Apply(s, VerifyCode(a, account, code, t));
            && a in s.rows && s'.rows == s.rows[a := Judged(s.rows[a], Judge(s.rows[a], a, account, code, t), t)]
            && s'.rows[a].userId == s.rows[a].userId && s'.users == s.users && s'.completions == s.completions
            && s'.sessions == s.sessions && s'.logins == s.logins
            && |s'.log| == |s.log| + 1 && s'.log == s.log + [s'.log[|s.log|]]
            && var e := s'.log[|s.log|];
               !e.Use? && e.address == a && e.at == t && (HasWindow(e) ==> e.window == s'.rows[a].window.startedAt)
  {
  }

  /** What a completion that is noted does. */
  lemma CommitNotes(s: State, w: nat, password: Password, t: int)
    requires AfterCompleteCommit(s, w, password, t).log != s.log
    ensures w in s.completions && Commits(s, s.completions[w], t)
    ensures var (s', p) := (Apply(s, CompleteCommit(w, password, t)), s.completions[w]);
            && s'.users == s.users[p.userId := WithNewPassword(s.users[p.userId], password)]
            && s'.rows == s.rows[p.address := Completed(s.rows[p.address], t)]
            && s'.log == s.log + [Use(p.address, p.userId, p.token, t)]
            && s'.sessions == s.sessions && s'.logins == s.logins && s'.completions == s.completions - {w}
  {
  }

  /** Steps that touch neither a challenge nor the history. */
  predicate IsQuiet(e: Event) {
    !e.RequestCode? && !e.VerifyCode? && !e.CompleteCommit? && !e.Deliver?
  }

  lemma QuietSteps(s: State, e: Event)
    requires IsQuiet(e)
    ensures Apply(s, e).rows == s.rows && Apply(s, e).log == s.log
    ensures Timely(s, e) ==> Apply(s, e).clock >= s.clock
  {
  }

  lemma ApplyKeepsInv(s: State, e: Event)
    requires Inv(s)
    ensures Inv(Apply(s, e))
  {
    match e
    case RequestCode(a, account, code, t) => RequestKeepsInv(s, a, account, code, t);
    case VerifyCode(a, account, code, t) => VerifyKeepsInv(s, a, account, code, t);
    case CompleteCommit(w, p, t) => CommitKeepsInv(s, w, p, t);
    case Deliver(a, id, status, t) => DeliverKeepsInv(s, a, id, status, t);
    case _ => QuietSteps(s, e);
  }

  lemma {:induction false} EveryRunKeepsInv(events: seq<Event>)
    ensures Inv(After(INIT, events))
  {
    if events == [] {
    } else {
      EveryRunKeepsInv(events[..|events| - 1]);
      ApplyKeepsInv(After(INIT, events[..|events| - 1]), events[|events| - 1]);
    }
  }

  // ------------------------------------------------------------------ the limits, for every run

  /** A challenge counts five wrong codes at most, however often it is resent. */
  lemma ChallengeTakesFiveWrongCodes(events: seq<Event>, a: nat, challenge: int)
    ensures Count(After(INIT, events).log, MissesOf(a, challenge)) <= 5
  {
    EveryRunKeepsInv(events);
    assert Capped(After(INIT, events).log, MissesOf(a, challenge));
  }

  /** Each window counts ten wrong codes and five requests at most. */
  lemma WindowTakesItsLimits(events: seq<Event>, a: nat, window: int)
    ensures Count(After(INIT, events).log, MissesIn(a, window)) <= 10
    ensures Count(After(INIT, events).log, RequestsIn(a, window)) <= 5
  {
    EveryRunKeepsInv(events);
    assert Capped(After(INIT, events).log, MissesIn(a, window))
           && Capped(After(INIT, events).log, RequestsIn(a, window));
  }

  /** A challenge's expiry never moves: everything on it happens within half an hour of its start. */
  lemma ExpiryNeverMoves(events: seq<Event>, e: Entry)
    requires e in After(INIT, events).log && HasChallenge(e)
    ensures e.expiresAt == e.challenge + CODE_TTL_MS && e.at < e.expiresAt
  {
    EveryRunKeepsInv(events);
  }

  /** Accepted requests for an address are a minute apart. */
  lemma RequestsAreAMinuteApart(events: seq<Event>, i: nat, j: nat)
    requires i < j < |After(INIT, events).log|
    ensures var (e, f) := (After(INIT, events).log[i], After(INIT, events).log[j]);
            e.Request? && f.Request? && e.address == f.address ==> e.at + 60_000 <= f.at
  {
    EveryRunKeepsInv(events);
    assert PairOk(After(INIT, events).log[i], After(INIT, events).log[j]);
  }

  /** Repeating the accepted code of a challenge gives the token it gave before. */
  lemma RepeatedCodeGivesTheSameToken(events: seq<Event>, i: nat, j: nat)
    requires i < j < |After(INIT, events).log|
    ensures var (e, f) := (After(INIT, events).log[i], After(INIT, events).log[j]);
            e.Grant? && f.Grant? && e.address == f.address && e.challenge == f.challenge ==> e.token == f.token
  {
    EveryRunKeepsInv(events);
    assert PairOk(After(INIT, events).log[i], After(INIT, events).log[j]);
  }
}
