/** What runs keep when no clock reading is older than the one before it. */
module PasswordResetOrder {
  import opened Basics
  import opened PasswordReset
  import opened PasswordResetProofs

  // ------------------------------------------------------------------ any hour

  predicate InHour(e: Entry, a: nat, from: int) {
    HasWindow(e) && e.address == a && from <= e.at < from + WINDOW_MS
  }

  /** Entries come after their window opened, and before it ended. */
  ghost predicate WindowsHold(log: seq<Entry>) {
    && (forall e :: e in log && HasWindow(e) ==> e.window <= e.at < e.window + WINDOW_MS)
    && (forall i, j :: 0 <= i < j < |log| ==> PairOk(log[i], log[j]))
  }

  lemma WindowsAreApart(log: seq<Entry>, e: Entry, f: Entry)
    requires WindowsHold(log) && e in log && f in log && HasWindow(e) && HasWindow(f) && e.address == f.address
    ensures ApartOrSame(e.window, f.window)
  {
    var i :| 0 <= i < |log| && log[i] == e;
    var j :| 0 <= j < |log| && log[j] == f;
    if i < j {
      assert PairOk(log[i], log[j]);
    } else if j < i {
      assert PairOk(log[j], log[i]);
    }
  }

  /** An hour meets two windows of an address at most. */
  lemma HourMeetsTwoWindows(log: seq<Entry>, a: nat, from: int) returns (v: int, w: int)
    requires WindowsHold(log)
    ensures forall e :: e in log && InHour(e, a, from) ==> e.window == v || e.window == w
  {
    if e :| e in log && InHour(e, a, from) {
      v := e.window;
      if f :| f in log && InHour(f, a, from) && f.window != v {
        w := f.window;
        forall g | g in log && InHour(g, a, from) ensures g.window == v || g.window == w {
          WindowsAreApart(log, e, f);
          WindowsAreApart(log, e, g);
          WindowsAreApart(log, f, g);
        }
      } else {
        w := v;
      }
    } else {
      v, w := 0, 0;
    }
  }

  lemma {:induction false} CountedByTwo(log: seq<Entry>, q: Query, x: Query, y: Query)
    requires forall e :: e in log && Matches(q, e) ==> Matches(x, e) || Matches(y, e)
    ensures Count(log, q) <= Count(log, x) + Count(log, y)
  {
    if log != [] {
      CountedByTwo(log[..|log| - 1], q, x, y);
      assert log[|log| - 1] in log;
    }
  }

  // ------------------------------------------------------------------ the order

  predicate EntryInOrder(e: Entry, clock: int) {
    && e.at <= clock
    && (HasWindow(e) ==> e.window <= e.at)
    && (e.Use? ==> e.token.verifiedAt <= e.at && e.token.address == e.address)
  }

  predicate RowInOrder(row: Challenge, clock: int) {
    row.window.startedAt <= clock && (row.verifiedAt.Some? ==> row.verifiedAt.value <= clock)
  }

  /** A token still stored was made no earlier than the address's last completion. */
  predicate UsedBefore(e: Entry, a: nat, row: Challenge) {
    e.Use? && e.address == a && row.token.Some? && row.verifiedAt.Some? ==> e.at <= row.verifiedAt.value
  }

  predicate UsedOnce(e: Entry, f: Entry) {
    e.Use? && f.Use? && e.token == f.token ==> e.at == e.token.verifiedAt
  }

  ghost predicate TimesInOrder(s: State) {
    && (forall e :: e in s.log ==> EntryInOrder(e, s.clock))
    && (forall a :: a in s.rows ==> RowInOrder(s.rows[a], s.clock))
  }

  ghost predicate UsesInOrder(log: seq<Entry>, rows: map<nat, Challenge>) {
    && (forall e, a :: e in log && a in rows ==> UsedBefore(e, a, rows[a]))
    && (forall i, j :: 0 <= i < j < |log| ==> UsedOnce(log[i], log[j]))
  }

  ghost predicate OrderInv(s: State) {
    TimesInOrder(s) && UsesInOrder(s.log, s.rows)
  }

  lemma UsesGrow(log: seq<Entry>, rows: map<nat, Challenge>, a: nat, row: Challenge, e: Entry)
    requires UsesInOrder(log, rows) && forall f :: f in log ==> UsedBefore(f, a, row) && UsedOnce(f, e)
    requires e.Use? ==> e.address == a && row.token.None?
    ensures UsesInOrder(log + [e], rows[a := row])
  {
    var (log', rows') := (log + [e], rows[a := row]);
    forall f, b | f in log' && b in rows' ensures UsedBefore(f, b, rows'[b]) {
      if b != a && f in log {
        assert UsedBefore(f, b, rows[b]);
      }
    }
    forall i, j | 0 <= i < j < |log'| ensures UsedOnce(log'[i], log'[j]) {
      if j == |log| {
        assert log[i] in log;
      } else {
        assert UsedOnce(log[i], log[j]);
      }
    }
  }

  lemma TimesGrow(s: State, a: nat, row: Challenge, e: Entry, s': State)
    requires TimesInOrder(s) && s'.clock >= s.clock && EntryInOrder(e, s'.clock) && RowInOrder(row, s'.clock)
    requires s'.rows == s.rows[a := row] && s'.log == s.log + [e]
    ensures TimesInOrder(s')
  {
    forall f | f in s'.log ensures EntryInOrder(f, s'.clock) {
      assert f in s.log ==> EntryInOrder(f, s.clock);
    }
    forall b | b in s'.rows ensures RowInOrder(s'.rows[b], s'.clock) {
      assert b in s.rows ==> RowInOrder(s.rows[b], s.clock);
    }
  }

  lemma OrderGrows(s: State, a: nat, row: Challenge, e: Entry, s': State)
    requires OrderInv(s) && s'.clock >= s.clock && EntryInOrder(e, s'.clock) && RowInOrder(row, s'.clock)
    requires s'.rows == s.rows[a := row] && s'.log == s.log + [e]
    requires forall f :: f in s.log ==> UsedBefore(f, a, row) && UsedOnce(f, e)
    requires e.Use? ==> e.address == a && row.token.None?
    ensures OrderInv(s')
  {
    TimesGrow(s, a, row, e, s');
    UsesGrow(s.log, s.rows, a, row, e);
  }

  lemma OrderStays(s: State, s': State)
    requires OrderInv(s) && s'.clock >= s.clock && s'.rows == s.rows && s'.log == s.log
    ensures OrderInv(s')
  {
    forall f | f in s'.log ensures EntryInOrder(f, s'.clock) {
    }
    forall b | b in s'.rows ensures RowInOrder(s'.rows[b], s'.clock) {
    }
  }

  lemma RequestInOrder(s: State, a: nat, account: Option<nat>, code: nat, t: int)
    requires Inv(s) && OrderInv(s) && t >= s.clock
    ensures OrderInv(Apply(s, RequestCode(a, account, code, t)))
  {
    var s' := Apply(s, RequestCode(a, account, code, t));
    if s'.log == s.log {
      OrderStays(s, s');
    } else {
      var row := s'.rows[a];
      if a in s.rows {
        assert RowInOrder(s.rows[a], s.clock) && TokenOk(a, s.rows[a]);
      }
      assert row.token.None?;
      OrderGrows(s, a, row, Request(a, row.startedAt, row.window.startedAt, t, row.expiresAt), s');
    }
  }

  lemma JudgedInOrder(e: Entry, a: nat, row: Challenge, verdict: Verdict, t: int)
    requires UsedBefore(e, a, row) && e.at <= t
    ensures UsedBefore(e, a, Judged(row, verdict, t))
  {
  }

  lemma JudgedStaysInOrder(log: seq<Entry>, rows: map<nat, Challenge>, a: nat, verdict: Verdict, t: int, e: Entry)
    requires UsesInOrder(log, rows) && a in rows && !e.Use? && forall f :: f in log ==> f.at <= t
    ensures UsesInOrder(log + [e], rows[a := Judged(rows[a], verdict, t)])
  {
    var row := Judged(rows[a], verdict, t);
    forall f | f in log ensures UsedBefore(f, a, row) && UsedOnce(f, e) {
      assert UsedBefore(f, a, rows[a]);
      JudgedInOrder(f, a, rows[a], verdict, t);
    }
    UsesGrow(log, rows, a, row, e);
  }

  lemma VerifyInOrder(s: State, a: nat, account: Option<nat>, code: nat, t: int)
    requires Inv(s) && OrderInv(s) && t >= s.clock
    ensures OrderInv(Apply(s, VerifyCode(a, account, code, t)))
  {
    var s' := Apply(s, VerifyCode(a, account, code, t));
    if s'.log == s.log {
      OrderStays(s, s');
    } else {
      VerifyNotes(s, a, account, code, t);
      var verdict := Judge(s.rows[a], a, account, code, t);
      assert RowInOrder(s.rows[a], s.clock);
      TimesGrow(s, a, Judged(s.rows[a], verdict, t), s'.log[|s.log|], s');
      forall f | f in s.log ensures f.at <= t {
        assert EntryInOrder(f, s.clock);
      }
      JudgedStaysInOrder(s.log, s.rows, a, verdict, t, s'.log[|s.log|]);
    }
  }

  lemma CommitInOrder(s: State, w: nat, password: Password, t: int)
    requires Inv(s) && OrderInv(s) && t >= s.clock
    ensures OrderInv(Apply(s, CompleteCommit(w, password, t)))
  {
    var s' := Apply(s, CompleteCommit(w, password, t));
    if s'.log == s.log {
      OrderStays(s, s');
    } else {
      CommitNotes(s, w, password, t);
      var p := s.completions[w];
      var row := s.rows[p.address];
      assert RowInOrder(row, s.clock) && TokenOk(p.address, row);
      forall f | f in s.log ensures UsedOnce(f, Use(p.address, p.userId, p.token, t)) {
        assert UsedBefore(f, p.address, row) && EntryInOrder(f, s.clock);
      }
      OrderGrows(s, p.address, Completed(row, t), Use(p.address, p.userId, p.token, t), s');
    }
  }

  lemma DeliverInOrder(s: State, a: nat, id: nat, status: SendStatus, t: int)
    requires OrderInv(s)
    ensures OrderInv(Apply(s, Deliver(a, id, status, t)))
  {
    if a in s.rows {
      var s' := Apply(s, Deliver(a, id, status, t));
      forall b | b in s'.rows ensures RowInOrder(s'.rows[b], s'.clock) {
        assert RowInOrder(s.rows[b], s.clock);
      }
      forall e, b | e in s'.log && b in s'.rows ensures UsedBefore(e, b, s'.rows[b]) {
        assert UsedBefore(e, b, s.rows[b]);
      }
    }
  }

  lemma ApplyKeepsOrder(s: State, e: Event)
    requires Inv(s) && OrderInv(s) && Timely(s, e)
    ensures OrderInv(Apply(s, e))
  {
    match e
    case RequestCode(a, account, code, t) => RequestInOrder(s, a, account, code, t);
    case VerifyCode(a, account, code, t) => VerifyInOrder(s, a, account, code, t);
    case CompleteCommit(w, p, t) => CommitInOrder(s, w, p, t);
    case Deliver(a, id, status, t) => DeliverInOrder(s, a, id, status, t);
    case _ =>
      QuietSteps(s, e);
      OrderStays(s, Apply(s, e));
  }

  lemma {:induction false} OrderedRunsKeepOrder(events: seq<Event>)
    requires InOrder(INIT, events)
    ensures OrderInv(After(INIT, events))
  {
    if events == [] {
    } else {
      OrderedRunsKeepOrder(events[..|events| - 1]);
      EveryRunKeepsInv(events[..|events| - 1]);
      ApplyKeepsOrder(After(INIT, events[..|events| - 1]), events[|events| - 1]);
    }
  }

  /** In any hour an address gets twenty counted wrong codes and ten accepted requests at most. */
  lemma AnyHourIsLimited(events: seq<Event>, a: nat, from: int)
    requires InOrder(INIT, events)
    ensures Count(After(INIT, events).log, MissesBetween(a, from, from + 3_600_000)) <= 20
    ensures Count(After(INIT, events).log, RequestsBetween(a, from, from + 3_600_000)) <= 10
  {
    OrderedRunsKeepOrder(events);
    EveryRunKeepsInv(events);
    HourIsLimited(After(INIT, events), a, from);
  }

  lemma HourIsLimited(s: State, a: nat, from: int)
    requires Inv(s) && OrderInv(s)
    ensures Count(s.log, MissesBetween(a, from, from + WINDOW_MS)) <= 20
    ensures Count(s.log, RequestsBetween(a, from, from + WINDOW_MS)) <= 10
  {
    assert WindowsHold(s.log) by {
      forall e | e in s.log && HasWindow(e) ensures e.window <= e.at < e.window + WINDOW_MS {
        assert EntryOk(e) && EntryInOrder(e, s.clock);
      }
    }
    var v, w := HourMeetsTwoWindows(s.log, a, from);
    HourIsCountedByWindows(s.log, a, from, v, w);
    assert Capped(s.log, MissesIn(a, v)) && Capped(s.log, MissesIn(a, w));
    assert Capped(s.log, RequestsIn(a, v)) && Capped(s.log, RequestsIn(a, w));
  }

  lemma HourIsCountedByWindows(log: seq<Entry>, a: nat, from: int, v: int, w: int)
    requires forall e :: e in log && InHour(e, a, from) ==> e.window == v || e.window == w
    ensures Count(log, MissesBetween(a, from, from + WINDOW_MS))
            <= Count(log, MissesIn(a, v)) + Count(log, MissesIn(a, w))
    ensures Count(log, RequestsBetween(a, from, from + WINDOW_MS))
            <= Count(log, RequestsIn(a, v)) + Count(log, RequestsIn(a, w))
  {
    CountedByTwo(log, MissesBetween(a, from, from + WINDOW_MS), MissesIn(a, v), MissesIn(a, w));
    CountedByTwo(log, RequestsBetween(a, from, from + WINDOW_MS), RequestsIn(a, v), RequestsIn(a, w));
  }

  // ------------------------------------------------------------------ hashing takes time

  /** What is being completed was verified before it was read, and what was completed before that. */
  ghost predicate HashInv(s: State) {
    && (forall w :: w in s.completions ==> s.completions[w].token.verifiedAt <= s.completions[w].readAt)
    && (forall e :: e in s.log ==> UsedLater(e))
  }

  predicate UsedLater(e: Entry) {
    e.Use? ==> e.token.verifiedAt < e.at
  }

  lemma HashInvStays(s: State, s': State, noted: seq<Entry>)
    requires HashInv(s) && s'.log == s.log + noted && (forall e :: e in noted ==> UsedLater(e))
    requires forall w :: w in s'.completions ==> w in s.completions && s'.completions[w] == s.completions[w]
    ensures HashInv(s')
  {
    forall e | e in s'.log ensures UsedLater(e) {
      assert e in s.log ==> UsedLater(e);
    }
  }

  lemma ReadKeepsHashInv(s: State, w: nat, a: nat, token: Token, t: int)
    requires Inv(s) && OrderInv(s) && HashInv(s) && t >= s.clock
    ensures HashInv(Apply(s, CompleteRead(w, a, token, t)))
  {
    if a in s.rows && CanComplete(s.rows[a], token, t) {
      assert RowInOrder(s.rows[a], s.clock) && TokenOk(a, s.rows[a]);
    }
  }

  lemma RequestKeepsHashInv(s: State, a: nat, account: Option<nat>, code: nat, t: int)
    requires HashInv(s)
    ensures HashInv(Apply(s, RequestCode(a, account, code, t)))
  {
    var s' := Apply(s, RequestCode(a, account, code, t));
    HashInvStays(s, s', if s'.log == s.log then [] else [s'.log[|s.log|]]);
  }

  lemma VerifyKeepsHashInv(s: State, a: nat, account: Option<nat>, code: nat, t: int)
    requires HashInv(s)
    ensures HashInv(Apply(s, VerifyCode(a, account, code, t)))
  {
    var s' := Apply(s, VerifyCode(a, account, code, t));
    if s'.log == s.log {
      HashInvStays(s, s', []);
    } else {
      VerifyNotes(s, a, account, code, t);
      HashInvStays(s, s', [s'.log[|s.log|]]);
    }
  }

  lemma CommitKeepsHashInv(s: State, w: nat, password: Password, t: int)
    requires HashInv(s) && HashesInTime(s, CompleteCommit(w, password, t))
    ensures HashInv(Apply(s, CompleteCommit(w, password, t)))
  {
    var s' := Apply(s, CompleteCommit(w, password, t));
    HashInvStays(s, s', if s'.log == s.log then [] else [s'.log[|s.log|]]);
  }

  lemma OtherStepsLeaveCompletions(s: State, e: Event)
    requires (IsQuiet(e) && !e.CompleteRead?) || e.Deliver?
    ensures Apply(s, e).completions == s.completions && Apply(s, e).log == s.log
  {
  }

  lemma ApplyKeepsHashInv(s: State, e: Event)
    requires Inv(s) && OrderInv(s) && HashInv(s) && Timely(s, e) && HashesInTime(s, e)
    ensures HashInv(Apply(s, e))
  {
    match e
    case CompleteRead(w, a, token, t) => ReadKeepsHashInv(s, w, a, token, t);
    case RequestCode(a, account, code, t) => RequestKeepsHashInv(s, a, account, code, t);
    case VerifyCode(a, account, code, t) => VerifyKeepsHashInv(s, a, account, code, t);
    case CompleteCommit(w, p, t) => CommitKeepsHashInv(s, w, p, t);
    case _ =>
      OtherStepsLeaveCompletions(s, e);
      HashInvStays(s, Apply(s, e), []);
  }

  lemma {:induction false} HashingRunsKeepHashInv(events: seq<Event>)
    requires InOrder(INIT, events) && HashingTakesTime(INIT, events)
    ensures HashInv(After(INIT, events))
  {
    if events == [] {
    } else {
      var init := events[..|events| - 1];
      HashingRunsKeepHashInv(init);
      EveryRunKeepsInv(init);
      OrderedRunsKeepOrder(init);
      ApplyKeepsHashInv(After(INIT, init), events[|events| - 1]);
    }
  }

  /** No reset token completes twice: hashing the new password separates a completion from its verification. */
  lemma NoTokenCompletesTwice(events: seq<Event>, i: nat, j: nat)
    requires InOrder(INIT, events) && HashingTakesTime(INIT, events)
    requires i < |After(INIT, events).log| && j < |After(INIT, events).log|
    ensures var (e, f) := (After(INIT, events).log[i], After(INIT, events).log[j]);
            e.Use? && f.Use? && e.token == f.token ==> i == j
  {
    HashingRunsKeepHashInv(events);
    OrderedRunsKeepOrder(events);
    var log := After(INIT, events).log;
    assert log[i] in log && log[j] in log;
    if i < j {
      assert UsedOnce(log[i], log[j]);
    } else if j < i {
      assert UsedOnce(log[j], log[i]);
    }
  }

  /** Whatever the hashing takes, a token completed twice was first completed in the millisecond of its verification. */
  lemma TokensCompleteOnce(events: seq<Event>, i: nat, j: nat)
    requires InOrder(INIT, events) && i < j < |After(INIT, events).log|
    ensures var (e, f) := (After(INIT, events).log[i], After(INIT, events).log[j]);
            e.Use? && f.Use? && e.token == f.token ==> e.at == e.token.verifiedAt
  {
    OrderedRunsKeepOrder(events);
    assert UsedOnce(After(INIT, events).log[i], After(INIT, events).log[j]);
  }
}
