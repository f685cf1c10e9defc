/** What holds of the invitation queue in every interleaving, and what its lease adds. */
module InviteQueueSafety {
  import opened Basics
  import opened InviteQueue

  // ------------------------------------------------------------------ any run at all

  /**
   How any statement may change a row: its expiry never moves, its attempt id never decreases, and
   no statement but a claim, which takes a new id, makes a row sending.
   */
  ghost predicate Moves(row: Invite, row': Invite) {
    && row.attemptId <= row'.attemptId
    && row.expiresAt == row'.expiresAt
    && (row.attemptId == row'.attemptId && row'.status == Sending ==>
          row.status == Sending && row.attempts == row'.attempts)
  }

  ghost predicate RowsMove(s: State, s': State) {
    && s.nextId <= s'.nextId
    && s.now <= s'.now
    && (forall i :: i in s'.rows && i < s.nextId ==> i in s.rows && Moves(s.rows[i], s'.rows[i]))
  }

  lemma StatementsMoveRows(row: Invite, nonce: int, now: int, t: int)
    requires RowOk(row, now) && t <= now
    ensures Claimable(row, t) ==> Moves(row, Claimed(row, t)) && RowOk(Claimed(row, t), now)
    ensures Moves(row, Resent(row, nonce, now))
    ensures IsActive(row, now) ==> RowOk(Resent(row, nonce, now), now)
    ensures Moves(row, Revoked(row, now)) && RowOk(Revoked(row, now), now)
    ensures Moves(row, Accepted(row, now)) && RowOk(Accepted(row, now), now)
    ensures Moves(row, Swept(row, t)) && RowOk(Swept(row, t), now)
  {
  }

  lemma MovedRowsKeepTheRest(s: State, s': State)
    requires Inv(s) && RowsMove(s, s')
    requires s'.results == s.results
    ensures ResultsOk(s')
    ensures forall w :: WorkerOk(s, w) ==> WorkerOk(s', w)
  {
    forall k | 0 <= k < |s.results| ensures ResultOk(s', s.results[k]) {
      assert ResultOk(s, s.results[k]);
    }
  }

  lemma ChangingOneRow(s: State, s': State, i: nat, row': Invite)
    requires RowsOk(s) && i in s.rows && Moves(s.rows[i], row') && RowOk(row', s.now)
    requires s'.rows == s.rows[i := row'] && s'.now == s.now && s'.nextId == s.nextId
    ensures RowsMove(s, s') && RowsOk(s')
  {
  }

  lemma TimePasses(row: Invite, now: int, t: int)
    requires RowOk(row, now) && now <= t
    ensures RowOk(row, t)
  {
  }

  lemma SweepMovesRows(s: State, t: int)
    requires RowsOk(s)
    ensures MovesRows(s, Apply(s, Sweep(t)))
  {
    if t <= s.now {
      forall i | i in s.rows ensures Moves(s.rows[i], Swept(s.rows[i], t)) && RowOk(Swept(s.rows[i], t), s.now) {
        StatementsMoveRows(s.rows[i], 0, s.now, t);
      }
    }
  }

  lemma EndingMovesRows(s: State, e: Event, i: nat, nonce: int)
    requires RowsOk(s) && (e == Resend(i, nonce) || e == Revoke(i) || e == Accept(i))
    ensures MovesRows(s, Apply(s, e))
  {
    var s' := Apply(s, e);
    if i in s.rows && i in s'.rows && s'.rows != s.rows {
      StatementsMoveRows(s.rows[i], nonce, s.now, s.now);
      ChangingOneRow(s, s', i, s'.rows[i]);
    }
  }

  ghost predicate MovesRows(s: State, s': State) {
    RowsMove(s, s') && RowsOk(s') && s'.results == s.results
  }

  lemma TickMovesRows(s: State, t: int)
    requires RowsOk(s)
    ensures MovesRows(s, Apply(s, Tick(t)))
  {
    if t >= s.now {
      forall i | i in s.rows ensures RowOk(s.rows[i], t) {
        TimePasses(s.rows[i], s.now, t);
      }
    }
  }

  lemma ClaimMovesRows(s: State, w: nat, i: nat, t: int)
    requires RowsOk(s)
    ensures MovesRows(s, Apply(s, Claim(w, i, t)))
  {
    var s' := Apply(s, Claim(w, i, t));
    if s' != s {
      StatementsMoveRows(s.rows[i], 0, s.now, t);
      ChangingOneRow(s, s', i, Claimed(s.rows[i], t));
    }
  }

  lemma AddingOrDeletingMovesRows(s: State, e: Event)
    requires RowsOk(s) && (e.Create? || e.Delete?)
    ensures MovesRows(s, Apply(s, e))
  {
  }

  lemma WorkerStepsLeaveRows(s: State, e: Event)
    requires RowsOk(s) && (e.Read? || e.Settle? || e.Crash?)
    ensures MovesRows(s, Apply(s, e))
  {
    var s' := Apply(s, e);
    assert s'.rows == s.rows && s'.now == s.now && s'.nextId == s.nextId && s'.results == s.results;
  }

  lemma ApplyMovesRows(s: State, e: Event)
    requires Inv(s) && !e.Send? && !e.Record?
    ensures MovesRows(s, Apply(s, e))
  {
    match e {
      case Tick(t) => TickMovesRows(s, t);
      case Claim(w, i, t) => ClaimMovesRows(s, w, i, t);
      case Resend(i, nonce) => EndingMovesRows(s, e, i, nonce);
      case Revoke(i) => EndingMovesRows(s, e, i, 0);
      case Accept(i) => EndingMovesRows(s, e, i, 0);
      case Sweep(t) => SweepMovesRows(s, t);
      case Create(_, _, _, _) => AddingOrDeletingMovesRows(s, e);
      case Delete(_) => AddingOrDeletingMovesRows(s, e);
      case _ => WorkerStepsLeaveRows(s, e);
    }
  }

  lemma FinishedRowMoves(row: Invite, attemptId: nat, status: Status, retryInMs: Option<int>, t: int, now: int)
    requires RowOk(row, now) && CanFinish(row, attemptId, t) && status != Sending
    requires status == Queued ==> retryInMs.Some?
    ensures RowOk(Finished(row, status, retryInMs, t), now) && Moves(row, Finished(row, status, retryInMs, t))
  {
  }

  lemma OneMoreResult(s: State, s': State, result: (nat, nat))
    requires ResultsOk(s) && s'.results == s.results + [result] && s'.rows == s.rows && s'.nextId == s.nextId
    requires ResultOk(s, result) && result !in s.results
    ensures ResultsOk(s')
  {
    forall k | 0 <= k < |s'.results| ensures ResultOk(s', s'.results[k]) {
      assert k < |s.results| ==> ResultOk(s, s.results[k]);
    }
  }

  lemma NoResultYet(s: State, i: nat, attemptId: nat)
    requires ResultsOk(s) && i in s.rows && s.rows[i].attemptId == attemptId && s.rows[i].status == Sending
    ensures (i, attemptId) !in s.results
  {
    forall k | 0 <= k < |s.results| ensures s.results[k] != (i, attemptId) {
      assert ResultOk(s, s.results[k]);
    }
  }

  lemma DroppingKeepsWorkers(s: State, s': State, w: nat)
    requires WorkersOk(s) && s'.workers == s.workers - {w} && s'.nextId == s.nextId
    requires forall v :: WorkerOk(s, v) ==> WorkerOk(s', v)
    ensures WorkersOk(s')
  {
    forall v | v in s'.workers ensures WorkerOk(s', s'.workers[v]) {
      assert WorkerOk(s, s.workers[v]);
    }
  }

  lemma WrittenKeepsInv(s: State, w: nat, snapshot: Invite, status: Status, retryInMs: Option<int>, t: int)
    requires Inv(s) && w in s.workers
    requires status != Sending && (status == Queued ==> retryInMs.Some?)
    requires var i := s.workers[w].invite; i in s.rows && CanFinish(s.rows[i], snapshot.attemptId, t)
    ensures Inv(Recorded(s, w, snapshot, status, retryInMs, t))
  {
    var i := s.workers[w].invite;
    var row := Finished(s.rows[i], status, retryInMs, t);
    FinishedRowMoves(s.rows[i], snapshot.attemptId, status, retryInMs, t, s.now);
    ChangingOneRow(s, Put(s, i, row), i, row);
    MovedRowsKeepTheRest(s, Put(s, i, row));
    NoResultYet(s, i, snapshot.attemptId);
    var s' := Recorded(s, w, snapshot, status, retryInMs, t);
    OneMoreResult(Put(s, i, row), s', (i, snapshot.attemptId));
    DroppingKeepsWorkers(s, s', w);
  }

  lemma RecordedKeepsInv(s: State, w: nat, snapshot: Invite, status: Status, retryInMs: Option<int>, t: int)
    requires Inv(s) && w in s.workers && !s.workers[w].stage.ClaimWritten?
    requires s.workers[w].stage.snapshot == snapshot && t <= s.now
    requires status != Sending && (status == Queued && snapshot.attempts >= 1 ==> retryInMs.Some?)
    ensures Inv(Recorded(s, w, snapshot, status, retryInMs, t))
  {
    var i := s.workers[w].invite;
    assert WorkerOk(s, s.workers[w]);
    if i in s.rows && CanFinish(s.rows[i], snapshot.attemptId, t) {
      assert RowOk(s.rows[i], s.now);
      WrittenKeepsInv(s, w, snapshot, status, retryInMs, t);
    } else {
      MovedRowsKeepTheRest(s, Drop(s, w));
      DroppingKeepsWorkers(s, Drop(s, w), w);
    }
  }

  lemma SendKeepsInv(s: State, w: nat)
    requires Inv(s)
    ensures Inv(Apply(s, Send(w)))
  {
    var s' := Apply(s, Send(w));
    if w in s.workers && s.workers[w].stage.ReadBack? {
      assert WorkerOk(s, s.workers[w]);
      if s.workers[w].stage.snapshot.attempts > MAX_ATTEMPTS {
        RecordedKeepsInv(s, w, s.workers[w].stage.snapshot, Failed, None, s.now);
      } else {
        MovedRowsKeepTheRest(s, s');
        forall v | v in s'.workers ensures WorkerOk(s', s'.workers[v]) {
          assert WorkerOk(s, s.workers[v]);
        }
      }
    }
  }

  lemma RecordKeepsInv(s: State, w: nat, t: int)
    requires Inv(s)
    ensures Inv(Apply(s, Record(w, t)))
  {
    if w in s.workers && s.workers[w].stage.Mailed? && t <= s.now {
      var stage := s.workers[w].stage;
      var (status, retry) := Verdict(stage.snapshot, stage.outcome);
      RecordedKeepsInv(s, w, stage.snapshot, status, retry, t);
    }
  }

  lemma WorkersStayOk(s: State, e: Event)
    requires Inv(s) && !e.Send? && !e.Record?
    requires forall w :: WorkerOk(s, w) ==> WorkerOk(Apply(s, e), w)
    ensures WorkersOk(Apply(s, e))
  {
    var s' := Apply(s, e);
    forall w | w in s'.workers ensures WorkerOk(s', s'.workers[w]) {
      if w in s.workers {
        assert WorkerOk(s, s.workers[w]);
      }
    }
  }

  /** Every event keeps the invariant, whatever the timing of the workers. */
  lemma ApplyKeepsInv(s: State, e: Event)
    requires Inv(s)
    ensures Inv(Apply(s, e))
  {
    match e {
      case Send(w) => SendKeepsInv(s, w);
      case Record(w, t) => RecordKeepsInv(s, w, t);
      case _ =>
        ApplyMovesRows(s, e);
        MovedRowsKeepTheRest(s, Apply(s, e));
        WorkersStayOk(s, e);
    }
  }

  lemma {:induction false} EveryRunKeepsInv(s: State, events: seq<Event>)
    requires Inv(s)
    ensures Inv(After(s, events))
  {
    if events != [] {
      var last := |events| - 1;
      EveryRunKeepsInv(s, events[..last]);
      ApplyKeepsInv(After(s, events[..last]), events[last]);
    }
  }

  lemma RowsMoveIsTransitive(a: State, b: State, c: State)
    requires RowsMove(a, b) && RowsMove(b, c)
    ensures RowsMove(a, c)
  {
  }

  lemma EveryEventMovesRows(s: State, e: Event)
    requires Inv(s)
    ensures RowsMove(s, Apply(s, e))
  {
    if !e.Send? && !e.Record? {
      ApplyMovesRows(s, e);
    }
  }

  /** Ids are never reused and attempt ids never decrease, along every run. */
  lemma {:induction false} AttemptIdsNeverDecrease(s: State, events: seq<Event>)
    requires Inv(s)
    ensures RowsMove(s, After(s, events))
    ensures forall i :: i in s.rows && i in After(s, events).rows ==>
                          s.rows[i].attemptId <= After(s, events).rows[i].attemptId
    ensures forall i :: i in After(s, events).rows && i !in s.rows ==> s.nextId <= i
  {
    if events != [] {
      var last := |events| - 1;
      AttemptIdsNeverDecrease(s, events[..last]);
      EveryRunKeepsInv(s, events[..last]);
      EveryEventMovesRows(After(s, events[..last]), events[last]);
      RowsMoveIsTransitive(s, After(s, events[..last]), After(s, events));
    }
    EveryRunKeepsInv(s, events);
  }

  lemma TerminalRowIsLeftAlone(s: State, e: Event, i: nat)
    requires Inv(s) && i in s.rows && IsTerminal(s.rows[i])
    ensures i in Apply(s, e).rows ==> Apply(s, e).rows[i] == s.rows[i]
  {
    assert RowOk(s.rows[i], s.now);
  }

  /** Nothing that happens later touches an accepted or revoked invitation, short of deleting it. */
  lemma {:induction false} EndedInvitationIsFrozen(s: State, events: seq<Event>, i: nat)
    requires Inv(s) && i in s.rows && IsTerminal(s.rows[i])
    ensures i in After(s, events).rows ==> After(s, events).rows[i] == s.rows[i]
  {
    if events != [] {
      var last := |events| - 1;
      var before := After(s, events[..last]);
      EndedInvitationIsFrozen(s, events[..last], i);
      EveryRunKeepsInv(s, events[..last]);
      AttemptIdsNeverDecrease(s, events[..last]);
      if i in before.rows {
        TerminalRowIsLeftAlone(before, events[last], i);
      } else {
        EveryEventMovesRows(before, events[last]);
        assert RowsOk(s) && i < s.nextId <= before.nextId;
      }
    }
  }

  /** Each attempt id has its result written at most once, and a row changes only together with that. */
  lemma EachAttemptRecordsAtMostOnce(init: State, events: seq<Event>, w: nat, t: int)
    requires Init(init)
    ensures var s := After(init, events);
            && (forall j, k :: 0 <= j < k < |s.results| ==> s.results[j] != s.results[k])
            && (w in s.workers && s.workers[w].stage.Mailed? ==>
                  var result := (s.workers[w].invite, s.workers[w].stage.snapshot.attemptId);
                  var s' := Apply(s, Record(w, t));
                  && (s'.rows != s.rows ==> s'.results == s.results + [result])
                  && (result in s.results ==> s'.rows == s.rows && s'.results == s.results))
  {
    EveryRunKeepsInv(init, events);
    var s := After(init, events);
    if w in s.workers && s.workers[w].stage.Mailed? && t <= s.now {
      var result := (s.workers[w].invite, s.workers[w].stage.snapshot.attemptId);
      if result in s.results {
        assert ResultOk(s, result);
      }
    }
  }

  /**
   A result whose attempt was overtaken, or whose invitation ended, at any earlier moment of the
   run changes no row when it finally arrives.
   */
  lemma SupersededResultChangesNothing(s: State, events: seq<Event>, i: nat, w: nat, t: int)
    requires Inv(s) && i in s.rows
    requires var late := After(s, events);
             w in late.workers && late.workers[w].stage.Mailed? && late.workers[w].invite == i
    requires || s.rows[i].attemptId > After(s, events).workers[w].stage.snapshot.attemptId
             || IsTerminal(s.rows[i])
             || s.rows[i].expiresAt <= t
    ensures Apply(After(s, events), Record(w, t)).rows == After(s, events).rows
    ensures Apply(After(s, events), Record(w, t)).results == After(s, events).results
  {
    AttemptIdsNeverDecrease(s, events);
    if IsTerminal(s.rows[i]) {
      EndedInvitationIsFrozen(s, events, i);
    }
    assert RowsOk(s);
  }

  /** The rows a pass over due work selects are exactly those a claim made at that moment can take. */
  lemma DueRowsAreExactlyTheClaimable(init: State, events: seq<Event>, i: nat)
    requires Init(init) && i in After(init, events).rows
    ensures var s := After(init, events); IsDue(s.rows[i], s.now) <==> Claimable(s.rows[i], s.now)
    ensures var s := After(init, events);
            IsActive(s.rows[i], s.now) && IsPending(s.rows[i]) ==>
              && s.rows[i].nonce.Some? && s.rows[i].nextAttemptAt.Some?
              && (s.rows[i].status == Sending ==>
                    s.rows[i].leaseExpiresAt.Some? && s.rows[i].leaseExpiresAt.value <= s.rows[i].nextAttemptAt.value)
  {
    EveryRunKeepsInv(init, events);
    assert RowsOk(After(init, events));
  }

  /** A retry that is written always has its delay in the table, however late the read-back was. */
  lemma WrittenRetryHasADelay(init: State, events: seq<Event>, w: nat, t: int)
    requires Init(init)
    requires var s := After(init, events); w in s.workers && s.workers[w].stage.Mailed?
    ensures var s := After(init, events);
            var (i, snapshot) := (s.workers[w].invite, s.workers[w].stage.snapshot);
            Apply(s, Record(w, t)).rows != s.rows && Verdict(snapshot, s.workers[w].stage.outcome).0 == Queued ==>
              && 0 <= snapshot.attempts - 1 < |RETRY_DELAYS_MS|
              && Apply(s, Record(w, t)).rows[i].nextAttemptAt == Some(t + RETRY_DELAYS_MS[snapshot.attempts - 1])
  {
    EveryRunKeepsInv(init, events);
    RecordedRetryHasADelay(After(init, events), w, t);
  }

  lemma RecordedRetryHasADelay(s: State, w: nat, t: int)
    requires Inv(s) && w in s.workers && s.workers[w].stage.Mailed?
    ensures var (i, snapshot) := (s.workers[w].invite, s.workers[w].stage.snapshot);
            Apply(s, Record(w, t)).rows != s.rows && Verdict(snapshot, s.workers[w].stage.outcome).0 == Queued ==>
              && 0 <= snapshot.attempts - 1 < |RETRY_DELAYS_MS|
              && Apply(s, Record(w, t)).rows[i].nextAttemptAt == Some(t + RETRY_DELAYS_MS[snapshot.attempts - 1])
  {
    assert WorkerOk(s, s.workers[w]);
    assert RowsOk(s);
  }

  // ------------------------------------------------------------------ what is written, in the program's terms

  /** A minute, five minutes, half an hour and two hours after the first four failures. */
  function DelayAfter(attempts: nat): int {
    if attempts == 1 then 60_000 else if attempts == 2 then 300_000 else if attempts == 3 then 1_800_000 else 7_200_000
  }

  /**
   What a result does to its row: sent, with its time, when the server took the email; failed after a permanent
   refusal or the fifth attempt; queued again otherwise. Nothing else changes.
   */
  predicate Tells(row: Invite, row': Invite, outcome: Outcome, t: int) {
    && row' == row.(status := row'.status, leaseExpiresAt := None, nextAttemptAt := row'.nextAttemptAt,
                    lastSentAt := row'.lastSentAt)
    && if outcome.Accepts?
       then row'.status == Sent && row'.nextAttemptAt.None? && row'.lastSentAt == Some(t)
       else if outcome.permanent || row.attempts >= 5
       then row'.status == Failed && row'.nextAttemptAt.None? && row'.lastSentAt == row.lastSentAt
       else row'.status == Queued && row'.nextAttemptAt == Some(t + DelayAfter(row.attempts))
            && row'.lastSentAt == row.lastSentAt
  }

  lemma FinishedTells(row: Invite, snapshot: Invite, outcome: Outcome, t: int)
    requires row.attempts >= 1 && snapshot.attempts == row.attempts
    ensures Tells(row, Finished(row, Verdict(snapshot, outcome).0, Verdict(snapshot, outcome).1, t), outcome, t)
  {
  }

  /** However late it is written, a result that changes the rows tells how its email went. */
  lemma ResultsTellTheOutcome(init: State, events: seq<Event>, w: nat, t: int)
    requires Init(init)
    requires var s := After(init, events); w in s.workers && s.workers[w].stage.Mailed?
    ensures var (s, s') := (After(init, events), Apply(After(init, events), Record(w, t)));
            var (i, outcome) := (s.workers[w].invite, s.workers[w].stage.outcome);
            s'.rows != s.rows ==>
              i in s.rows && i in s'.rows && s'.rows == s.rows[i := s'.rows[i]]
              && Tells(s.rows[i], s'.rows[i], outcome, t)
  {
    EveryRunKeepsInv(init, events);
    RecordedTellsTheOutcome(After(init, events), w, t);
  }

  lemma RecordedTellsTheOutcome(s: State, w: nat, t: int)
    requires Inv(s) && w in s.workers && s.workers[w].stage.Mailed?
    ensures var s' := Apply(s, Record(w, t));
            var (i, outcome) := (s.workers[w].invite, s.workers[w].stage.outcome);
            s'.rows != s.rows ==>
              i in s.rows && i in s'.rows && s'.rows == s.rows[i := s'.rows[i]]
              && Tells(s.rows[i], s'.rows[i], outcome, t)
  {
    var (i, stage) := (s.workers[w].invite, s.workers[w].stage);
    if t <= s.now && i in s.rows && CanFinish(s.rows[i], stage.snapshot.attemptId, t) {
      assert WorkerOk(s, s.workers[w]) && RowOk(s.rows[i], s.now);
      FinishedTells(s.rows[i], stage.snapshot, stage.outcome, t);
    }
  }

  predicate IsMailing(s: State, w: nat, i: nat) {
    w in s.workers && s.workers[w].invite == i && s.workers[w].stage.Mailing?
  }

  /** The email is scheduled anew: an ended one, not one that is queued or being sent. */
  predicate SchedulesAgain(s: State, e: Event, i: nat) {
    && e.Resend? && e.invite == i && i in s.rows && s.rows[i].acceptedAt.None? && s.rows[i].revokedAt.None?
    && s.now < s.rows[i].expiresAt && s.rows[i].status != Queued && s.rows[i].status != Sending
  }

  /** The count of sends is that of the emails handed over since the last scheduling. */
  lemma SendsCountEmails(s: State, e: Event, i: nat)
    requires i in s.rows && i in s.sends && i < s.nextId
    ensures var s' := Apply(s, e);
            && i in s'.sends
            && (forall w :: IsMailing(s', w, i) && !IsMailing(s, w, i) ==> s'.sends[i] == s.sends[i] + 1)
            && (SchedulesAgain(s, e, i) ==> s'.sends[i] == 0)
            && (s'.sends[i] != s.sends[i] ==>
                  SchedulesAgain(s, e, i) || (exists w :: IsMailing(s', w, i) && !IsMailing(s, w, i)))
  {
    if e.Send? {
      var s' := Apply(s, e);
      assert s'.sends[i] != s.sends[i] ==> IsMailing(s', e.worker, i) && !IsMailing(s, e.worker, i);
    }
  }
}
