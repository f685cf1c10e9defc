/** What holds as long as every attempt ends, or crashes, within its lease; and what goes wrong otherwise. */
module InviteQueueLease {
  import opened Basics
  import opened InviteQueue
  import opened InviteQueueSafety

  ghost predicate Timely(s: State) {
    forall w :: w in s.workers ==> s.now < LeaseEnd(s.workers[w])
  }

  ghost predicate TimelyRun(s: State, events: seq<Event>) {
    Timely(After(s, events)) && (events != [] ==> TimelyRun(s, events[..|events| - 1]))
  }

  /** A worker within its lease is the only one its row answers to. */
  ghost predicate Holds(s: State, w: Worker) {
    && (!w.stage.ClaimWritten? ==> IsActive(w.stage.snapshot, w.claimedAt) && w.stage.snapshot.attempts >= 1)
    && (w.invite in s.rows ==>
          var row := s.rows[w.invite];
          && (|| IsTerminal(row)
              || (&& row.status == Sending && row.attemptId == w.attemptId
                  && (|| row.leaseExpiresAt == Some(LeaseEnd(w))
                      || (row.leaseExpiresAt.None? && row.expiresAt <= s.now))))
          && (!w.stage.ClaimWritten? ==> w.stage.snapshot.attempts == row.attempts)
          && (w.stage.ClaimWritten? || w.stage.ReadBack? ==>
                row.attempts >= 1 && w.invite in s.sends && s.sends[w.invite] < row.attempts))
  }

  ghost predicate BudgetOk(s: State, i: nat)
    requires i in s.rows
  {
    i in s.sends && s.sends[i] <= s.rows[i].attempts && s.sends[i] <= MAX_ATTEMPTS
  }

  ghost predicate AllHold(s: State) {
    forall w :: w in s.workers ==> Holds(s, s.workers[w])
  }

  ghost predicate NoneShares(s: State) {
    forall v, w :: v in s.workers && w in s.workers && v != w ==> s.workers[v].invite != s.workers[w].invite
  }

  ghost predicate BudgetsOk(s: State) {
    forall i :: i in s.rows ==> BudgetOk(s, i)
  }

  ghost predicate LeaseInv(s: State) {
    Inv(s) && AllHold(s) && NoneShares(s) && BudgetsOk(s)
  }

  lemma NobodyHoldsAClaimable(s: State, v: nat, i: nat, t: int)
    requires v in s.workers && Holds(s, s.workers[v]) && s.now < LeaseEnd(s.workers[v]) && t <= s.now
    requires i in s.rows && Claimable(s.rows[i], t)
    ensures s.workers[v].invite != i
  {
  }

  lemma ClaimKeepsHolds(s: State, w: nat, i: nat, t: int, v: nat)
    requires w !in s.workers && t <= s.now && i in s.rows && Claimable(s.rows[i], t) && BudgetOk(s, i)
    requires v == w || (v in s.workers && Holds(s, s.workers[v]) && s.workers[v].invite != i)
    ensures var s' := Apply(s, Claim(w, i, t)); Holds(s', s'.workers[v])
  {
  }

  lemma ClaimKeepsBudget(s: State, w: nat, i: nat, t: int, j: nat)
    requires j in s.rows && BudgetOk(s, j)
    ensures BudgetOk(Apply(s, Claim(w, i, t)), j)
  {
  }

  lemma ClaimKeepsLeaseInv(s: State, w: nat, i: nat, t: int)
    requires LeaseInv(s) && Timely(s)
    ensures LeaseInv(Apply(s, Claim(w, i, t)))
  {
    var s' := Apply(s, Claim(w, i, t));
    ApplyKeepsInv(s, Claim(w, i, t));
    if s' != s {
      forall v | v in s.workers ensures s.workers[v].invite != i {
        NobodyHoldsAClaimable(s, v, i, t);
      }
      forall v | v in s'.workers ensures Holds(s', s'.workers[v]) {
        ClaimKeepsHolds(s, w, i, t, v);
      }
      forall j | j in s'.rows ensures BudgetOk(s', j) {
        ClaimKeepsBudget(s, w, i, t, j);
      }
    }
  }

  /** A result is written to the row of its own worker only. */
  lemma RecordedKeepsHolds(s: State, w: nat, snapshot: Invite, status: Status, retryInMs: Option<int>, t: int, v: nat)
    requires w in s.workers && v in s.workers && v != w && s.workers[v].invite != s.workers[w].invite
    requires Holds(s, s.workers[v])
    ensures Holds(Recorded(s, w, snapshot, status, retryInMs, t), s.workers[v])
  {
  }

  lemma RecordedKeepsLease(s: State, w: nat, snapshot: Invite, status: Status, retryInMs: Option<int>, t: int)
    requires w in s.workers && AllHold(s) && NoneShares(s) && BudgetsOk(s)
    ensures var s' := Recorded(s, w, snapshot, status, retryInMs, t); AllHold(s') && NoneShares(s') && BudgetsOk(s')
  {
    var s' := Recorded(s, w, snapshot, status, retryInMs, t);
    forall v | v in s'.workers ensures Holds(s', s'.workers[v]) {
      RecordedKeepsHolds(s, w, snapshot, status, retryInMs, t, v);
    }
    forall j | j in s'.rows ensures BudgetOk(s', j) {
      assert BudgetOk(s, j);
    }
  }

  lemma MailingKeepsHolds(s: State, w: nat, v: nat)
    requires w in s.workers && s.workers[w].stage.ReadBack? && s.workers[w].stage.snapshot.attempts <= MAX_ATTEMPTS
    requires v in Apply(s, Send(w)).workers && Holds(s, s.workers[v]) && Holds(s, s.workers[w])
    requires v != w ==> s.workers[v].invite != s.workers[w].invite
    ensures Holds(Apply(s, Send(w)), Apply(s, Send(w)).workers[v])
  {
  }

  lemma MailingKeepsBudget(s: State, w: nat, j: nat)
    requires w in s.workers && s.workers[w].stage.ReadBack? && s.workers[w].stage.snapshot.attempts <= MAX_ATTEMPTS
    requires Holds(s, s.workers[w]) && j in s.rows && BudgetOk(s, j)
    ensures BudgetOk(Apply(s, Send(w)), j)
  {
  }

  lemma SendKeepsLeaseInv(s: State, w: nat)
    requires LeaseInv(s)
    ensures LeaseInv(Apply(s, Send(w)))
  {
    var s' := Apply(s, Send(w));
    ApplyKeepsInv(s, Send(w));
    if w in s.workers && s.workers[w].stage.ReadBack? {
      if s.workers[w].stage.snapshot.attempts > MAX_ATTEMPTS {
        RecordedKeepsLease(s, w, s.workers[w].stage.snapshot, Failed, None, s.now);
      } else {
        forall v | v in s'.workers ensures Holds(s', s'.workers[v]) {
          MailingKeepsHolds(s, w, v);
        }
        forall j | j in s'.rows ensures BudgetOk(s', j) {
          MailingKeepsBudget(s, w, j);
        }
      }
    }
  }

  lemma RecordKeepsLeaseInv(s: State, w: nat, t: int)
    requires LeaseInv(s)
    ensures LeaseInv(Apply(s, Record(w, t)))
  {
    ApplyKeepsInv(s, Record(w, t));
    if w in s.workers && s.workers[w].stage.Mailed? && t <= s.now {
      var stage := s.workers[w].stage;
      var (status, retry) := Verdict(stage.snapshot, stage.outcome);
      RecordedKeepsLease(s, w, stage.snapshot, status, retry, t);
    }
  }

  lemma ResendKeepsHolds(s: State, i: nat, nonce: int, v: nat)
    requires v in s.workers && Holds(s, s.workers[v]) && s.now < LeaseEnd(s.workers[v])
    ensures Holds(Apply(s, Resend(i, nonce)), s.workers[v])
  {
  }

  lemma ResendKeepsLeaseInv(s: State, i: nat, nonce: int)
    requires LeaseInv(s) && Timely(s)
    ensures LeaseInv(Apply(s, Resend(i, nonce)))
  {
    var s' := Apply(s, Resend(i, nonce));
    ApplyKeepsInv(s, Resend(i, nonce));
    forall v | v in s'.workers ensures Holds(s', s'.workers[v]) {
      ResendKeepsHolds(s, i, nonce, v);
    }
    forall j | j in s'.rows ensures BudgetOk(s', j) {
      assert BudgetOk(s, j);
    }
  }

  lemma WorkerStepsKeepHolds(s: State, e: Event, v: nat)
    requires (e.Read? || e.Settle? || e.Crash?) && v in Apply(s, e).workers
    requires v in s.workers && Holds(s, s.workers[v])
    ensures Apply(s, e).workers[v].invite == s.workers[v].invite
    ensures Holds(Apply(s, e), Apply(s, e).workers[v])
  {
  }

  lemma RowEventsKeepHolds(s: State, e: Event, v: nat)
    requires (e.Tick? || e.Create? || e.Revoke? || e.Accept? || e.Delete? || e.Sweep?) && v in Apply(s, e).workers
    requires v in s.workers && Holds(s, s.workers[v]) && s.workers[v].invite < s.nextId
    ensures Apply(s, e).workers[v].invite == s.workers[v].invite
    ensures Holds(Apply(s, e), Apply(s, e).workers[v])
  {
  }

  lemma WorkersRemain(s: State, e: Event)
    requires !e.Claim?
    ensures forall v :: v in Apply(s, e).workers ==> v in s.workers
  {
  }

  lemma OtherEventsKeepHolds(s: State, e: Event, v: nat)
    requires LeaseInv(s) && !e.Claim? && !e.Send? && !e.Record? && !e.Resend?
    requires v in Apply(s, e).workers
    ensures v in s.workers && Apply(s, e).workers[v].invite == s.workers[v].invite
    ensures Holds(Apply(s, e), Apply(s, e).workers[v])
  {
    WorkersRemain(s, e);
    assert WorkerOk(s, s.workers[v]);
    if e.Read? || e.Settle? || e.Crash? {
      WorkerStepsKeepHolds(s, e, v);
    } else {
      RowEventsKeepHolds(s, e, v);
    }
  }

  lemma OtherEventsKeepBudgets(s: State, e: Event, i: nat)
    requires LeaseInv(s) && !e.Claim? && !e.Send? && !e.Record? && !e.Resend?
    requires i in Apply(s, e).rows
    ensures BudgetOk(Apply(s, e), i)
  {
    if i in s.rows {
      assert BudgetOk(s, i);
    }
  }

  lemma OtherEventsKeepLeaseInv(s: State, e: Event)
    requires LeaseInv(s) && !e.Claim? && !e.Send? && !e.Record? && !e.Resend?
    ensures LeaseInv(Apply(s, e))
  {
    ApplyKeepsInv(s, e);
    forall v | v in Apply(s, e).workers
      ensures v in s.workers && Apply(s, e).workers[v].invite == s.workers[v].invite
      ensures Holds(Apply(s, e), Apply(s, e).workers[v])
    {
      OtherEventsKeepHolds(s, e, v);
    }
    forall i | i in Apply(s, e).rows ensures BudgetOk(Apply(s, e), i) {
      OtherEventsKeepBudgets(s, e, i);
    }
  }

  lemma {:induction false} TimelyRunsKeepLeaseInv(s: State, events: seq<Event>)
    requires LeaseInv(s) && TimelyRun(s, events)
    ensures LeaseInv(After(s, events))
  {
    if events != [] {
      var last := |events| - 1;
      TimelyRunsKeepLeaseInv(s, events[..last]);
      var before := After(s, events[..last]);
      match events[last] {
        case Claim(w, i, t) => ClaimKeepsLeaseInv(before, w, i, t);
        case Send(w) => SendKeepsLeaseInv(before, w);
        case Record(w, t) => RecordKeepsLeaseInv(before, w, t);
        case Resend(i, nonce) => ResendKeepsLeaseInv(before, i, nonce);
        case _ => OtherEventsKeepLeaseInv(before, events[last]);
      }
    }
  }

  /**
   While attempts stay within their leases: two workers never mail one invitation at once, what is
   mailed was claimed on an active invitation, at most MAX_ATTEMPTS emails follow one scheduling,
   and a worker that retries always finds its delay in the table.
   */
  lemma LeaseGivesExclusiveSending(init: State, events: seq<Event>)
    requires Init(init) && TimelyRun(init, events)
    ensures var s := After(init, events);
            && (forall v, w :: v in s.workers && w in s.workers && v != w &&
                               s.workers[v].stage.Mailing? && s.workers[w].stage.Mailing? ==>
                                 s.workers[v].invite != s.workers[w].invite)
            && (forall w :: w in s.workers && !s.workers[w].stage.ClaimWritten? ==>
                              IsActive(s.workers[w].stage.snapshot, s.workers[w].claimedAt))
            && (forall i :: i in s.rows ==> i in s.sends && s.sends[i] <= MAX_ATTEMPTS)
            && (forall w :: w in s.workers && s.workers[w].stage.Mailed? &&
                            Verdict(s.workers[w].stage.snapshot, s.workers[w].stage.outcome).0 == Queued ==>
                              0 <= s.workers[w].stage.snapshot.attempts - 1 < |RETRY_DELAYS_MS|)
  {
    TimelyRunsKeepLeaseInv(init, events);
    var s := After(init, events);
    forall w | w in s.workers ensures Holds(s, s.workers[w]) {}
    forall i | i in s.rows ensures BudgetOk(s, i) {}
  }

  // ------------------------------------------------------------------ without the lease

  lemma AfterOneMore(s: State, events: seq<Event>, e: Event)
    ensures After(s, events + [e]) == Apply(After(s, events), e)
  {
    assert (events + [e])[..|events|] == events;
  }

  ghost const Empty: State := State(0, 0, map[], map[], map[], [])

  ghost const Row: Invite := NewInvite(1, "a@b.c", 604_800_000, 7, 0)

  /** One claim, and no more of that worker until its lease has ended. */
  ghost const Stalled: seq<Event> := [] + [Create(1, "a@b.c", 604_800_000, 7)] + [Claim(0, 0, 0)] + [Tick(120_000)]

  lemma StalledState()
    ensures After(Empty, Stalled) ==
            State(120_000, 1, map[0 := Claimed(Row, 0)], map[0 := Worker(0, 0, 1, ClaimWritten)], map[0 := 0], [])
  {
    AfterOneMore(Empty, [], Create(1, "a@b.c", 604_800_000, 7));
    AfterOneMore(Empty, [] + [Create(1, "a@b.c", 604_800_000, 7)], Claim(0, 0, 0));
    AfterOneMore(Empty, [] + [Create(1, "a@b.c", 604_800_000, 7)] + [Claim(0, 0, 0)], Tick(120_000));
    assert Apply(Empty, Create(1, "a@b.c", 604_800_000, 7)) == State(0, 1, map[0 := Row], map[], map[0 := 0], []);
  }

  /** Then a second worker takes the row over and is mailing. */
  ghost const TakenOver: seq<Event> := Stalled + [Claim(1, 0, 120_000)] + [Read(1)] + [Send(1)]

  lemma TakenOverState()
    ensures var s := After(Empty, TakenOver);
            var row := Claimed(Claimed(Row, 0), 120_000);
            && s.now == 120_000 && s.rows == map[0 := row]
            && s.workers == map[0 := Worker(0, 0, 1, ClaimWritten), 1 := Worker(0, 120_000, 2, Mailing(row))]
  {
    StalledState();
    AfterOneMore(Empty, Stalled, Claim(1, 0, 120_000));
    AfterOneMore(Empty, Stalled + [Claim(1, 0, 120_000)], Read(1));
    AfterOneMore(Empty, Stalled + [Claim(1, 0, 120_000)] + [Read(1)], Send(1));
  }

  /** The lease assumption is needed: a read-back delayed past the lease lets two sends overlap. */
  lemma LateReadBackLetsSendsOverlap()
    ensures Init(Empty)
    ensures var s := After(Empty, TakenOver + [Read(0), Send(0)]);
            0 in s.workers && 1 in s.workers && s.workers[0].invite == s.workers[1].invite &&
            s.workers[0].stage.Mailing? && s.workers[1].stage.Mailing?
  {
    TakenOverState();
    AfterOneMore(Empty, TakenOver, Read(0));
    AfterOneMore(Empty, TakenOver + [Read(0)], Send(0));
    assert TakenOver + [Read(0)] + [Send(0)] == TakenOver + [Read(0), Send(0)];
  }

  /** Then the attempt fails for good and the owner resends. */
  ghost const Failing: seq<Event> := TakenOver + [Settle(1, Rejects(true))] + [Record(1, 120_000)]

  ghost const Rescheduled: seq<Event> := Failing + [Resend(0, 8)]

  lemma FailedState()
    ensures var s := After(Empty, Failing);
            var row := Claimed(Claimed(Row, 0), 120_000);
            && s.now == 120_000 && s.workers == map[0 := Worker(0, 0, 1, ClaimWritten)]
            && s.rows == map[0 := Finished(row, Failed, None, 120_000)]
  {
    TakenOverState();
    AfterOneMore(Empty, TakenOver, Settle(1, Rejects(true)));
    AfterOneMore(Empty, TakenOver + [Settle(1, Rejects(true))], Record(1, 120_000));
  }

  lemma RescheduledState()
    ensures var s := After(Empty, Rescheduled);
            && s.now == 120_000 && s.workers == map[0 := Worker(0, 0, 1, ClaimWritten)]
            && 0 in s.rows && s.rows[0].attempts == 0 && IsActive(s.rows[0], 0)
  {
    FailedState();
    AfterOneMore(Empty, Failing, Resend(0, 8));
  }

  /** A late read-back can also see a fresh budget and look for the delay of attempt zero. */
  lemma LateReadBackMissesTheDelayTable()
    ensures var s := After(Empty, Rescheduled + [Read(0)] + [Send(0)] + [Settle(0, Rejects(false))]);
            && 0 in s.workers && s.workers[0].stage.Mailed?
            && Verdict(s.workers[0].stage.snapshot, s.workers[0].stage.outcome) == (Queued, None)
            && s.workers[0].stage.snapshot.attempts - 1 == -1
  {
    RescheduledState();
    AfterOneMore(Empty, Rescheduled, Read(0));
    AfterOneMore(Empty, Rescheduled + [Read(0)], Send(0));
    AfterOneMore(Empty, Rescheduled + [Read(0)] + [Send(0)], Settle(0, Rejects(false)));
  }
}
