/** When exactly a second worker can come to mail an invitation that one is mailing. */
module InviteQueueOverlap {
  import opened Basics
  import opened InviteQueue
  import opened InviteQueueSafety
  import opened InviteQueueLease

  // ------------------------------------------------------------------ runs while a worker is mailing

  predicate IsThere(s: State, w: nat, worker: Worker) {
    w in s.workers && s.workers[w] == worker
  }

  /** The run leaves the worker as it is. */
  ghost predicate Undisturbed(s: State, events: seq<Event>, w: nat, worker: Worker) {
    && IsThere(After(s, events), w, worker)
    && (events != [] ==> Undisturbed(s, events[..|events| - 1], w, worker))
  }

  /** The run goes on from s, with the worker still mailing, until another one mails the same invitation. */
  ghost predicate LeadsToOverlap(s: State, events: seq<Event>, w: nat, v: nat)
    requires w in s.workers
  {
    v != w && Undisturbed(s, events, w, s.workers[w]) && IsMailing(After(s, events), v, s.workers[w].invite)
  }

  lemma OneMoreStep(s: State, events: seq<Event>, s': State, e: Event, w: nat, worker: Worker)
    requires s' == After(s, events) && Undisturbed(s, events, w, worker) && IsThere(Apply(s', e), w, worker)
    ensures After(s, events + [e]) == Apply(s', e) && Undisturbed(s, events + [e], w, worker)
  {
    assert (events + [e])[..|events|] == events;
  }

  // ------------------------------------------------------------------ a second worker takes over

  /** Where a worker stands while another one gets to its invitation. */
  ghost predicate Reaches(s: State, events: seq<Event>, s': State, w: nat, worker: Worker) {
    s' == After(s, events) && Undisturbed(s, events, w, worker)
  }

  lemma ClaimedAndRead(s: State, i: nat, v: nat)
    requires v !in s.workers && i in s.rows && Claimable(s.rows[i], s.now)
    ensures var row := Claimed(s.rows[i], s.now);
            Apply(Apply(s, Claim(v, i, s.now)), Read(v))
            == s.(rows := s.rows[i := row],
                  workers := s.workers[v := Worker(i, s.now, row.attemptId, ReadBack(row))])
  {
    var row := Claimed(s.rows[i], s.now);
    assert Apply(s, Claim(v, i, s.now))
           == s.(rows := s.rows[i := row], workers := s.workers[v := Worker(i, s.now, row.attemptId, ClaimWritten)]);
  }

  lemma TakesOver(s: State, events: seq<Event>, s': State, w: nat, worker: Worker, i: nat, v: nat)
    returns (more: seq<Event>, after: State)
    requires Reaches(s, events, s', w, worker) && v !in s'.workers && i in s'.rows && Claimable(s'.rows[i], s'.now)
    ensures Reaches(s, more, after, w, worker)
    ensures s'.rows[i].attempts < MAX_ATTEMPTS ==> IsMailing(after, v, i)
    ensures s'.rows[i].attempts >= MAX_ATTEMPTS ==>
              && after.now == s'.now && after.workers == s'.workers
              && i in after.rows && after.rows[i] == Finished(Claimed(s'.rows[i], s'.now), Failed, None, s'.now)
  {
    var (claim, read) := (Claim(v, i, s'.now), Read(v));
    ClaimedAndRead(s', i, v);
    OneMoreStep(s, events, s', claim, w, worker);
    OneMoreStep(s, events + [claim], Apply(s', claim), read, w, worker);
    var claimed := Apply(Apply(s', claim), read);
    SendsOrGivesUp(s', claimed, w, worker, i, v);
    OneMoreStep(s, events + [claim] + [read], claimed, Send(v), w, worker);
    more, after := events + [claim] + [read] + [Send(v)], Apply(claimed, Send(v));
  }

  lemma SendsOrGivesUp(s: State, claimed: State, w: nat, worker: Worker, i: nat, v: nat)
    requires IsThere(s, w, worker) && v !in s.workers && i in s.rows && Claimable(s.rows[i], s.now)
    requires var row := Claimed(s.rows[i], s.now);
             claimed == s.(rows := s.rows[i := row],
                           workers := s.workers[v := Worker(i, s.now, row.attemptId, ReadBack(row))])
    ensures IsThere(Apply(claimed, Send(v)), w, worker)
    ensures s.rows[i].attempts < MAX_ATTEMPTS ==> IsMailing(Apply(claimed, Send(v)), v, i)
    ensures s.rows[i].attempts >= MAX_ATTEMPTS ==>
              var after := Apply(claimed, Send(v));
              && after.now == s.now && after.workers == s.workers
              && i in after.rows && after.rows[i] == Finished(Claimed(s.rows[i], s.now), Failed, None, s.now)
  {
  }

  /** After giving up, a resend gives the row a fresh budget. */
  lemma Revives(s: State, events: seq<Event>, s': State, w: nat, worker: Worker, i: nat)
    returns (more: seq<Event>, after: State)
    requires Reaches(s, events, s', w, worker) && i in s'.rows && IsActive(s'.rows[i], s'.now)
    requires s'.rows[i].status == Failed
    ensures Reaches(s, more, after, w, worker) && after.workers == s'.workers
    ensures i in after.rows && Claimable(after.rows[i], after.now) && after.rows[i].attempts == 0
  {
    OneMoreStep(s, events, s', Resend(i, 0), w, worker);
    more, after := events + [Resend(i, 0)], Apply(s', Resend(i, 0));
  }

  /** Whoever waits for the lease to end can take the invitation over. */
  lemma SecondSenderComes(s: State, w: nat) returns (more: seq<Event>, v: nat)
    requires LeaseInv(s) && Timely(s) && w in s.workers && s.workers[w].stage.Mailing?
    requires var (i, worker) := (s.workers[w].invite, s.workers[w]);
             i in s.rows && !IsTerminal(s.rows[i]) && s.rows[i].expiresAt > LeaseEnd(worker)
    ensures LeadsToOverlap(s, more, w, v)
  {
    var (i, worker) := (s.workers[w].invite, s.workers[w]);
    var tick := Tick(LeaseEnd(worker));
    LeaseEndsClaimably(s, w);
    OneMoreStep(s, [], s, tick, w, worker);
    v := AboveAll(s.workers.Keys);
    var s' := Apply(s, tick);
    more, s' := TakesOver(s, [] + [tick], s', w, worker, i, v);
    if s.rows[i].attempts >= MAX_ATTEMPTS {
      more, s' := Revives(s, more, s', w, worker, i);
      more, s' := TakesOver(s, more, s', w, worker, i, v);
    }
  }

  lemma LeaseEndsClaimably(s: State, w: nat)
    requires LeaseInv(s) && Timely(s) && w in s.workers && s.workers[w].stage.Mailing?
    requires var (i, worker) := (s.workers[w].invite, s.workers[w]);
             i in s.rows && !IsTerminal(s.rows[i]) && s.rows[i].expiresAt > LeaseEnd(worker)
    ensures var (i, end) := (s.workers[w].invite, LeaseEnd(s.workers[w]));
            Apply(s, Tick(end)) == s.(now := end) && Claimable(s.rows[i], end)
  {
    assert Holds(s, s.workers[w]) && RowOk(s.rows[s.workers[w].invite], s.now);
  }

  // ------------------------------------------------------------------ no second worker

  /** No claim can take the row: it is gone or ended, or the lease outlives its invitation. */
  predicate IsShut(s: State, worker: Worker) {
    worker.invite in s.rows ==>
      var row := s.rows[worker.invite];
      || IsTerminal(row)
      || (&& row.status == Sending && row.expiresAt <= LeaseEnd(worker)
          && (row.leaseExpiresAt.None? || row.leaseExpiresAt == Some(LeaseEnd(worker))))
  }

  ghost predicate IsAlone(s: State, w: nat, worker: Worker) {
    && worker.invite < s.nextId && worker.stage.Mailing? && IsThere(s, w, worker) && IsShut(s, worker)
    && (forall v :: v in s.workers && v != w ==> s.workers[v].invite != worker.invite)
  }

  lemma RowEventsKeepAlone(s: State, e: Event, w: nat, worker: Worker)
    requires IsAlone(s, w, worker)
    requires e.Tick? || e.Create? || e.Resend? || e.Revoke? || e.Accept? || e.Delete? || e.Sweep?
    ensures IsAlone(Apply(s, e), w, worker)
  {
  }

  lemma ResultsKeepAlone(s: State, e: Event, w: nat, worker: Worker)
    requires IsAlone(s, w, worker) && IsThere(Apply(s, e), w, worker) && (e.Send? || e.Record?)
    ensures IsAlone(Apply(s, e), w, worker)
  {
  }

  lemma OtherStepsKeepAlone(s: State, e: Event, w: nat, worker: Worker)
    requires IsAlone(s, w, worker) && IsThere(Apply(s, e), w, worker)
    requires e.Claim? || e.Read? || e.Settle? || e.Crash?
    ensures IsAlone(Apply(s, e), w, worker)
  {
  }

  lemma {:induction false} RunsKeepAlone(s: State, events: seq<Event>, w: nat, worker: Worker)
    requires IsAlone(s, w, worker) && Undisturbed(s, events, w, worker)
    ensures IsAlone(After(s, events), w, worker)
  {
    if events != [] {
      var (last, e) := (|events| - 1, events[|events| - 1]);
      RunsKeepAlone(s, events[..last], w, worker);
      if e.Send? || e.Record? {
        ResultsKeepAlone(After(s, events[..last]), e, w, worker);
      } else if e.Claim? || e.Read? || e.Settle? || e.Crash? {
        OtherStepsKeepAlone(After(s, events[..last]), e, w, worker);
      } else {
        RowEventsKeepAlone(After(s, events[..last]), e, w, worker);
      }
    }
  }

  lemma StartsAlone(s: State, w: nat)
    requires LeaseInv(s) && w in s.workers && s.workers[w].stage.Mailing?
    requires var (i, worker) := (s.workers[w].invite, s.workers[w]);
             i !in s.rows || IsTerminal(s.rows[i]) || s.rows[i].expiresAt <= LeaseEnd(worker)
    ensures IsAlone(s, w, s.workers[w])
  {
    assert Holds(s, s.workers[w]) && WorkerOk(s, s.workers[w]);
  }

  // ------------------------------------------------------------------ the condition

  /**
   After any run within the leases a worker is mailing an invitation. A second worker can come to mail it
   meanwhile, once the lease is no longer respected, exactly when the row is there, is not accepted or
   revoked, and its invitation outlives the lease.
   */
  lemma SecondSenderCondition(init: State, events: seq<Event>, w: nat)
    requires Init(init) && TimelyRun(init, events)
    requires w in After(init, events).workers && After(init, events).workers[w].stage.Mailing?
    ensures var s := After(init, events);
            var (i, worker) := (s.workers[w].invite, s.workers[w]);
            (exists more, v :: LeadsToOverlap(s, more, w, v)) <==>
              i in s.rows && !IsTerminal(s.rows[i]) && s.rows[i].expiresAt > LeaseEnd(worker)
  {
    TimelyRunsKeepLeaseInv(init, events);
    var s := After(init, events);
    var (i, worker) := (s.workers[w].invite, s.workers[w]);
    if i in s.rows && !IsTerminal(s.rows[i]) && s.rows[i].expiresAt > LeaseEnd(worker) {
      var more, v := SecondSenderComes(s, w);
    } else {
      StartsAlone(s, w);
      if more, v :| LeadsToOverlap(s, more, w, v) {
        RunsKeepAlone(s, more, w, worker);
      }
    }
  }
}
