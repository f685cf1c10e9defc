/** The two invitation services as methods over the rows and the send log. */
module InviteService {
  import opened Basics
  import Queue = InviteQueue
  import Safety = InviteQueueSafety
  import opened InviteLimits
  import Limits = InviteLimits
  import opened InviteDelivery

  datatype Role = Owner | Member

  datatype Refusal =
    | ForbiddenSpace
    | PersonalSpace
    | InviteLimitReached
    | RateLimited(retryAfterSeconds: nat)
    | NotFound

  // ------------------------------------------------------------------ the pending invitations of a space

  function ActiveIds(rows: Rows, space: nat, t: int): set<nat> {
    set i | i in rows && rows[i].spaceId == space && Queue.IsActive(rows[i], t)
  }

  /** At most ten pending invitations, each to another address. */
  ghost predicate PendingOk(rows: Rows, space: nat, t: int) {
    && |ActiveIds(rows, space, t)| <= MAX_PENDING_INVITES_PER_SPACE
    && (forall i, j :: i in ActiveIds(rows, space, t) && j in ActiveIds(rows, space, t) && i != j ==>
                         rows[i].email != rows[j].email)
  }

  /** Rows that keep their address and space and are not revived keep a space's pending invitations in order. */
  lemma FewerActiveKeepPending(rows: Rows, rows': Rows, space: nat, t: int, t': int)
    requires PendingOk(rows, space, t)
    requires forall i :: i in ActiveIds(rows', space, t') ==>
                           i in ActiveIds(rows, space, t) && rows'[i].email == rows[i].email
    ensures PendingOk(rows', space, t')
  {
    SubsetIsNoLarger(ActiveIds(rows', space, t'), ActiveIds(rows, space, t));
  }

  function EntryOf(rows: Rows, i: nat, sender: nat, now: int): Entry
    requires i in rows
  {
    Entry(i, rows[i].spaceId, rows[i].email, sender, now)
  }

  function EntriesOf(rows: Rows, ids: seq<nat>, sender: nat, now: int): seq<Entry>
    requires forall i :: i in ids ==> i in rows
  {
    seq(|ids|, k requires 0 <= k < |ids| => EntryOf(rows, ids[k], sender, now))
  }

  function IdsFrom(from: nat, n: nat): seq<nat> {
    seq(n, k requires 0 <= k < n => from + k)
  }

  /** The first n addresses have their invitations, under the ids from the given one on, and nothing else changed. */
  ghost predicate AreInvited(before: Rows, rows: Rows, from: nat, space: nat, emails: seq<string>, expiresAt: int,
                             nonces: seq<int>, now: int, n: nat)
    requires n <= |emails| == |nonces|
  {
    && (forall i :: i in rows <==> i in before || from <= i < from + n)
    && (forall i :: i in before ==> i in rows && rows[i] == before[i])
    && (forall i :: from <= i < from + n ==>
                      && i in rows
                      && IsNewInvitation(rows[i], space, emails[i - from], expiresAt, nonces[i - from], now))
  }

  lemma OneMoreIsInvited(before: Rows, rows: Rows, from: nat, space: nat, emails: seq<string>, expiresAt: int,
      nonces: seq<int>, now: int, n: nat)
    requires n < |emails| == |nonces| && forall i :: i in before ==> i < from
    requires AreInvited(before, rows, from, space, emails, expiresAt, nonces, now, n)
    ensures var rows' := rows[from + n := Queue.NewInvite(space, emails[n], expiresAt, nonces[n], now)];
            AreInvited(before, rows', from, space, emails, expiresAt, nonces, now, n + 1)
  {
  }

  lemma {:induction false} SizeOfIds(ids: set<nat>, from: nat, n: nat)
    requires forall i :: i in ids <==> from <= i < from + n
    ensures |ids| == n
  {
    if n > 0 {
      SizeOfIds(ids - {from + n - 1}, from, n - 1);
    } else {
      assert ids == {};
    }
  }

  lemma InvitedArePending(before: Rows, rows: Rows, from: nat, space: nat, emails: seq<string>, expiresAt: int,
      nonces: seq<int>, now: int)
    requires |emails| == |nonces| && |emails| <= MAX_PENDING_INVITES_PER_SPACE && Distinct(emails) && expiresAt > now
    requires forall i :: i in before ==> before[i].spaceId != space && i < from
    requires AreInvited(before, rows, from, space, emails, expiresAt, nonces, now, |emails|)
    ensures PendingOk(rows, space, now)
  {
    var ids := ActiveIds(rows, space, now);
    forall i ensures i in ids <==> from <= i < from + |emails| {
    }
    SizeOfIds(ids, from, |emails|);
    forall i, j | i in ids && j in ids && i != j ensures rows[i].email != rows[j].email {
      assert emails[i - from] == rows[i].email && emails[j - from] == rows[j].email;
    }
  }

  /** The statement of a pass that the database fails. */
  datatype PassFailure = NothingFails | SweepFails | SelectionFails | PurgeFails

  /** The attempts of a pass that begin before it is stopped. */
  function Before(batch: seq<nat>, stopAfter: nat): seq<nat> {
    if stopAfter < |batch| then batch[..stopAfter] else batch
  }

  // ------------------------------------------------------------------ what the statements say of a row

  predicate IsNewInvitation(row: Queue.Invite, space: nat, address: string, expiresAt: int, nonce: int, now: int) {
    && row.spaceId == space && row.email == address && row.expiresAt == expiresAt && row.nonce == Some(nonce)
    && row.acceptedAt.None? && row.revokedAt.None? && row.status == Queue.Queued && row.attempts == 0
    && row.attemptId == 0 && row.nextAttemptAt == Some(now) && row.leaseExpiresAt.None? && row.lastSentAt.None?
  }

  predicate IsOver(row: Queue.Invite, t: int) {
    row.acceptedAt.Some? || row.revokedAt.Some? || row.expiresAt <= t
  }

  /** The WHERE clause of a claim. */
  predicate MayBeClaimed(row: Queue.Invite, now: int) {
    && !IsOver(row, now) && row.nonce.Some?
    && (|| (row.status == Queue.Queued && row.nextAttemptAt.Some? && row.nextAttemptAt.value <= now)
        || (row.status == Queue.Sending && row.leaseExpiresAt.Some? && row.leaseExpiresAt.value <= now))
  }

  predicate IsClaimed(row: Queue.Invite, row': Queue.Invite, now: int) {
    && row'.status == Queue.Sending && row'.attemptId == row.attemptId + 1 && row'.attempts == row.attempts + 1
    && row'.leaseExpiresAt == Some(now + 120_000) && row'.nextAttemptAt == Some(now + 120_000)
    && row' == row.(status := row'.status, attemptId := row'.attemptId, attempts := row'.attempts,
                    leaseExpiresAt := row'.leaseExpiresAt, nextAttemptAt := row'.nextAttemptAt)
  }

  /** A result: the status, when to try again if ever, and the time of an email that went out. */
  predicate HasResult(row: Queue.Invite, row': Queue.Invite, status: Queue.Status, nextAttemptAt: Option<int>,
                      now: int) {
    && row'.status == status && row'.leaseExpiresAt.None? && row'.nextAttemptAt == nextAttemptAt
    && row'.lastSentAt == (if status == Queue.Sent then Some(now) else row.lastSentAt)
    && row' == row.(status := status, leaseExpiresAt := None, nextAttemptAt := nextAttemptAt,
                    lastSentAt := row'.lastSentAt)
  }

  /** How the email of an attempt went decides its result; the fifth failure and a permanent one are the last. */
  predicate IsAttempted(row: Queue.Invite, row': Queue.Invite, mail: Queue.Outcome, now: int, outcome: AttemptOutcome) {
    && row'.attempts == row.attempts + 1 && row'.attemptId == row.attemptId + 1
    && var claimed := row.(attempts := row'.attempts, attemptId := row'.attemptId);
       if row.attempts >= 5 then outcome == GaveUp && HasResult(claimed, row', Queue.Failed, None, now)
       else match mail
         case Accepts => outcome == Delivered && HasResult(claimed, row', Queue.Sent, None, now)
         case Rejects(permanent) =>
           if permanent || row.attempts == 4
           then outcome == GaveUp && HasResult(claimed, row', Queue.Failed, None, now)
           else outcome == Retry
                && HasResult(claimed, row', Queue.Queued, Some(now + Safety.DelayAfter(row.attempts + 1)), now)
  }

  /** The lease of a running attempt has not ended. */
  predicate IsBeingSent(row: Queue.Invite, now: int) {
    row.status == Queue.Sending && row.leaseExpiresAt.Some? && row.leaseExpiresAt.value > now
  }

  predicate WaitsToBeSent(row: Queue.Invite, now: int) {
    row.status == Queue.Queued || (row.status == Queue.Sending && !IsBeingSent(row, now))
  }

  predicate IsRequeued(row: Queue.Invite, row': Queue.Invite, nonce: int, now: int) {
    && row'.nonce == (if row.nonce.Some? then row.nonce else Some(nonce)) && row'.status == Queue.Queued
    && row'.attempts == 0 && row'.nextAttemptAt == Some(now) && row'.leaseExpiresAt.None?
    && row'.attemptId == row.attemptId + 1
    && row' == row.(nonce := row'.nonce, status := row'.status, attempts := row'.attempts,
                    nextAttemptAt := row'.nextAttemptAt, leaseExpiresAt := None, attemptId := row'.attemptId)
  }

  /** A queued email is moved to now, one being sent is left, any other gets a fresh budget. */
  predicate IsResent(row: Queue.Invite, row': Queue.Invite, nonce: int, now: int) {
    if IsBeingSent(row, now) then row' == row
    else if WaitsToBeSent(row, now) then row' == row.(nextAttemptAt := Some(now))
    else IsRequeued(row, row', nonce, now)
  }

  predicate IsRevoked(row: Queue.Invite, row': Queue.Invite, now: int) {
    && row'.revokedAt == Some(now) && row'.nextAttemptAt.None? && row'.leaseExpiresAt.None?
    && row'.attemptId == row.attemptId + 1
    && row' == row.(revokedAt := Some(now), nextAttemptAt := None, leaseExpiresAt := None, attemptId := row'.attemptId)
  }

  ghost predicate OnlyChanges(rows: Rows, rows': Rows, i: nat) {
    i in rows && i in rows' && rows' == rows[i := rows'[i]]
  }

  lemma ResendIsAStep(rows: Rows, nextId: nat, i: nat, nonce: int, now: int)
    requires i in rows && !IsOver(rows[i], now)
    ensures var rows' := rows[i := Queue.Resent(rows[i], nonce, now)];
            && rows' == Queue.Apply(QueueAt(rows, nextId, now), Queue.Resend(i, nonce)).rows
            && IsResent(rows[i], rows'[i], nonce, now)
  {
  }

  /** Ended invitations leave the queue, all others are as they were. */
  lemma SweepTakesTheEndedOut(rows: Rows, now: int, i: nat)
    requires i in rows
    ensures i in SweptRows(rows, now)
    ensures var (row, row') := (rows[i], SweptRows(rows, now)[i]);
            if (row.status == Queue.Queued || row.status == Queue.Sending) && IsOver(row, now)
            then row' == row.(nextAttemptAt := None, leaseExpiresAt := None)
            else row' == row
  {
  }

  /** The tables as a state of the queue's runs. */
  function QueueAt(rows: Rows, nextId: nat, now: int): Queue.State {
    Queue.State(now, nextId, rows, map[], map[], [])
  }

  /** The tables as a state of the limits' runs, with no transaction open and nothing purged since. */
  function LedgerAt(rows: Rows, log: seq<Entry>, nextId: nat, nextSpace: nat, now: int): Limits.Ledger {
    Limits.Ledger(now, nextSpace, nextId, map i | i in rows :: rows[i].spaceId, log, log, now, map[])
  }

  /** What creating, resending and inviting with a new space log is what one transaction of the limits' runs logs. */
  lemma SchedulingIsAStep(rows: Rows, log: seq<Entry>, nextId: nat, space: nat, sender: nat, address: string,
      emails: seq<string>, now: int)
    requires Distinct(emails) && |emails| <= MAX_PENDING_INVITES_PER_SPACE
    ensures var l := LedgerAt(rows, log, nextId, space + 1, now);
            var l' := Limits.Apply(l, Limits.NewInvite(now, space, sender, address));
            if Refuses(log, Request(sender, Some(space), [address], None), now) then l' == l
            else Limits.Apply(l', Limits.Commit(space)).log == log + [Entry(nextId, space, address, sender, now)]
    ensures forall i :: i in rows && rows[i].spaceId == space ==>
                          var l := LedgerAt(rows, log, nextId, space + 1, now);
                          var l' := Limits.Apply(l, Limits.Resend(now, i, sender, address));
                          if Refuses(log, Request(sender, Some(space), [address], Some(i)), now) then l' == l
                          else Limits.Apply(l', Limits.Commit(space)).log
                               == log + [Entry(i, space, address, sender, now)]
    ensures var l := LedgerAt(rows, log, nextId, space, now);
            var l' := Limits.Apply(l, Limits.NewSpace(now, sender, emails));
            if Refuses(log, Request(sender, None, emails, None), now) then l' == l
            else Limits.Apply(l', Limits.Commit(space)).log
                 == log
                    + seq(|emails|, k requires 0 <= k < |emails| => Entry(nextId + k, space, emails[k], sender, now))
  {
  }

  class InvitationService {
    var rows: Rows
    var log: seq<Entry>
    var nextId: nat
    var polling: bool
    var stopped: bool

    ghost predicate Valid()
      reads this
    {
      forall i :: i in rows ==> i < nextId
    }

    constructor ()
      ensures Valid() && rows == map[] && log == [] && !polling && !stopped
    {
      rows, log, nextId, polling, stopped := map[], [], 0, false, false;
    }

    /** The longest of the request's waits but those of the addresses. */
    method WaitWithoutAddresses(r: Request, now: int) returns (wait: int)
      requires |r.emails| <= MAX_PENDING_INVITES_PER_SPACE
      ensures IsAWait(log, r, now, wait) && CoversWaits(log, r, now, wait, 0)
    {
      wait := LimitWait(log, BySender(r.sender), |r.emails|, now);
      if r.invite.Some? {
        wait := Max(wait, CooldownWait(log, r.invite.value, now));
        wait := Max(wait, LimitWait(log, ByInvite(r.invite.value), 1, now));
      }
      if r.space.Some? {
        wait := Max(wait, LimitWait(log, BySpace(r.space.value), |r.emails|, now));
      }
    }

    /** The longest of the request's waits, gathered limit by limit. */
    method LongestWait(r: Request, now: int) returns (wait: int)
      requires |r.emails| <= MAX_PENDING_INVITES_PER_SPACE
      ensures IsLongestWait(log, r, now, wait)
    {
      wait := WaitWithoutAddresses(r, now);
      for k := 0 to |r.emails|
        invariant IsAWait(log, r, now, wait)
        invariant CoversWaits(log, r, now, wait, k)
      {
        var next := LimitWait(log, ByEmail(r.emails[k]), 1, now);
        OneMoreWait(log, r, now, wait, k);
        wait := Max(wait, next);
      }
    }

    /** Refuses exactly when a limit or the cooldown would be broken, and says for how long. */
    method AssertCanSchedule(r: Request, now: int) returns (res: Result<(), nat>)
      requires |r.emails| <= MAX_PENDING_INVITES_PER_SPACE
      ensures res.Ok? <==> !Refuses(log, r, now)
      ensures res.Err? ==> IsAnnounced(log, r, now, res.error)
    {
      var wait := LongestWait(r, now);
      RefusedUntilTheWaitEnds(log, r, now, wait, now);
      if wait > 0 {
        return Err(Max(1, Seconds(wait)));
      }
      return Ok(());
    }

    method RecordScheduled(sender: nat, ids: seq<nat>, now: int)
      requires forall i :: i in ids ==> i in rows
      modifies this`log
      ensures log == old(log) + EntriesOf(rows, ids, sender, now)
    {
      ghost var before := log;
      for k := 0 to |ids|
        invariant log == before + EntriesOf(rows, ids, sender, now)[..k]
      {
        log := log + [EntryOf(rows, ids[k], sender, now)];
      }
    }

    /** A fresh attempt budget, due now; a legacy invitation gets its nonce here. */
    method Requeue(sender: nat, i: nat, nonce: int, now: int)
      requires i in rows
      modifies this`rows, this`log
      ensures rows == old(rows)[i := Queue.Requeued(old(rows)[i], nonce, now)]
      ensures IsRequeued(old(rows)[i], rows[i], nonce, now)
      ensures log == old(log) + [Entry(i, old(rows)[i].spaceId, old(rows)[i].email, sender, now)]
    {
      var row := rows[i];
      if row.nonce.None? {
        row := row.(nonce := Some(nonce));
      }
      row := row.(status := Queue.Queued, attempts := 0, nextAttemptAt := Some(now), leaseExpiresAt := None);
      rows := rows[i := row.(attemptId := row.attemptId + 1)];
      RecordScheduled(sender, [i], now);
    }

    /** A queued email may be claimed from now on: same budget, same attempt, nothing else moved. */
    method Expedite(i: nat, now: int)
      requires i in rows
      modifies this`rows
      ensures rows.Keys == old(rows).Keys && (forall j :: j in rows && j != i ==> rows[j] == old(rows)[j])
      ensures rows[i].nextAttemptAt == Some(now)
              && rows[i].(nextAttemptAt := old(rows)[i].nextAttemptAt) == old(rows)[i]
      ensures old(Queue.RowOk(rows[i], now) && Queue.IsActive(rows[i], now)
                  && Queue.EffectiveStatus(rows[i], now) == Queue.Queued) ==>
                && Queue.RowOk(rows[i], now)
                && (forall t :: t >= now && Queue.IsActive(rows[i], t) ==>
                                  Queue.IsDue(rows[i], t) && Queue.Claimable(rows[i], t))
    {
      rows := rows[i := rows[i].(nextAttemptAt := Some(now))];
    }

    /** Takes the row for one attempt if it is due and its invitation active. */
    method Claim(i: nat, now: int) returns (claimed: Option<Queue.Invite>)
      modifies this`rows
      ensures claimed.Some? <==> i in old(rows) && MayBeClaimed(old(rows)[i], now)
      ensures claimed.Some? ==> rows == old(rows)[i := claimed.value]
                                && claimed.value == Queue.Claimed(old(rows)[i], now)
                                && IsClaimed(old(rows)[i], claimed.value, now)
      ensures rows == Queue.Apply(QueueAt(old(rows), 0, now), Queue.Claim(0, i, now)).rows
      ensures claimed.None? ==> rows == old(rows)
    {
      if i !in rows || !Queue.Claimable(rows[i], now) {
        return None;
      }
      var leaseEnd := now + Queue.LEASE_MS;
      var row := rows[i];
      row := row.(status := Queue.Sending, attemptId := row.attemptId + 1, attempts := row.attempts + 1);
      row := row.(leaseExpiresAt := Some(leaseEnd), nextAttemptAt := Some(leaseEnd));
      rows := rows[i := row];
      return if Queue.IsActive(row, now) then Some(row) else None;
    }

    /** Writes a result only while the row is still the attempt's and its invitation active. */
    method Finish(i: nat, attemptId: nat, status: Queue.Status, retryInMs: Option<int>, now: int)
      returns (recorded: bool)
      modifies this`rows
      ensures recorded <==>
              && i in old(rows) && old(rows)[i].attemptId == attemptId && old(rows)[i].status == Queue.Sending
              && !IsOver(old(rows)[i], now)
      ensures recorded ==>
                var next := if retryInMs.Some? then Some(now + retryInMs.value) else None;
                OnlyChanges(old(rows), rows, i) && HasResult(old(rows)[i], rows[i], status, next, now)
      ensures rows == if recorded then old(rows)[i := Queue.Finished(old(rows)[i], status, retryInMs, now)]
                      else old(rows)
    {
      if i !in rows || !Queue.CanFinish(rows[i], attemptId, now) {
        return false;
      }
      var row := rows[i].(status := status, leaseExpiresAt := None);
      row := row.(nextAttemptAt := if retryInMs.Some? then Some(now + retryInMs.value) else None);
      if status == Queue.Sent {
        row := row.(lastSentAt := Some(now));
      }
      rows := rows[i := row];
      return true;
    }

    method Attempt(i: nat, now: int, spaces: set<nat>, mail: Queue.Outcome) returns (outcome: AttemptOutcome)
      modifies this`rows
      ensures rows == Attempted(old(rows), i, now, spaces, mail)
      ensures rows.Keys == old(rows).Keys && forall j :: j in rows && j != i ==> rows[j] == old(rows)[j]
      ensures !(i in old(rows) && MayBeClaimed(old(rows)[i], now)) ==> outcome == Skipped && rows == old(rows)
      ensures i in old(rows) && MayBeClaimed(old(rows)[i], now) ==>
                if old(rows)[i].spaceId !in spaces && old(rows)[i].attempts < 5
                then outcome == Skipped && IsClaimed(old(rows)[i], rows[i], now)
                else IsAttempted(old(rows)[i], rows[i], mail, now, outcome)
    {
      var claimed := Claim(i, now);
      if claimed.None? {
        return Skipped;
      }
      var invite := claimed.value;
      if invite.attempts > Queue.MAX_ATTEMPTS {
        var _ := Finish(i, invite.attemptId, Queue.Failed, None, now);
        return GaveUp;
      }
      if invite.spaceId !in spaces {
        return Skipped;
      }
      match mail {
        case Rejects(permanent) =>
          if permanent || invite.attempts >= Queue.MAX_ATTEMPTS {
            var _ := Finish(i, invite.attemptId, Queue.Failed, None, now);
            return GaveUp;
          }
          var _ := Finish(i, invite.attemptId, Queue.Queued, Some(Queue.RETRY_DELAYS_MS[invite.attempts - 1]), now);
          return Retry;
        case Accepts =>
          var _ := Finish(i, invite.attemptId, Queue.Sent, None, now);
          return Delivered;
      }
    }

    /** The next due row outside the batch, if any. */
    method NextDue(batch: seq<nat>, now: int) returns (next: Option<nat>)
      ensures next.Some? ==> next.value in rows && Queue.IsDue(rows[next.value], now) && next.value !in batch
      ensures next.Some? ==> forall i :: i in rows && Queue.IsDue(rows[i], now) && i !in batch ==>
                                           rows[next.value].nextAttemptAt.value <= rows[i].nextAttemptAt.value
      ensures next.None? ==> forall i :: i in rows && Queue.IsDue(rows[i], now) ==> i in batch
    {
      var left := set i | i in rows && Queue.IsDue(rows[i], now) && i !in batch;
      ghost var all := left;
      assert forall i :: i in rows && Queue.IsDue(rows[i], now) && i !in batch ==> i in all;
      next := None;
      while left != {}
        invariant left <= all
        invariant next.None? ==> left == all
        invariant next.Some? ==> next.value in all
        invariant next.Some? ==> forall i :: i in all && i !in left ==>
                                               rows[next.value].nextAttemptAt.value <= rows[i].nextAttemptAt.value
        decreases left
      {
        var i :| i in left;
        if next.None? || rows[i].nextAttemptAt.value < rows[next.value].nextAttemptAt.value {
          next := Some(i);
        }
        left := left - {i};
      }
    }

    method SelectDue(now: int) returns (batch: seq<nat>)
      ensures IsBatch(rows, batch, now)
    {
      batch := [];
      while |batch| < POLL_BATCH
        invariant IsBatch(rows, batch, now) || (|batch| < POLL_BATCH && AllDue(rows, batch, now))
        invariant |batch| <= POLL_BATCH && AllDue(rows, batch, now)
        invariant forall i, k :: 0 <= k < |batch| && i in rows && Queue.IsDue(rows[i], now) && i !in batch ==>
                                   rows[batch[k]].nextAttemptAt.value <= rows[i].nextAttemptAt.value
        decreases POLL_BATCH - |batch|
      {
        var next := NextDue(batch, now);
        if next.None? {
          return;
        }
        batch := batch + [next.value];
      }
    }

    /**
     One pass: sweep ended invitations, attempt a batch of due rows, purge the log. The service is stopped
     once `stopAfter` attempts have run, and `failing` is the statement the database fails, if any.
     */
    method ProcessDue(now: int, spaces: set<nat>, mail: nat -> Queue.Outcome, stopAfter: nat, failing: PassFailure)
      returns (count: nat, ghost batch: seq<nat>)
      modifies this`rows, this`log, this`polling, this`stopped
      ensures polling == old(polling)
      ensures old(polling || stopped) ==> count == 0 && rows == old(rows) && log == old(log) && stopped == old(stopped)
      ensures !old(polling || stopped) && failing == SweepFails ==>
                count == 0 && rows == old(rows) && log == old(log) && !stopped
      ensures !old(polling || stopped) && failing == SelectionFails ==>
                count == 0 && rows == SweptRows(old(rows), now) && log == old(log) && !stopped
      ensures !old(polling || stopped) && (failing == NothingFails || failing == PurgeFails) ==>
                && IsBatch(SweptRows(old(rows), now), batch, now)
                && (stopped <==> stopAfter < |batch|)
                && rows == AttemptedAll(SweptRows(old(rows), now), Before(batch, stopAfter), now, spaces, mail)
                && (failing == PurgeFails ==> log == old(log))
                && (failing == NothingFails ==> log == Purged(old(log), now - 86_400_000, 1000))
                && count == if failing == PurgeFails then 0 else |batch|
    {
      batch := [];
      if polling || stopped {
        return 0, batch;
      }
      polling := true;
      if failing == SweepFails {
        polling := false;
        return 0, batch;
      }
      rows := map i | i in rows :: Queue.Swept(rows[i], now);
      if failing == SelectionFails {
        polling := false;
        return 0, batch;
      }
      var due := SelectDue(now);
      batch := due;
      AttemptBatch(due, now, spaces, mail, stopAfter);
      polling := false;
      if failing == PurgeFails {
        return 0, batch;
      }
      log := Purged(log, now - LIMIT_WINDOW_MS, PURGE_BATCH);
      return |due|, batch;
    }

    /** The attempts of a pass, one after the other until the service is stopped. */
    method AttemptBatch(due: seq<nat>, now: int, spaces: set<nat>, mail: nat -> Queue.Outcome, stopAfter: nat)
      requires !stopped
      modifies this`rows, this`stopped
      ensures stopped <==> stopAfter < |due|
      ensures rows == AttemptedAll(old(rows), Before(due, stopAfter), now, spaces, mail)
    {
      for k := 0 to |due|
        invariant k <= stopAfter && !stopped
        invariant rows == AttemptedAll(old(rows), due[..k], now, spaces, mail)
      {
        stopped := k == stopAfter;
        if stopped {
          return;
        }
        var _ := Attempt(due[k], now, spaces, mail(due[k]));
        assert due[..k + 1][..k] == due[..k];
      }
      assert due[..|due|] == due;
    }

    /** Adds a pending invitation with its first email scheduled. */
    method Insert(sender: nat, space: nat, address: string, expiresAt: int, nonce: int, now: int) returns (i: nat)
      requires Valid() && expiresAt > now
      modifies this`rows, this`log, this`nextId
      ensures Valid() && i == old(nextId) && i in ActiveIds(rows, space, now)
      ensures rows == old(rows)[i := Queue.NewInvite(space, address, expiresAt, nonce, now)]
      ensures IsNewInvitation(rows[i], space, address, expiresAt, nonce, now)
      ensures log == old(log) + [Entry(i, space, address, sender, now)]
      ensures ActiveIds(rows, space, now) == ActiveIds(old(rows), space, now) + {i}
    {
      i := nextId;
      nextId := nextId + 1;
      rows := rows[i := Queue.NewInvite(space, address, expiresAt, nonce, now)];
      RecordScheduled(sender, [i], now);
    }

    /**
     The invitations made together with a new space: all of them, each with its first email scheduled, or
     none when the space is personal, they are too many, or a limit refuses them.
     */
    method InviteWithSpace(personal: bool, sender: nat, space: nat, emails: seq<string>, expiresAt: int,
        nonces: seq<int>, now: int)
      returns (res: Result<seq<nat>, Refusal>)
      requires Valid() && expiresAt > now && |nonces| == |emails| && Distinct(emails)
      requires forall i :: i in rows ==> rows[i].spaceId != space
      modifies this`rows, this`log, this`nextId
      ensures Valid()
      ensures res.Err? ==> rows == old(rows) && log == old(log)
      ensures res == Err(PersonalSpace) <==> personal && emails != []
      ensures res == Err(InviteLimitReached) <==> !personal && |emails| > 10
      ensures res.Err? && res.error.RateLimited? <==>
              && !personal && 0 < |emails| <= 10
              && Refuses(old(log), Request(sender, None, emails, None), now)
      ensures res.Err? ==> res.error == PersonalSpace || res.error == InviteLimitReached || res.error.RateLimited?
      ensures res.Err? && res.error.RateLimited? ==>
                IsAnnounced(old(log), Request(sender, None, emails, None), now, res.error.retryAfterSeconds)
      ensures res.Ok? ==>
                && AreInvited(old(rows), rows, old(nextId), space, emails, expiresAt, nonces, now, |emails|)
                && res.value == IdsFrom(old(nextId), |emails|)
                && log == old(log) + EntriesOf(rows, res.value, sender, now)
                && PendingOk(rows, space, now)
    {
      if personal && emails != [] {
        return Err(PersonalSpace);
      }
      if |emails| > MAX_PENDING_INVITES_PER_SPACE {
        return Err(InviteLimitReached);
      }
      if emails != [] {
        var allowed := AssertCanSchedule(Request(sender, None, emails, None), now);
        if allowed.Err? {
          return Err(RateLimited(allowed.error));
        }
      }
      var ids := InsertAll(sender, space, emails, expiresAt, nonces, now);
      return Ok(ids);
    }

    method InsertAll(sender: nat, space: nat, emails: seq<string>, expiresAt: int, nonces: seq<int>, now: int)
      returns (ids: seq<nat>)
      requires Valid() && expiresAt > now && |nonces| == |emails| <= MAX_PENDING_INVITES_PER_SPACE && Distinct(emails)
      requires forall i :: i in rows ==> rows[i].spaceId != space
      modifies this`rows, this`log, this`nextId
      ensures Valid() && ids == IdsFrom(old(nextId), |emails|)
      ensures AreInvited(old(rows), rows, old(nextId), space, emails, expiresAt, nonces, now, |emails|)
      ensures log == old(log) + EntriesOf(rows, ids, sender, now)
      ensures PendingOk(rows, space, now)
    {
      ghost var before := rows;
      var from := nextId;
      for k := 0 to |emails|
        invariant nextId == from + k && log == old(log)
        invariant AreInvited(before, rows, from, space, emails, expiresAt, nonces, now, k)
      {
        OneMoreIsInvited(before, rows, from, space, emails, expiresAt, nonces, now, k);
        rows := rows[nextId := Queue.NewInvite(space, emails[k], expiresAt, nonces[k], now)];
        nextId := nextId + 1;
      }
      ids := IdsFrom(from, |emails|);
      assert Valid();
      RecordScheduled(sender, ids, now);
      InvitedArePending(before, rows, from, space, emails, expiresAt, nonces, now);
    }

    /** Invites an address once: a pending invitation to it is returned as it is. */
    method Create(role: Option<Role>, personal: bool, sender: nat, space: nat, address: string, expiresAt: int,
        nonce: int, now: int)
      returns (res: Result<(nat, bool), Refusal>)
      requires Valid() && expiresAt > now
      modifies this`rows, this`log, this`nextId
      ensures Valid()
      ensures role != Some(Owner) <==> res == Err(ForbiddenSpace)
      ensures res.Err? ==> rows == old(rows) && log == old(log)
      ensures role == Some(Owner) ==> (personal <==> res == Err(PersonalSpace))
      ensures role == Some(Owner) && !personal ==>
                var active := ActiveIds(old(rows), space, now);
                var isNew := forall j :: j in active ==> old(rows)[j].email != address;
                && (res == Err(InviteLimitReached) <==> isNew && |active| >= 10)
                && (res.Err? && res.error.RateLimited? <==>
                      && isNew && |active| < 10
                      && Refuses(old(log), Request(sender, Some(space), [address], None), now))
      ensures res.Err? && res.error.RateLimited? ==>
                IsAnnounced(old(log), Request(sender, Some(space), [address], None), now, res.error.retryAfterSeconds)
      ensures res.Ok? ==> var (i, scheduled) := res.value;
                          && i in rows && i in ActiveIds(rows, space, now) && rows[i].email == address
                          && (scheduled <==> forall j :: j in ActiveIds(old(rows), space, now) ==>
                                                           old(rows)[j].email != address)
                          && (!scheduled ==> rows == old(rows) && log == old(log))
                          && (scheduled ==>
                                && i == old(nextId)
                                && rows == old(rows)[i := rows[i]]
                                && IsNewInvitation(rows[i], space, address, expiresAt, nonce, now)
                                && rows == Queue.Apply(QueueAt(old(rows), old(nextId), now),
                                                       Queue.Create(space, address, expiresAt, nonce)).rows
                                && log == old(log) + [Entry(i, space, address, sender, now)]
                                && !Refuses(old(log), Request(sender, Some(space), [address], None), now))
      ensures old(PendingOk(rows, space, now)) ==> PendingOk(rows, space, now)
    {
      if role != Some(Owner) {
        return Err(ForbiddenSpace);
      }
      if personal {
        return Err(PersonalSpace);
      }
      var active := ActiveIds(rows, space, now);
      if i :| i in active && rows[i].email == address {
        return Ok((i, false));
      }
      if |active| >= MAX_PENDING_INVITES_PER_SPACE {
        return Err(InviteLimitReached);
      }
      var allowed := AssertCanSchedule(Request(sender, Some(space), [address], None), now);
      if allowed.Err? {
        return Err(RateLimited(allowed.error));
      }
      var i := Insert(sender, space, address, expiresAt, nonce, now);
      return Ok((i, true));
    }

    /** A queued email moves to now, one that is being sent stays, any other is scheduled anew. */
    method Reschedule(sender: nat, i: nat, nonce: int, now: int) returns (deliver: bool)
      requires i in rows && !IsOver(rows[i], now)
      modifies this`rows, this`log
      ensures OnlyChanges(old(rows), rows, i) && IsResent(old(rows)[i], rows[i], nonce, now)
      ensures rows == Queue.Apply(QueueAt(old(rows), nextId, now), Queue.Resend(i, nonce)).rows
      ensures rows[i].spaceId == old(rows)[i].spaceId && rows[i].email == old(rows)[i].email
      ensures Queue.IsActive(rows[i], now)
      ensures log == old(log) + (if IsBeingSent(old(rows)[i], now) || WaitsToBeSent(old(rows)[i], now)
                                 then []
                                 else [Entry(i, old(rows)[i].spaceId, old(rows)[i].email, sender, now)])
      ensures deliver <==> !IsBeingSent(old(rows)[i], now)
    {
      var status := Queue.EffectiveStatus(rows[i], now);
      ghost var before := rows;
      ResendIsAStep(rows, nextId, i, nonce, now);
      deliver := false;
      if status == Queue.Queued {
        Expedite(i, now);
        deliver := true;
      } else if status != Queue.Sending {
        Requeue(sender, i, nonce, now);
        deliver := true;
      }
      assert rows == before[i := Queue.Resent(before[i], nonce, now)];
    }

    /** Schedules the email of a pending invitation again, or moves a queued one to now. */
    method Resend(role: Option<Role>, sender: nat, space: nat, i: nat, nonce: int, now: int)
      returns (res: Result<bool, Refusal>)
      requires Valid()
      modifies this`rows, this`log
      ensures Valid()
      ensures role != Some(Owner) <==> res == Err(ForbiddenSpace)
      ensures res.Err? ==> rows == old(rows) && log == old(log)
      ensures role == Some(Owner) ==> (res == Err(NotFound) <==> i !in ActiveIds(old(rows), space, now))
      ensures role == Some(Owner) && i in ActiveIds(old(rows), space, now) ==>
                var r := Request(sender, Some(space), [old(rows)[i].email], Some(i));
                && (res.Ok? <==> !Refuses(old(log), r, now))
                && (res.Err? ==> res.error.RateLimited? && IsAnnounced(old(log), r, now, res.error.retryAfterSeconds))
      ensures res.Ok? ==>
                var row := old(rows)[i];
                && OnlyChanges(old(rows), rows, i) && IsResent(row, rows[i], nonce, now)
                && rows == Queue.Apply(QueueAt(old(rows), nextId, now), Queue.Resend(i, nonce)).rows
                && log == old(log) + (if IsBeingSent(row, now) || WaitsToBeSent(row, now)
                                      then []
                                      else [Entry(i, space, row.email, sender, now)])
                && (res.value <==> !IsBeingSent(row, now))
      ensures old(PendingOk(rows, space, now)) ==> PendingOk(rows, space, now)
    {
      if role != Some(Owner) {
        return Err(ForbiddenSpace);
      }
      if i !in rows || rows[i].spaceId != space || !Queue.IsActive(rows[i], now) {
        return Err(NotFound);
      }
      var allowed := AssertCanSchedule(Request(sender, Some(space), [rows[i].email], Some(i)), now);
      if allowed.Err? {
        return Err(RateLimited(allowed.error));
      }
      ghost var before := rows;
      var deliver := Reschedule(sender, i, nonce, now);
      if PendingOk(before, space, now) {
        FewerActiveKeepPending(before, rows, space, now, now);
      }
      return Ok(deliver);
    }

    /** Ends a pending invitation, expired ones included, and cancels its email. */
    method Revoke(role: Option<Role>, space: nat, i: nat, now: int) returns (res: Result<(), Refusal>)
      requires Valid()
      modifies this`rows
      ensures Valid()
      ensures role != Some(Owner) <==> res == Err(ForbiddenSpace)
      ensures role == Some(Owner) ==>
                (res.Ok? <==> && i in old(rows) && old(rows)[i].spaceId == space
                              && old(rows)[i].acceptedAt.None? && old(rows)[i].revokedAt.None?)
      ensures role == Some(Owner) && res.Err? ==> res == Err(NotFound)
      ensures res.Err? ==> rows == old(rows)
      ensures res.Ok? ==>
                && OnlyChanges(old(rows), rows, i) && IsRevoked(old(rows)[i], rows[i], now)
                && rows == Queue.Apply(QueueAt(old(rows), nextId, now), Queue.Revoke(i)).rows
      ensures old(PendingOk(rows, space, now)) ==> PendingOk(rows, space, now)
    {
      if role != Some(Owner) {
        return Err(ForbiddenSpace);
      }
      if i !in rows || rows[i].spaceId != space || rows[i].acceptedAt.Some? || rows[i].revokedAt.Some? {
        return Err(NotFound);
      }
      ghost var before := rows;
      var row := rows[i].(revokedAt := Some(now), nextAttemptAt := None, leaseExpiresAt := None);
      rows := rows[i := row.(attemptId := row.attemptId + 1)];
      if PendingOk(before, space, now) {
        FewerActiveKeepPending(before, rows, space, now, now);
      }
      return Ok(());
    }
  }
}
