/**
 The invitation rows as a lease-based work queue.

 A worker claims a row by one conditional UPDATE, reads it back by a second statement, sends the
 email with no transaction open, and records the result by another conditional UPDATE. Resends,
 revocations, acceptances, deletions, crashes and the sweep of ended invitations interleave with
 these steps in any order. A clock reading may be older than the statement that uses it.
 */
module InviteQueue {
  import opened Basics

  const MAX_ATTEMPTS := 5
  const LEASE_MS := 120_000
  const RETRY_DELAYS_MS: seq<int> := [60_000, 300_000, 1_800_000, 7_200_000]

  datatype Status = NotSent | Queued | Sending | Sent | Failed

  datatype Invite = Invite(
    spaceId: nat,
    email: string,
    expiresAt: int,
    acceptedAt: Option<int>,
    revokedAt: Option<int>,
    nonce: Option<int>,
    status: Status,
    attempts: nat,
    attemptId: nat,
    nextAttemptAt: Option<int>,
    leaseExpiresAt: Option<int>,
    lastSentAt: Option<int>)

  // ------------------------------------------------------------------ statements on one row

  predicate AtMost(time: Option<int>, t: int) {
    time.Some? && time.value <= t
  }

  /** Accepted or revoked: no later statement may touch the delivery state. */
  predicate IsTerminal(row: Invite) {
    row.acceptedAt.Some? || row.revokedAt.Some?
  }

  predicate IsActive(row: Invite, t: int) {
    !IsTerminal(row) && row.expiresAt > t
  }

  predicate IsPending(row: Invite) {
    row.status == Queued || row.status == Sending
  }

  function NewInvite(spaceId: nat, email: string, expiresAt: int, nonce: int, now: int): Invite {
    Invite(spaceId, email, expiresAt, None, None, Some(nonce), Queued, 0, 0, Some(now), None, None)
  }

  /** `sending` whose lease ran out is waiting for its retry, so it reads as queued. */
  function EffectiveStatus(row: Invite, now: int): Status {
    if row.status == Sending && !(row.leaseExpiresAt.Some? && row.leaseExpiresAt.value > now)
    then Queued
    else row.status
  }

  predicate Claimable(row: Invite, t: int) {
    && IsActive(row, t)
    && row.nonce.Some?
    && (|| (row.status == Queued && AtMost(row.nextAttemptAt, t))
        || (row.status == Sending && AtMost(row.leaseExpiresAt, t)))
  }

  function Claimed(row: Invite, t: int): Invite {
    row.(status := Sending, attemptId := row.attemptId + 1, attempts := row.attempts + 1,
         leaseExpiresAt := Some(t + LEASE_MS), nextAttemptAt := Some(t + LEASE_MS))
  }

  /** The rows a pass over due work picks, before its batch limit. */
  predicate IsDue(row: Invite, t: int) {
    IsPending(row) && AtMost(row.nextAttemptAt, t) && IsActive(row, t)
  }

  predicate CanFinish(row: Invite, attemptId: nat, t: int) {
    row.attemptId == attemptId && row.status == Sending && IsActive(row, t)
  }

  function Finished(row: Invite, status: Status, retryInMs: Option<int>, t: int): Invite {
    row.(status := status, leaseExpiresAt := None,
         nextAttemptAt := if retryInMs.None? then None else Some(t + retryInMs.value),
         lastSentAt := if status == Sent then Some(t) else row.lastSentAt)
  }

  function Requeued(row: Invite, nonce: int, now: int): Invite {
    row.(nonce := if row.nonce.Some? then row.nonce else Some(nonce), status := Queued, attempts := 0,
         nextAttemptAt := Some(now), leaseExpiresAt := None, attemptId := row.attemptId + 1)
  }

  /** The delivery part of a resend that passed its access checks and limits. */
  function Resent(row: Invite, nonce: int, now: int): Invite {
    match EffectiveStatus(row, now)
    case Queued => row.(nextAttemptAt := Some(now))
    case Sending => row
    case _ => Requeued(row, nonce, now)
  }

  /** Whether a resend gives the row a fresh attempt budget. */
  predicate Reschedules(row: Invite, now: int) {
    EffectiveStatus(row, now) != Queued && EffectiveStatus(row, now) != Sending
  }

  function Revoked(row: Invite, now: int): Invite {
    row.(revokedAt := Some(now), nextAttemptAt := None, leaseExpiresAt := None, attemptId := row.attemptId + 1)
  }

  function Accepted(row: Invite, now: int): Invite {
    row.(acceptedAt := Some(now), nextAttemptAt := None, leaseExpiresAt := None, attemptId := row.attemptId + 1)
  }

  function Swept(row: Invite, t: int): Invite {
    if IsPending(row) && !IsActive(row, t) then row.(nextAttemptAt := None, leaseExpiresAt := None) else row
  }

  /** The delay after a failed attempt; None where the array has no such index. */
  function RetryDelay(attempts: nat): Option<int> {
    if 1 <= attempts <= |RETRY_DELAYS_MS| then Some(RETRY_DELAYS_MS[attempts - 1]) else None
  }

  // ------------------------------------------------------------------ the machine

  datatype Outcome = Accepts | Rejects(permanent: bool)

  /** The part of a worker's life a crash can interrupt. */
  datatype Stage =
    | ClaimWritten
    | ReadBack(snapshot: Invite)
    | Mailing(snapshot: Invite)
    | Mailed(snapshot: Invite, outcome: Outcome)

  /** `attemptId` is the id the worker's own claim wrote; the code only learns it by reading back. */
  datatype Worker = Worker(invite: nat, claimedAt: int, attemptId: nat, stage: Stage)

  /**
   `sends` counts the emails handed to SMTP since an invitation's latest scheduling and `results`
   lists the attempts whose result was written. Neither is stored by the program.
   */
  datatype State = State(
    now: int,
    nextId: nat,
    rows: map<nat, Invite>,
    workers: map<nat, Worker>,
    sends: map<nat, nat>,
    results: seq<(nat, nat)>)

  datatype Event =
    | Tick(t: int)
    | Create(spaceId: nat, email: string, expiresAt: int, nonce: int)
    | Resend(invite: nat, freshNonce: int)
    | Revoke(invite: nat)
    | Accept(invite: nat)
    | Delete(invite: nat)
    | Sweep(t: int)
    | Claim(worker: nat, invite: nat, t: int)
    | Read(worker: nat)
    | Send(worker: nat)
    | Settle(worker: nat, outcome: Outcome)
    | Record(worker: nat, t: int)
    | Crash(worker: nat)

  function LeaseEnd(w: Worker): int {
    w.claimedAt + LEASE_MS
  }

  function Drop(s: State, w: nat): State {
    s.(workers := s.workers - {w})
  }

  function Put(s: State, i: nat, row: Invite): State {
    s.(rows := s.rows[i := row])
  }

  /** What a worker writes after its attempt: the status and the retry delay. */
  function Verdict(snapshot: Invite, outcome: Outcome): (Status, Option<int>) {
    match outcome
    case Accepts => (Sent, None)
    case Rejects(permanent) =>
      if permanent || snapshot.attempts >= MAX_ATTEMPTS
      then (Failed, None)
      else (Queued, RetryDelay(snapshot.attempts))
  }

  /** Writes a result while the row is still the attempt's; the worker is done either way. */
  function Recorded(s: State, w: nat, snapshot: Invite, status: Status, retryInMs: Option<int>, t: int): State
    requires w in s.workers
  {
    var i := s.workers[w].invite;
    if i in s.rows && CanFinish(s.rows[i], snapshot.attemptId, t)
    then
      Drop(Put(s, i, Finished(s.rows[i], status, retryInMs, t)), w)
        .(results := s.results + [(i, snapshot.attemptId)])
    else Drop(s, w)
  }

  /** One step; an event whose statement matches no row, or whose check fails, changes nothing. */
  function Apply(s: State, e: Event): State {
    match e
    case Tick(t) => if t >= s.now then s.(now := t) else s
    case Create(spaceId, email, expiresAt, nonce) =>
      Put(s, s.nextId, NewInvite(spaceId, email, expiresAt, nonce, s.now))
        .(nextId := s.nextId + 1, sends := s.sends[s.nextId := 0])
    case Resend(i, nonce) =>
      if i in s.rows && IsActive(s.rows[i], s.now) then
        Put(s, i, Resent(s.rows[i], nonce, s.now))
          .(sends := if Reschedules(s.rows[i], s.now) then s.sends[i := 0] else s.sends)
      else s
    case Revoke(i) =>
      if i in s.rows && !IsTerminal(s.rows[i]) then Put(s, i, Revoked(s.rows[i], s.now)) else s
    case Accept(i) =>
      if i in s.rows && IsActive(s.rows[i], s.now) then Put(s, i, Accepted(s.rows[i], s.now)) else s
    case Delete(i) => s.(rows := s.rows - {i})
    case Sweep(t) => if t <= s.now then s.(rows := map i | i in s.rows :: Swept(s.rows[i], t)) else s
    case Claim(w, i, t) =>
      if w !in s.workers && t <= s.now && i in s.rows && Claimable(s.rows[i], t) then
        Put(s, i, Claimed(s.rows[i], t))
          .(workers := s.workers[w := Worker(i, t, s.rows[i].attemptId + 1, ClaimWritten)])
      else s
    case Read(w) =>
      if w in s.workers && s.workers[w].stage.ClaimWritten? then
        var i := s.workers[w].invite;
        if i in s.rows && IsActive(s.rows[i], s.workers[w].claimedAt)
        then s.(workers := s.workers[w := s.workers[w].(stage := ReadBack(s.rows[i]))])
        else Drop(s, w)
      else s
    case Send(w) =>
      if w in s.workers && s.workers[w].stage.ReadBack? then
        var (i, snapshot) := (s.workers[w].invite, s.workers[w].stage.snapshot);
        if snapshot.attempts > MAX_ATTEMPTS then Recorded(s, w, snapshot, Failed, None, s.now)
        else if i in s.rows then
          s.(workers := s.workers[w := s.workers[w].(stage := Mailing(snapshot))],
             sends := if i in s.sends then s.sends[i := s.sends[i] + 1] else s.sends)
        else Drop(s, w)  // the space, and the invitation with it, is gone
      else s
    case Settle(w, outcome) =>
      if w in s.workers && s.workers[w].stage.Mailing?
      then s.(workers := s.workers[w := s.workers[w].(stage := Mailed(s.workers[w].stage.snapshot, outcome))])
      else s
    case Record(w, t) =>
      if w in s.workers && s.workers[w].stage.Mailed? && t <= s.now then
        var stage := s.workers[w].stage;
        var (status, retry) := Verdict(stage.snapshot, stage.outcome);
        Recorded(s, w, stage.snapshot, status, retry, t)
      else s
    case Crash(w) => Drop(s, w)
  }

  function After(s: State, events: seq<Event>): State {
    if events == [] then s else Apply(After(s, events[..|events| - 1]), events[|events| - 1])
  }

  /** The service starts over invitations that predate email delivery. */
  ghost predicate Init(s: State) {
    && s.workers == map[] && s.results == [] && s.sends.Keys == s.rows.Keys
    && (forall i :: i in s.rows ==>
                      && i < s.nextId
                      && s.sends[i] == 0
                      && s.rows[i].status == NotSent
                      && s.rows[i].nextAttemptAt.None?
                      && s.rows[i].leaseExpiresAt.None?)
  }

  // ------------------------------------------------------------------ what every run keeps

  /** The schedule of a row agrees with its status. */
  ghost predicate RowOk(row: Invite, now: int) {
    && (IsTerminal(row) ==> row.nextAttemptAt.None? && row.leaseExpiresAt.None?)
    && (!IsTerminal(row) && row.status == Queued ==>
          row.nonce.Some? && row.leaseExpiresAt.None? && (row.nextAttemptAt.Some? || row.expiresAt <= now))
    && (!IsTerminal(row) && row.status == Sending ==>
          && row.nonce.Some? && row.attempts >= 1
          && (|| (row.leaseExpiresAt.None? && row.nextAttemptAt.None? && row.expiresAt <= now)
              || (&& row.leaseExpiresAt.Some? && row.nextAttemptAt.Some?
                  && row.leaseExpiresAt.value <= row.nextAttemptAt.value
                  && (row.nextAttemptAt == row.leaseExpiresAt || row.nextAttemptAt.value <= now))))
    && (row.status == Sending ==> row.attempts >= 1)
  }

  /** A snapshot never runs ahead of its row, and only one read while sending can match it again. */
  ghost predicate SnapshotOk(snapshot: Invite, row: Invite) {
    && snapshot.attemptId <= row.attemptId
    && (snapshot.attemptId == row.attemptId && row.status == Sending ==>
          snapshot.status == Sending && snapshot.attempts == row.attempts)
  }

  /** A recorded attempt is over: its id can never again be that of a sending row. */
  ghost predicate ResultOk(s: State, result: (nat, nat)) {
    && result.0 < s.nextId
    && (result.0 in s.rows ==>
          || result.1 < s.rows[result.0].attemptId
          || (result.1 == s.rows[result.0].attemptId && s.rows[result.0].status != Sending))
  }

  ghost predicate WorkerOk(s: State, w: Worker) {
    && w.invite < s.nextId
    && (w.invite in s.rows && !w.stage.ClaimWritten? ==> SnapshotOk(w.stage.snapshot, s.rows[w.invite]))
  }

  ghost predicate RowsOk(s: State) {
    forall i :: i in s.rows ==> i < s.nextId && RowOk(s.rows[i], s.now)
  }

  ghost predicate WorkersOk(s: State) {
    forall w :: w in s.workers ==> WorkerOk(s, s.workers[w])
  }

  ghost predicate ResultsOk(s: State) {
    && (forall k :: 0 <= k < |s.results| ==> ResultOk(s, s.results[k]))
    && (forall j, k :: 0 <= j < k < |s.results| ==> s.results[j] != s.results[k])
  }

  ghost predicate Inv(s: State) {
    RowsOk(s) && WorkersOk(s) && ResultsOk(s)
  }
}
