/**
 The delivery service over its two tables: the invitation rows and the send log.

 Each method is one call run with nothing else in between; InviteQueue says how the same statements
 interleave. The outcome of an email is a parameter.
 */
module InviteDelivery {
  import opened Basics
  import Queue = InviteQueue
  import opened InviteLimits

  const POLL_BATCH := 20
  const PURGE_BATCH := 1000

  type Rows = map<nat, Queue.Invite>

  // ------------------------------------------------------------------ Retry-After

  /** The times a limit counts: the scope's entries scheduled after `since`. */
  function Times(rows: seq<Entry>, scope: Scope, since: int): (times: seq<int>)
    ensures |times| == Since(rows, scope, since)
    ensures forall t :: t in times ==> since < t
  {
    if rows == [] then []
    else
      var e := rows[|rows| - 1];
      Times(rows[..|rows| - 1], scope, since) + if Counts(scope, e) && since < e.at then [e.at] else []
  }

  function Earliest(times: seq<int>): (t: int)
    requires times != []
    ensures t in times && forall u :: u in times ==> t <= u
  {
    assert times == [times[0]] + times[1..];
    if |times| == 1 then times[0] else Min(times[0], Earliest(times[1..]))
  }

  function Latest(times: seq<int>): (t: int)
    requires times != []
    ensures t in times && forall u :: u in times ==> u <= t
  {
    assert times == [times[0]] + times[1..];
    if |times| == 1 then times[0] else Max(times[0], Latest(times[1..]))
  }

  /** How long until a scope's oldest counted entry leaves the window, when the limit is full. */
  function LimitWait(rows: seq<Entry>, scope: Scope, adding: nat, now: int): (wait: int)
    requires adding <= LimitOf(scope)
    ensures wait > 0 <==> Exceeds(rows, scope, adding, now)
  {
    var times := Times(rows, scope, now - LIMIT_WINDOW_MS);
    if |times| + adding > LimitOf(scope) then Earliest(times) + LIMIT_WINDOW_MS - now else 0
  }

  function CooldownWait(rows: seq<Entry>, invite: nat, now: int): int {
    var times := Times(rows, ByInvite(invite), now - LIMIT_WINDOW_MS);
    if times == [] then 0 else Latest(times) + RESEND_COOLDOWN_MS - now
  }

  lemma {:induction false} TimesAreTheEntries(rows: seq<Entry>, scope: Scope, since: int, at: int)
    ensures at in Times(rows, scope, since) <==> exists e :: e in rows && Counts(scope, e) && since < e.at && e.at == at
  {
    if rows != [] {
      TimesAreTheEntries(rows[..|rows| - 1], scope, since, at);
      assert rows == rows[..|rows| - 1] + [rows[|rows| - 1]];
    }
  }

  lemma {:induction false} SinceCountsSomething(rows: seq<Entry>, scope: Scope, lo: int)
    ensures Since(rows, scope, lo) > 0 <==> exists e :: e in rows && Counts(scope, e) && lo < e.at
  {
    if rows != [] {
      SinceCountsSomething(rows[..|rows| - 1], scope, lo);
      assert rows == rows[..|rows| - 1] + [rows[|rows| - 1]];
    }
  }

  /** The last email of an invitation, looked for in the 24-hour window only, settles the cooldown. */
  lemma CooldownWaitIsExact(rows: seq<Entry>, invite: nat, now: int, t: int)
    requires now <= t
    ensures CooldownWait(rows, invite, now) > t - now <==>
            Since(rows, ByInvite(invite), t - RESEND_COOLDOWN_MS) > 0
  {
    var since := now - LIMIT_WINDOW_MS;
    var times := Times(rows, ByInvite(invite), since);
    SinceCountsSomething(rows, ByInvite(invite), t - RESEND_COOLDOWN_MS);
    if times != [] {
      TimesAreTheEntries(rows, ByInvite(invite), since, Latest(times));
    }
    forall e | e in rows && Counts(ByInvite(invite), e) && t - RESEND_COOLDOWN_MS < e.at ensures e.at in times {
      TimesAreTheEntries(rows, ByInvite(invite), since, e.at);
    }
  }

  lemma {:induction false} OldestEntryStillCounts(rows: seq<Entry>, scope: Scope, now: int, t: int)
    requires now <= t
    requires var times := Times(rows, scope, now - LIMIT_WINDOW_MS);
             times == [] || t < Earliest(times) + LIMIT_WINDOW_MS
    ensures Since(rows, scope, t - LIMIT_WINDOW_MS) == Since(rows, scope, now - LIMIT_WINDOW_MS)
  {
    if rows != [] {
      var shorter := rows[..|rows| - 1];
      var times := Times(shorter, scope, now - LIMIT_WINDOW_MS);
      if times != [] {
        assert Earliest(times) in Times(rows, scope, now - LIMIT_WINDOW_MS);
      }
      OldestEntryStillCounts(shorter, scope, now, t);
      var e := rows[|rows| - 1];
      if Counts(scope, e) && now - LIMIT_WINDOW_MS < e.at {
        assert e.at in Times(rows, scope, now - LIMIT_WINDOW_MS);
      }
    }
  }

  lemma {:induction false} OldestEntryLeaves(rows: seq<Entry>, scope: Scope, now: int, t: int)
    requires now <= t && Times(rows, scope, now - LIMIT_WINDOW_MS) != []
    requires Earliest(Times(rows, scope, now - LIMIT_WINDOW_MS)) + LIMIT_WINDOW_MS <= t
    ensures Since(rows, scope, t - LIMIT_WINDOW_MS) < Since(rows, scope, now - LIMIT_WINDOW_MS)
  {
    var since := now - LIMIT_WINDOW_MS;
    var shorter := rows[..|rows| - 1];
    var e := rows[|rows| - 1];
    CountsOnlyShrink(shorter, scope, since, t - LIMIT_WINDOW_MS);
    if Counts(scope, e) && since < e.at && e.at + LIMIT_WINDOW_MS <= t {
    } else {
      var first := Earliest(Times(rows, scope, since));
      assert first in Times(shorter, scope, since);
      OldestEntryLeaves(shorter, scope, now, t);
    }
  }

  lemma CountsOnlyShrink(rows: seq<Entry>, scope: Scope, lo: int, lo': int)
    requires lo <= lo'
    ensures Since(rows, scope, lo') <= Since(rows, scope, lo)
  {
  }

  /** The wait of one of the request's checks at `now`. */
  ghost predicate IsAWait(rows: seq<Entry>, r: Request, now: int, w: int)
    requires |r.emails| <= MAX_PENDING_INVITES_PER_SPACE
  {
    || (r.invite.Some? && (|| w == CooldownWait(rows, r.invite.value, now)
                           || w == LimitWait(rows, ByInvite(r.invite.value), 1, now)))
    || (r.space.Some? && w == LimitWait(rows, BySpace(r.space.value), |r.emails|, now))
    || w == LimitWait(rows, BySender(r.sender), |r.emails|, now)
    || exists k :: 0 <= k < |r.emails| && w == LimitWait(rows, ByEmail(r.emails[k]), 1, now)
  }

  /** `w` covers every check but those of the addresses from the k-th on. */
  ghost predicate CoversWaits(rows: seq<Entry>, r: Request, now: int, w: int, k: nat)
    requires |r.emails| <= MAX_PENDING_INVITES_PER_SPACE
  {
    && (r.invite.Some? ==> CooldownWait(rows, r.invite.value, now) <= w
                           && LimitWait(rows, ByInvite(r.invite.value), 1, now) <= w)
    && (r.space.Some? ==> LimitWait(rows, BySpace(r.space.value), |r.emails|, now) <= w)
    && LimitWait(rows, BySender(r.sender), |r.emails|, now) <= w
    && (forall j :: 0 <= j < k && j < |r.emails| ==> LimitWait(rows, ByEmail(r.emails[j]), 1, now) <= w)
  }

  lemma OneMoreWait(rows: seq<Entry>, r: Request, now: int, w: int, k: nat)
    requires |r.emails| <= MAX_PENDING_INVITES_PER_SPACE && k < |r.emails|
    requires IsAWait(rows, r, now, w) && CoversWaits(rows, r, now, w, k)
    ensures var w' := Max(w, LimitWait(rows, ByEmail(r.emails[k]), 1, now));
            IsAWait(rows, r, now, w') && CoversWaits(rows, r, now, w', k + 1)
  {
  }

  ghost predicate IsLongestWait(rows: seq<Entry>, r: Request, now: int, w: int)
    requires |r.emails| <= MAX_PENDING_INVITES_PER_SPACE
  {
    IsAWait(rows, r, now, w) && CoversWaits(rows, r, now, w, |r.emails|)
  }

  lemma LimitWaitLasts(rows: seq<Entry>, scope: Scope, adding: nat, now: int, t: int)
    requires adding <= LimitOf(scope) && now <= t < now + LimitWait(rows, scope, adding, now)
    ensures Exceeds(rows, scope, adding, t)
  {
    OldestEntryStillCounts(rows, scope, now, t);
  }

  lemma LimitWaitEnds(rows: seq<Entry>, scope: Scope, now: int, t: int)
    requires now <= t && now + LimitWait(rows, scope, 1, now) <= t && 1 <= LimitOf(scope)
    requires Since(rows, scope, now - LIMIT_WINDOW_MS) <= LimitOf(scope)
    ensures !Exceeds(rows, scope, 1, t)
  {
    CountsOnlyShrink(rows, scope, now - LIMIT_WINDOW_MS, t - LIMIT_WINDOW_MS);
    if Exceeds(rows, scope, 1, now) {
      OldestEntryLeaves(rows, scope, now, t);
    }
  }

  /** The longest wait is positive exactly for a refused request, and until it ends the request stays refused. */
  lemma RefusedUntilTheWaitEnds(rows: seq<Entry>, r: Request, now: int, w: int, t: int)
    requires |r.emails| <= MAX_PENDING_INVITES_PER_SPACE && IsLongestWait(rows, r, now, w)
    ensures w > 0 <==> Refuses(rows, r, now)
    ensures now <= t < now + w ==> Refuses(rows, r, t)
  {
    if r.invite.Some? {
      CooldownWaitIsExact(rows, r.invite.value, now, now);
    }
    if now <= t < now + w {
      if r.invite.Some? && w == CooldownWait(rows, r.invite.value, now) {
        CooldownWaitIsExact(rows, r.invite.value, now, t);
      } else if r.invite.Some? && w == LimitWait(rows, ByInvite(r.invite.value), 1, now) {
        LimitWaitLasts(rows, ByInvite(r.invite.value), 1, now, t);
      } else if r.space.Some? && w == LimitWait(rows, BySpace(r.space.value), |r.emails|, now) {
        LimitWaitLasts(rows, BySpace(r.space.value), |r.emails|, now, t);
      } else if w == LimitWait(rows, BySender(r.sender), |r.emails|, now) {
        LimitWaitLasts(rows, BySender(r.sender), |r.emails|, now, t);
      } else {
        var k :| 0 <= k < |r.emails| && w == LimitWait(rows, ByEmail(r.emails[k]), 1, now);
        LimitWaitLasts(rows, ByEmail(r.emails[k]), 1, now, t);
      }
    }
  }

  /** No count is already past its limit, as overlapping requests can leave it. */
  ghost predicate NothingOverLimit(rows: seq<Entry>, now: int) {
    forall scope :: Since(rows, scope, now - LIMIT_WINDOW_MS) <= LimitOf(scope)
  }

  /** For one email, nothing else being scheduled, the client is told the exact moment. */
  lemma AdmittedWhenTheWaitEnds(rows: seq<Entry>, r: Request, now: int, w: int, t: int)
    requires |r.emails| == 1 && IsLongestWait(rows, r, now, w) && NothingOverLimit(rows, now)
    requires now <= t && now + w <= t
    ensures !Refuses(rows, r, t)
  {
    if r.invite.Some? {
      CooldownWaitIsExact(rows, r.invite.value, now, t);
      LimitWaitEnds(rows, ByInvite(r.invite.value), now, t);
    }
    if r.space.Some? {
      LimitWaitEnds(rows, BySpace(r.space.value), now, t);
    }
    LimitWaitEnds(rows, BySender(r.sender), now, t);
    LimitWaitEnds(rows, ByEmail(r.emails[0]), now, t);
  }

  function Seconds(ms: int): nat {
    if ms <= 0 then 0 else (ms + 999) / 1000
  }

  /** The Retry-After of a refused request: the wait in seconds, the last one begun counted as whole. */
  ghost predicate IsAnnounced(rows: seq<Entry>, r: Request, now: int, seconds: nat)
    requires |r.emails| <= MAX_PENDING_INVITES_PER_SPACE
  {
    exists w :: w > 0 && IsLongestWait(rows, r, now, w) && (seconds - 1) * 1000 < w <= seconds * 1000
  }

  // ------------------------------------------------------------------ one attempt, one pass

  datatype AttemptOutcome = Skipped | Delivered | Retry | GaveUp

  /** An attempt that is over its budget gives up before it looks for the space. */
  predicate FindsNoSpace(row: Queue.Invite, spaces: set<nat>) {
    row.spaceId !in spaces && row.attempts < Queue.MAX_ATTEMPTS
  }

  /** What an attempt that meets nobody else does to the rows; without its space it stops at the claim. */
  function Attempted(rows: Rows, i: nat, t: int, spaces: set<nat>, outcome: Queue.Outcome): Rows {
    if i in rows && Queue.Claimable(rows[i], t) then
      var claimed := Queue.Claimed(rows[i], t);
      if FindsNoSpace(rows[i], spaces) then rows[i := claimed]
      else
        var (status, retry) :=
          if claimed.attempts > Queue.MAX_ATTEMPTS then (Queue.Failed, None) else Queue.Verdict(claimed, outcome);
        rows[i := Queue.Finished(claimed, status, retry, t)]
    else rows
  }

  function SweptRows(rows: Rows, t: int): Rows {
    map i | i in rows :: Queue.Swept(rows[i], t)
  }

  function AttemptedAll(rows: Rows, batch: seq<nat>, t: int, spaces: set<nat>, mail: nat -> Queue.Outcome): Rows {
    if batch == [] then rows
    else
      var last := |batch| - 1;
      Attempted(AttemptedAll(rows, batch[..last], t, spaces, mail), batch[last], t, spaces, mail(batch[last]))
  }

  ghost predicate AllDue(rows: Rows, batch: seq<nat>, t: int) {
    && (forall k :: 0 <= k < |batch| ==> batch[k] in rows && Queue.IsDue(rows[batch[k]], t))
    && (forall j, k :: 0 <= j < k < |batch| ==> batch[j] != batch[k])
  }

  /** The due rows, earliest first, as far as the batch reaches. */
  ghost predicate IsBatch(rows: Rows, batch: seq<nat>, t: int) {
    && |batch| <= 20 && AllDue(rows, batch, t)
    && (forall i, k :: 0 <= k < |batch| && i in rows && Queue.IsDue(rows[i], t) && i !in batch ==>
                         rows[batch[k]].nextAttemptAt.value <= rows[i].nextAttemptAt.value)
    && (|batch| < 20 ==> forall i :: i in rows && Queue.IsDue(rows[i], t) ==> i in batch)
  }

  /** The queue with one worker that has claimed the row and is at the stage. */
  function OneWorker(rows: Rows, i: nat, t: int, claimed: Queue.Invite, stage: Queue.Stage): Queue.State {
    Queue.State(t, 0, rows[i := claimed], map[0 := Queue.Worker(i, t, claimed.attemptId, stage)], map[], [])
  }

  lemma ClaimedAndRead(rows: Rows, i: nat, t: int)
    requires i in rows && Queue.Claimable(rows[i], t)
    ensures var s := Queue.State(t, 0, rows, map[], map[], []);
            var claimed := Queue.Claimed(rows[i], t);
            Queue.Apply(Queue.Apply(s, Queue.Claim(0, i, t)), Queue.Read(0))
            == OneWorker(rows, i, t, claimed, Queue.ReadBack(claimed))
  {
    var s := Queue.State(t, 0, rows, map[], map[], []);
    var claimed := Queue.Claimed(rows[i], t);
    assert Queue.Apply(s, Queue.Claim(0, i, t)) == OneWorker(rows, i, t, claimed, Queue.ClaimWritten);
  }

  /**
   An undisturbed attempt is one run of the queue's steps; one that finds no space ends like a crash
   after the read-back.
   */
  lemma AttemptIsARunOfTheQueue(rows: Rows, i: nat, t: int, spaces: set<nat>, outcome: Queue.Outcome)
    ensures var s := Queue.State(t, 0, rows, map[], map[], []);
            var s1 := Queue.Apply(Queue.Apply(s, Queue.Claim(0, i, t)), Queue.Read(0));
            var s2 := Queue.Apply(Queue.Apply(s1, Queue.Send(0)), Queue.Settle(0, outcome));
            Attempted(rows, i, t, spaces, outcome) ==
            if i in rows && FindsNoSpace(rows[i], spaces)
            then Queue.Apply(s1, Queue.Crash(0)).rows
            else Queue.Apply(s2, Queue.Record(0, t)).rows
  {
    if i in rows && Queue.Claimable(rows[i], t) {
      ClaimedAndRead(rows, i, t);
      var claimed := Queue.Claimed(rows[i], t);
      if FindsNoSpace(rows[i], spaces) {
        StoppedAtTheClaim(rows, i, t, spaces, claimed, outcome);
      } else if claimed.attempts <= Queue.MAX_ATTEMPTS {
        SentAndSettled(rows, i, t, claimed, outcome);
        ResultIsRecorded(rows, i, t, spaces, claimed, outcome);
      } else {
        GivenUp(rows, i, t, spaces, claimed, outcome);
      }
    }
  }

  lemma StoppedAtTheClaim(rows: Rows, i: nat, t: int, spaces: set<nat>, claimed: Queue.Invite, outcome: Queue.Outcome)
    requires i in rows && Queue.Claimable(rows[i], t) && claimed == Queue.Claimed(rows[i], t)
    requires FindsNoSpace(rows[i], spaces)
    ensures Queue.Apply(OneWorker(rows, i, t, claimed, Queue.ReadBack(claimed)), Queue.Crash(0)).rows
            == Attempted(rows, i, t, spaces, outcome)
  {
  }

  lemma ResultIsRecorded(rows: Rows, i: nat, t: int, spaces: set<nat>, claimed: Queue.Invite, outcome: Queue.Outcome)
    requires i in rows && Queue.Claimable(rows[i], t) && claimed == Queue.Claimed(rows[i], t)
    requires claimed.attempts <= Queue.MAX_ATTEMPTS && !FindsNoSpace(rows[i], spaces)
    ensures Queue.Apply(OneWorker(rows, i, t, claimed, Queue.Mailed(claimed, outcome)), Queue.Record(0, t)).rows
            == Attempted(rows, i, t, spaces, outcome)
  {
  }

  lemma GivenUp(rows: Rows, i: nat, t: int, spaces: set<nat>, claimed: Queue.Invite, outcome: Queue.Outcome)
    requires i in rows && Queue.Claimable(rows[i], t) && claimed == Queue.Claimed(rows[i], t)
    requires claimed.attempts > Queue.MAX_ATTEMPTS
    ensures var s1 := OneWorker(rows, i, t, claimed, Queue.ReadBack(claimed));
            var s2 := Queue.Apply(Queue.Apply(s1, Queue.Send(0)), Queue.Settle(0, outcome));
            Queue.Apply(s2, Queue.Record(0, t)).rows == Attempted(rows, i, t, spaces, outcome)
  {
  }

  lemma SentAndSettled(rows: Rows, i: nat, t: int, claimed: Queue.Invite, outcome: Queue.Outcome)
    requires i in rows && claimed.attempts <= Queue.MAX_ATTEMPTS
    ensures var s1 := OneWorker(rows, i, t, claimed, Queue.ReadBack(claimed));
            Queue.Apply(Queue.Apply(s1, Queue.Send(0)), Queue.Settle(0, outcome))
            == OneWorker(rows, i, t, claimed, Queue.Mailed(claimed, outcome))
  {
  }

  lemma AttemptSettlesItsRow(rows: Rows, i: nat, t: int, spaces: set<nat>, outcome: Queue.Outcome)
    requires i in rows && Queue.Claimable(rows[i], t)
    ensures var after := Attempted(rows, i, t, spaces, outcome);
            && after.Keys == rows.Keys && (forall j :: j in rows && j != i ==> after[j] == rows[j])
            && !Queue.IsDue(after[i], t) && after[i].attemptId == rows[i].attemptId + 1
  {
  }

  /** The row was attempted once and is not due any more. */
  ghost predicate IsDrained(rows: Rows, after: Rows, i: nat, t: int) {
    i in rows && i in after && !Queue.IsDue(after[i], t) && after[i].attemptId == rows[i].attemptId + 1
  }

  /** Of the first n of the batch each was attempted once and is not due; the other rows are as they were. */
  ghost predicate DrainsFirst(rows: Rows, after: Rows, batch: seq<nat>, t: int, n: nat)
    requires n <= |batch|
  {
    && after.Keys == rows.Keys
    && (forall i :: i in rows && i !in batch[..n] ==> after[i] == rows[i])
    && (forall k :: 0 <= k < n ==> IsDrained(rows, after, batch[k], t))
  }

  lemma OneMoreOfTheBatch(rows: Rows, before: Rows, batch: seq<nat>, t: int, spaces: set<nat>, outcome: Queue.Outcome,
      n: nat)
    requires AllDue(rows, batch, t) && n < |batch| && DrainsFirst(rows, before, batch, t, n)
    requires Queue.Claimable(rows[batch[n]], t)
    ensures DrainsFirst(rows, Attempted(before, batch[n], t, spaces, outcome), batch, t, n + 1)
  {
    assert batch[n] !in batch[..n];
    OneMoreDrained(rows, before, batch[n], t, spaces, outcome);
    var after := Attempted(before, batch[n], t, spaces, outcome);
    forall i | i in rows && i !in batch[..n + 1] ensures after[i] == rows[i] {
      assert batch[n] in batch[..n + 1] && i !in batch[..n];
    }
    forall k | 0 <= k < n ensures IsDrained(rows, after, batch[k], t) {
      assert IsDrained(rows, before, batch[k], t);
    }
  }

  /** A pass leaves none of its batch due and touches nothing else. */
  lemma {:induction false} PassDrainsItsBatch(rows: Rows, batch: seq<nat>, t: int, spaces: set<nat>,
      mail: nat -> Queue.Outcome, n: nat)
    requires AllDue(rows, batch, t) && n <= |batch|
    requires forall i :: i in rows && Queue.IsDue(rows[i], t) ==> Queue.Claimable(rows[i], t)
    ensures DrainsFirst(rows, AttemptedAll(rows, batch[..n], t, spaces, mail), batch, t, n)
  {
    if n > 0 {
      PassDrainsItsBatch(rows, batch, t, spaces, mail, n - 1);
      assert batch[..n][..n - 1] == batch[..n - 1];
      var before := AttemptedAll(rows, batch[..n - 1], t, spaces, mail);
      OneMoreOfTheBatch(rows, before, batch, t, spaces, mail(batch[n - 1]), n - 1);
    }
  }

  lemma OneMoreDrained(rows: Rows, before: Rows, i: nat, t: int, spaces: set<nat>, outcome: Queue.Outcome)
    requires i in rows && before.Keys == rows.Keys && before[i] == rows[i] && Queue.Claimable(rows[i], t)
    ensures var after := Attempted(before, i, t, spaces, outcome);
            && after.Keys == rows.Keys && IsDrained(rows, after, i, t)
            && (forall j :: j in rows && j != i ==> after[j] == before[j])
            && (forall j :: j != i && IsDrained(rows, before, j, t) ==> IsDrained(rows, after, j, t))
  {
    AttemptSettlesItsRow(before, i, t, spaces, outcome);
  }

  /** Deletes at most `count` entries that have left the window. */
  function Purged(rows: seq<Entry>, cutoff: int, count: nat): (kept: seq<Entry>)
    decreases |rows|
  {
    if rows == [] || count == 0 then rows
    else if rows[0].at <= cutoff then Purged(rows[1..], cutoff, count - 1)
    else [rows[0]] + Purged(rows[1..], cutoff, count)
  }

  /** What is still in the window is kept, and a full batch or every expired entry goes. */
  lemma {:induction false} PurgeTakesOnlyExpired(rows: seq<Entry>, cutoff: int, count: nat)
    ensures forall e: Entry :: e.at > cutoff ==> multiset(Purged(rows, cutoff, count))[e] == multiset(rows)[e]
    ensures |Purged(rows, cutoff, count)| == |rows| - count
            || forall e :: e in Purged(rows, cutoff, count) ==> e.at > cutoff
  {
    if rows != [] && count > 0 {
      assert multiset(rows) == multiset{rows[0]} + multiset(rows[1..]) by { assert rows == [rows[0]] + rows[1..]; }
      var rest := if rows[0].at <= cutoff then count - 1 else count;
      PurgeTakesOnlyExpired(rows[1..], cutoff, rest);
      assert multiset([rows[0]] + Purged(rows[1..], cutoff, rest)) ==
             multiset{rows[0]} + multiset(Purged(rows[1..], cutoff, rest));
    }
  }
}
