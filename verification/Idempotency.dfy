/**
 One idempotency key: requests that carry it, and the purge of expired keys.

 Every request runs in one transaction at READ COMMITTED. It tries to insert the key's row, which
 waits for whoever wrote it and has not committed; on a duplicate it reads the committed row, and
 then answers with the stored result, refuses, or revives an expired row by a conditional UPDATE.
 The shared locks that a refused INSERT leaves behind would only remove interleavings.
 */
module Idempotency {
  import opened Basics

  const TTL_MS := 86_400_000
  const MAX_CLAIM_ATTEMPTS := 3

  /** The row of the key; payloads are equal when their hashes are. */
  datatype Key = Key(id: nat, hash: nat, body: Option<nat>, createdAt: int, expiresAt: int)

  datatype Stage = Inserting | Reading | Reviving(id: nat) | Running(claimedAt: int)

  /** `now` is read once, when the claim begins. */
  datatype Request = Request(hash: nat, now: int, attempt: nat, stage: Stage)

  /** Whose uncommitted write locks the row. */
  datatype Holder = Nobody | Writer(request: nat) | Purger

  /** What was committed and what was answered, in order. `Ran` is an execution of the work. */
  datatype Entry =
    | Ran(hash: nat, body: nat, now: int, claimedAt: int, expiresAt: int)
    | Replayed(hash: nat, answer: Option<nat>)
    | Refused(hash: nat)

  datatype State = State(
    committed: Option<Key>,
    holder: Holder,
    written: Option<Key>,
    requests: map<nat, Request>,
    log: seq<Entry>,
    clock: int,
    nextId: nat)

  const INIT := State(None, Nobody, None, map[], [], 0, 0)

  datatype Event =
    | Begin(request: nat, hash: nat)
    | Insert(request: nat)
    | Read(request: nat)
    | Revive(request: nat)
    | Finish(request: nat, body: nat)
    | Abort(request: nat)
    | PurgeLock
    | PurgeCommit
    | PurgeAbort
    | Pass(ms: nat)

  predicate AtStage(s: State, r: nat, stage: Stage) {
    r in s.requests && s.requests[r].stage == stage
  }

  function Fresh(id: nat, request: Request): Key {
    Key(id, request.hash, None, request.now, request.now + TTL_MS)
  }

  function SetRequest(s: State, r: nat, request: Request): State {
    s.(requests := s.requests[r := request])
  }

  function Drop(s: State, r: nat): State {
    s.(requests := s.requests - {r})
  }

  /** The next attempt, or giving up with an error. */
  function Again(s: State, r: nat): State
    requires r in s.requests
  {
    if s.requests[r].attempt >= MAX_CLAIM_ATTEMPTS then Drop(s, r)
    else SetRequest(s, r, s.requests[r].(attempt := s.requests[r].attempt + 1, stage := Inserting))
  }

  function Claim(s: State, r: nat, key: Key): State
    requires r in s.requests
  {
    SetRequest(s, r, s.requests[r].(stage := Running(s.clock))).(holder := Writer(r), written := Some(key))
  }

  function AfterInsert(s: State, r: nat): State {
    if !AtStage(s, r, Inserting) || s.holder != Nobody then s
    else if s.committed.Some? then SetRequest(s, r, s.requests[r].(stage := Reading))
    else Claim(s, r, Fresh(s.nextId, s.requests[r])).(nextId := s.nextId + 1)
  }

  function AfterRead(s: State, r: nat): State {
    if !AtStage(s, r, Reading) then s
    else
      var request := s.requests[r];
      if s.committed.None? then Again(s, r)
      else if s.committed.value.expiresAt <= request.now
      then SetRequest(s, r, request.(stage := Reviving(s.committed.value.id)))
      else if s.committed.value.hash != request.hash then Drop(s, r).(log := s.log + [Refused(request.hash)])
      else Drop(s, r).(log := s.log + [Replayed(request.hash, s.committed.value.body)])
  }

  function AfterRevive(s: State, r: nat): State {
    if r !in s.requests || !s.requests[r].stage.Reviving? || s.holder != Nobody then s
    else
      var request := s.requests[r];
      if s.committed.Some? && s.committed.value.id == request.stage.id && s.committed.value.expiresAt <= request.now
      then Claim(s, r, Fresh(request.stage.id, request))
      else Again(s, r)
  }

  /** The work is done and its result stored; all of it commits. */
  function AfterFinish(s: State, r: nat, body: nat): State {
    if r !in s.requests || !s.requests[r].stage.Running? || s.holder != Writer(r) || s.written.None? then s
    else
      var request := s.requests[r];
      Drop(s, r).(committed := Some(s.written.value.(body := Some(body))), holder := Nobody, written := None,
                  log := s.log + [Ran(request.hash, body, request.now, request.stage.claimedAt,
                                                      s.written.value.expiresAt)])
  }

  function AfterAbort(s: State, r: nat): State {
    if s.holder == Writer(r) then Drop(s, r).(holder := Nobody, written := None) else Drop(s, r)
  }

  /** SELECT ... FOR UPDATE SKIP LOCKED, then DELETE. */
  function AfterPurgeLock(s: State): State {
    if s.holder == Nobody && s.committed.Some? && s.committed.value.expiresAt <= s.clock
    then s.(holder := Purger)
    else s
  }

  function Apply(s: State, e: Event): State {
    match e
    case Begin(r, hash) => if r in s.requests then s else SetRequest(s, r, Request(hash, s.clock, 1, Inserting))
    case Insert(r) => AfterInsert(s, r)
    case Read(r) => AfterRead(s, r)
    case Revive(r) => AfterRevive(s, r)
    case Finish(r, body) => AfterFinish(s, r, body)
    case Abort(r) => AfterAbort(s, r)
    case PurgeLock => AfterPurgeLock(s)
    case PurgeCommit => if s.holder == Purger then s.(committed := None, holder := Nobody) else s
    case PurgeAbort => if s.holder == Purger then s.(holder := Nobody) else s
    case Pass(ms) => s.(clock := s.clock + ms)
  }

  function After(s: State, events: seq<Event>): State {
    if events == [] then s else Apply(After(s, events[..|events| - 1]), events[|events| - 1])
  }

  // ------------------------------------------------------------------ what every run keeps

  /** The latest execution so far. */
  function LastRun(log: seq<Entry>): Option<Entry> {
    if log == [] then None
    else if log[|log| - 1].Ran? then Some(log[|log| - 1])
    else LastRun(log[..|log| - 1])
  }

  lemma LastRunGrows(log: seq<Entry>, e: Entry)
    ensures LastRun(log + [e]) == if e.Ran? then Some(e) else LastRun(log)
  {
    assert (log + [e])[..|log|] == log;
  }

  ghost predicate AllExpired(log: seq<Entry>, t: int) {
    forall e :: e in log && e.Ran? ==> e.expiresAt <= t
  }

  predicate IsRowOf(key: Key, e: Entry) {
    e.Ran? && key.hash == e.hash && key.body == Some(e.body) && key.expiresAt == e.expiresAt
  }

  /** An execution holds the key for a day from its start; an answer repeats, or refuses against, the latest one. */
  predicate AnswerOk(before: seq<Entry>, e: Entry) {
    var last := LastRun(before);
    match e
    case Ran(_, _, now, claimedAt, expiresAt) => now <= claimedAt && expiresAt == now + TTL_MS
    case Replayed(hash, body) => last.Some? && last.value.Ran? && last.value.hash == hash
                                 && body == Some(last.value.body)
    case Refused(hash) => last.Some? && last.value.Ran? && last.value.hash != hash
  }

  predicate RunsApart(e: Entry, f: Entry) {
    e.Ran? && f.Ran? ==> e.expiresAt <= f.claimedAt
  }

  ghost predicate LogOk(log: seq<Entry>) {
    && (forall i, j :: 0 <= i < j < |log| ==> RunsApart(log[i], log[j]))
    && (forall k :: 0 <= k < |log| ==> AnswerOk(log[..k], log[k]))
  }

  ghost predicate RequestOk(s: State, r: nat)
    requires r in s.requests
  {
    var request := s.requests[r];
    && request.now <= s.clock
    && (request.stage.Running? ==>
          && s.holder == Writer(r) && s.written.Some? && s.written.value.hash == request.hash
          && s.written.value.expiresAt == request.now + TTL_MS && request.now <= request.stage.claimedAt
          && request.stage.claimedAt <= s.clock && AllExpired(s.log, request.stage.claimedAt))
  }

  ghost predicate CommittedOk(s: State) {
    if s.committed.None? then AllExpired(s.log, s.clock)
    else
      && LastRun(s.log).Some? && IsRowOf(s.committed.value, LastRun(s.log).value)
      && AllExpired(s.log, Max(s.clock, s.committed.value.expiresAt))
  }

  ghost predicate RequestsOk(s: State) {
    forall r :: r in s.requests ==> RequestOk(s, r)
  }

  ghost predicate Inv(s: State) {
    && LogOk(s.log) && CommittedOk(s) && RequestsOk(s)
    && (s.holder == Purger ==> s.committed.Some? && s.committed.value.expiresAt <= s.clock)
    && (s.holder.Writer? ==> s.holder.request in s.requests && s.requests[s.holder.request].stage.Running?)
  }

  // ------------------------------------------------------------------ one step

  lemma LogGrows(log: seq<Entry>, e: Entry)
    requires LogOk(log) && AnswerOk(log, e)
    requires forall f :: f in log ==> RunsApart(f, e)
    ensures LogOk(log + [e])
  {
    forall k | 0 <= k < |log + [e]| ensures AnswerOk((log + [e])[..k], (log + [e])[k]) {
      if k < |log| {
        assert (log + [e])[..k] == log[..k];
        assert AnswerOk(log[..k], log[k]);
      } else {
        assert (log + [e])[..k] == log;
      }
    }
    forall i, j | 0 <= i < j < |log + [e]| ensures RunsApart((log + [e])[i], (log + [e])[j]) {
      if j < |log| {
        assert RunsApart(log[i], log[j]);
      } else {
        assert log[i] in log;
      }
    }
  }

  /** A request moves on without claiming, and nothing is committed. */
  lemma QuietStep(s: State, r: nat, s': State)
    requires Inv(s) && r in s.requests && !s.requests[r].stage.Running?
    requires s' == s.(requests := s'.requests)
    requires s'.requests == s.requests - {r} ||
             (r in s'.requests && s'.requests == s.requests[r := s'.requests[r]] && s'.requests[r].now <= s.clock
              && !s'.requests[r].stage.Running?)
    ensures Inv(s')
  {
    forall q | q in s'.requests ensures RequestOk(s', q) {
      if q != r {
        assert RequestOk(s, q);
      }
    }
  }

  lemma ClaimKeepsInv(s: State, r: nat, key: Key, next: nat)
    requires Inv(s) && r in s.requests && s.holder == Nobody && key == Fresh(key.id, s.requests[r])
             && AllExpired(s.log, s.clock)
    ensures Inv(Claim(s, r, key).(nextId := next))
  {
    var s' := Claim(s, r, key).(nextId := next);
    forall q | q in s'.requests ensures RequestOk(s', q) {
      assert RequestOk(s, q);
    }
  }

  lemma InsertKeepsInv(s: State, r: nat)
    requires Inv(s)
    ensures Inv(AfterInsert(s, r))
  {
    if AtStage(s, r, Inserting) && s.holder == Nobody {
      assert RequestOk(s, r);
      if s.committed.Some? {
        QuietStep(s, r, AfterInsert(s, r));
      } else {
        ClaimKeepsInv(s, r, Fresh(s.nextId, s.requests[r]), s.nextId + 1);
      }
    }
  }

  lemma AnswerKeepsInv(s: State, r: nat, e: Entry)
    requires Inv(s) && r in s.requests && !s.requests[r].stage.Running? && !e.Ran? && AnswerOk(s.log, e)
    ensures Inv(Drop(s, r).(log := s.log + [e]))
  {
    var s' := Drop(s, r).(log := s.log + [e]);
    LogGrows(s.log, e);
    LastRunGrows(s.log, e);
    forall q | q in s'.requests ensures RequestOk(s', q) {
      assert RequestOk(s, q);
    }
  }

  lemma ReadKeepsInv(s: State, r: nat)
    requires Inv(s)
    ensures Inv(AfterRead(s, r))
  {
    if AtStage(s, r, Reading) {
      assert RequestOk(s, r);
      var (request, s') := (s.requests[r], AfterRead(s, r));
      if s'.log == s.log {
        QuietStep(s, r, s');
      } else {
        AnswerKeepsInv(s, r, s'.log[|s.log|]);
      }
    }
  }

  lemma ReviveKeepsInv(s: State, r: nat)
    requires Inv(s)
    ensures Inv(AfterRevive(s, r))
  {
    if r in s.requests && s.requests[r].stage.Reviving? && s.holder == Nobody {
      assert RequestOk(s, r);
      var s' := AfterRevive(s, r);
      if s'.holder == Nobody {
        QuietStep(s, r, s');
      } else {
        ClaimKeepsInv(s, r, Fresh(s.requests[r].stage.id, s.requests[r]), s.nextId);
      }
    }
  }

  function Written(s: State, r: nat, body: nat): Entry
    requires r in s.requests && s.requests[r].stage.Running? && s.written.Some?
  {
    var request := s.requests[r];
    Ran(request.hash, body, request.now, request.stage.claimedAt, s.written.value.expiresAt)
  }

  lemma FinishedLogIsOk(s: State, r: nat, body: nat)
    requires LogOk(s.log) && r in s.requests && RequestOk(s, r) && s.requests[r].stage.Running?
    ensures LogOk(s.log + [Written(s, r, body)])
  {
    LogGrows(s.log, Written(s, r, body));
  }

  lemma FinishedRowIsOk(s: State, r: nat, body: nat)
    requires r in s.requests && RequestOk(s, r) && s.requests[r].stage.Running?
    ensures CommittedOk(AfterFinish(s, r, body))
  {
    LastRunGrows(s.log, Written(s, r, body));
  }

  /** Nobody else is running, so what the others need still holds. */
  lemma FinishKeepsRequests(s: State, r: nat, body: nat)
    requires RequestsOk(s)
    ensures RequestsOk(AfterFinish(s, r, body))
  {
    var s' := AfterFinish(s, r, body);
    if s' != s {
      forall q | q in s'.requests ensures RequestOk(s', q) {
        assert RequestOk(s, q);
      }
    }
  }

  lemma FinishKeepsInv(s: State, r: nat, body: nat)
    requires Inv(s)
    ensures Inv(AfterFinish(s, r, body))
  {
    FinishKeepsRequests(s, r, body);
    if AfterFinish(s, r, body) != s {
      assert RequestOk(s, r);
      FinishedLogIsOk(s, r, body);
      FinishedRowIsOk(s, r, body);
    }
  }

  lemma AbortKeepsInv(s: State, r: nat)
    requires Inv(s)
    ensures Inv(AfterAbort(s, r))
  {
    var s' := AfterAbort(s, r);
    forall q | q in s'.requests ensures RequestOk(s', q) {
      assert RequestOk(s, q);
    }
  }

  lemma PurgeKeepsInv(s: State, e: Event)
    requires Inv(s) && (e.PurgeLock? || e.PurgeCommit? || e.PurgeAbort?)
    ensures Inv(Apply(s, e))
  {
    forall q | q in Apply(s, e).requests ensures RequestOk(Apply(s, e), q) {
      assert RequestOk(s, q);
    }
  }

  lemma PassKeepsInv(s: State, ms: nat)
    requires Inv(s)
    ensures Inv(s.(clock := s.clock + ms))
  {
    var s' := s.(clock := s.clock + ms);
    forall q | q in s'.requests ensures RequestOk(s', q) {
      assert RequestOk(s, q);
    }
  }

  lemma ApplyKeepsInv(s: State, e: Event)
    requires Inv(s)
    ensures Inv(Apply(s, e))
  {
    match e
    case Begin(r, hash) =>
      forall q | q in Apply(s, e).requests ensures RequestOk(Apply(s, e), q) {
        assert q in s.requests ==> RequestOk(s, q);
      }
    case Insert(r) => InsertKeepsInv(s, r);
    case Read(r) => ReadKeepsInv(s, r);
    case Revive(r) => ReviveKeepsInv(s, r);
    case Finish(r, body) => FinishKeepsInv(s, r, body);
    case Abort(r) => AbortKeepsInv(s, r);
    case PurgeLock => PurgeKeepsInv(s, e);
    case PurgeCommit => PurgeKeepsInv(s, e);
    case PurgeAbort => PurgeKeepsInv(s, e);
    case Pass(ms) => PassKeepsInv(s, ms);
  }

  lemma {:induction false} EveryRunKeepsInv(events: seq<Event>)
    ensures Inv(After(INIT, events))
  {
    if events == [] {
    } else {
      EveryRunKeepsInv(events[..|events| - 1]);
      ApplyKeepsInv(After(INIT, events[..|events| - 1]), events[|events| - 1]);
    }
  }

  // ------------------------------------------------------------------ for every run

  /** The work runs again only for a claim made once the execution before had expired, a day after it began. */
  lemma SecondRunWaitsForExpiry(events: seq<Event>, i: nat, j: nat)
    requires i < j < |After(INIT, events).log|
    ensures var (e, f) := (After(INIT, events).log[i], After(INIT, events).log[j]);
            e.Ran? && f.Ran? ==> e.expiresAt == e.now + 86_400_000 && e.expiresAt <= f.claimedAt
  {
    EveryRunKeepsInv(events);
    assert AnswerOk(After(INIT, events).log[..i], After(INIT, events).log[i]);
    assert RunsApart(After(INIT, events).log[i], After(INIT, events).log[j]);
  }

  /** A repeat is answered with the result of the latest execution of the same payload, or refused for another one. */
  lemma RepeatsGetTheStoredResult(events: seq<Event>, k: nat)
    requires k < |After(INIT, events).log|
    ensures AnswerOk(After(INIT, events).log[..k], After(INIT, events).log[k])
  {
    EveryRunKeepsInv(events);
  }

  /** At most one transaction at a time is between claiming the key and committing. */
  lemma ClaimsExclude(events: seq<Event>, q: nat, r: nat)
    requires q in After(INIT, events).requests && r in After(INIT, events).requests
    requires After(INIT, events).requests[q].stage.Running? && After(INIT, events).requests[r].stage.Running?
    ensures q == r
  {
    EveryRunKeepsInv(events);
    assert RequestOk(After(INIT, events), q) && RequestOk(After(INIT, events), r);
  }

  lemma StepCountsAttempts(s: State, e: Event, r: nat)
    requires r in Apply(s, e).requests
    ensures var after := Apply(s, e).requests[r].attempt;
            if r !in s.requests then after == 1
            else after == s.requests[r].attempt || (after == s.requests[r].attempt + 1 && s.requests[r].attempt < 3)
  {
  }

  lemma {:induction false} AttemptsAreCounted(events: seq<Event>, r: nat)
    requires r in After(INIT, events).requests
    ensures 1 <= After(INIT, events).requests[r].attempt <= 3
  {
    if events != [] {
      StepCountsAttempts(After(INIT, events[..|events| - 1]), events[|events| - 1], r);
      if r in After(INIT, events[..|events| - 1]).requests {
        AttemptsAreCounted(events[..|events| - 1], r);
      }
    }
  }

  /** A request that ends without an answer or an abort is in its third attempt. */
  lemma GivesUpOnlyAfterThree(events: seq<Event>, e: Event, r: nat)
    requires var (s, s') := (After(INIT, events), Apply(After(INIT, events), e));
             r in s.requests && r !in s'.requests && s'.log == s.log && !e.Abort?
    ensures After(INIT, events).requests[r].attempt == 3 && (e == Read(r) || e == Revive(r))
  {
    AttemptsAreCounted(events, r);
  }
}
