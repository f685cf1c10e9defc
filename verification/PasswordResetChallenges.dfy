/** Which challenge a request belongs to, told from the history alone. */
module PasswordResetChallenges {
  import opened Basics
  import opened PasswordReset
  import opened PasswordResetProofs

  /** The latest accepted request of an address. */
  function LastRequest(log: seq<Entry>, a: nat): Option<Entry> {
    if log == [] then None
    else if log[|log| - 1].Request? && log[|log| - 1].address == a then Some(log[|log| - 1])
    else LastRequest(log[..|log| - 1], a)
  }

  /** Its code was accepted at some time. */
  predicate WasGranted(log: seq<Entry>, a: nat, challenge: int) {
    exists e :: e in log && e.Grant? && e.address == a && e.challenge == challenge
  }

  /** The request's challenge still takes codes: not expired, not accepted, with a wrong code to spare. */
  predicate TakesCodes(log: seq<Entry>, e: Entry, now: int)
    requires e.Request?
  {
    now < e.expiresAt && !WasGranted(log, e.address, e.challenge) && Count(log, MissesOf(e.address, e.challenge)) < 5
  }

  /** A request goes on with the challenge of the one before while that takes codes, and starts one otherwise. */
  predicate Follows(before: seq<Entry>, f: Entry) {
    f.Request? ==>
      var last := LastRequest(before, f.address);
      if last.Some? && last.value.Request? && TakesCodes(before, last.value, f.at)
      then f.challenge == last.value.challenge && f.expiresAt == last.value.expiresAt
      else f.challenge == f.at && f.expiresAt == f.at + 1_800_000
  }

  ghost predicate AllFollow(log: seq<Entry>) {
    forall k :: 0 <= k < |log| ==> Follows(log[..k], log[k])
  }

  /** The row is the latest request's challenge and knows whether its code was accepted. */
  predicate ShowsLatest(log: seq<Entry>, a: nat, row: Challenge) {
    var last := LastRequest(log, a);
    && last.Some? && last.value.Request? && last.value.address == a
    && last.value.challenge == row.startedAt && last.value.expiresAt == row.expiresAt
    && (row.verifiedAt.Some? <==> WasGranted(log, a, row.startedAt))
    && (row.completedAt.Some? ==> row.verifiedAt.Some?)
  }

  ghost predicate RowsShow(log: seq<Entry>, rows: map<nat, Challenge>) {
    forall a :: a in rows ==> ShowsLatest(log, a, rows[a])
  }

  ghost predicate ChallengeInv(s: State) {
    AllFollow(s.log) && RowsShow(s.log, s.rows)
  }

  // ------------------------------------------------------------------ one more entry

  lemma LastRequestGrows(log: seq<Entry>, e: Entry, a: nat)
    ensures LastRequest(log + [e], a) == if e.Request? && e.address == a then Some(e) else LastRequest(log, a)
  {
    assert (log + [e])[..|log|] == log;
  }

  lemma GrantedGrows(log: seq<Entry>, e: Entry, a: nat, challenge: int)
    ensures WasGranted(log + [e], a, challenge) <==>
            WasGranted(log, a, challenge) || (e.Grant? && e.address == a && e.challenge == challenge)
  {
    if e.Grant? && e.address == a && e.challenge == challenge {
      assert e in log + [e];
    } else if f :| f in log + [e] && f.Grant? && f.address == a && f.challenge == challenge {
      assert f in log;
    }
  }

  lemma FollowsGrow(log: seq<Entry>, e: Entry)
    requires AllFollow(log) && Follows(log, e)
    ensures AllFollow(log + [e])
  {
    forall k | 0 <= k < |log + [e]| ensures Follows((log + [e])[..k], (log + [e])[k]) {
      if k < |log| {
        assert (log + [e])[..k] == log[..k];
      } else {
        assert (log + [e])[..k] == log;
      }
    }
  }

  lemma OthersStillShow(log: seq<Entry>, e: Entry, b: nat, row: Challenge)
    requires ShowsLatest(log, b, row) && e.address != b
    ensures ShowsLatest(log + [e], b, row)
  {
    LastRequestGrows(log, e, b);
    GrantedGrows(log, e, b, row.startedAt);
  }

  lemma ChallengesGrow(s: State, a: nat, row: Challenge, e: Entry, s': State)
    requires ChallengeInv(s) && e.address == a && Follows(s.log, e) && ShowsLatest(s.log + [e], a, row)
    requires s'.rows == s.rows[a := row] && s'.log == s.log + [e]
    ensures ChallengeInv(s')
  {
    FollowsGrow(s.log, e);
    forall b | b in s'.rows ensures ShowsLatest(s'.log, b, s'.rows[b]) {
      if b != a {
        OthersStillShow(s.log, e, b, s.rows[b]);
      }
    }
  }

  // ------------------------------------------------------------------ requests

  lemma NobodyAskedYet(log: seq<Entry>, a: nat)
    requires forall e :: e in log ==> e.address != a
    ensures LastRequest(log, a).None? && forall c :: !WasGranted(log, a, c)
  {
    if log != [] {
      NobodyAskedYet(log[..|log| - 1], a);
    }
  }

  lemma FirstRequestShows(log: seq<Entry>, a: nat, account: Option<nat>, code: nat, t: int)
    requires forall e :: e in log ==> e.address != a
    ensures var row := FirstChallenge(a, account, code, t);
            Follows(log, RequestEntry(a, row, t)) && ShowsLatest(log + [RequestEntry(a, row, t)], a, row)
  {
    var row := FirstChallenge(a, account, code, t);
    NobodyAskedYet(log, a);
    LastRequestGrows(log, RequestEntry(a, row, t), a);
    GrantedGrows(log, RequestEntry(a, row, t), a, row.startedAt);
  }

  /** What the row tells about its challenge is what the history tells. */
  lemma PendingMeansTakesCodes(log: seq<Entry>, a: nat, row: Challenge, t: int)
    requires RowOk(log, a, row) && ShowsLatest(log, a, row)
    ensures StateAt(row, t) == Pending <==> TakesCodes(log, LastRequest(log, a).value, t)
  {
  }

  lemma NotGrantedYet(log: seq<Entry>, a: nat, row: Challenge, t: int)
    requires RowOk(log, a, row) && RequestRetryAfter(row, t).None?
    ensures !WasGranted(log, a, t)
  {
    AdmittedMeans(row, t);
    forall e | e in log && e.Grant? && e.address == a ensures e.challenge != t {
      assert Bounds(row, e);
    }
  }

  lemma LaterRequestShows(log: seq<Entry>, a: nat, row: Challenge, account: Option<nat>, code: nat, t: int)
    requires RowOk(log, a, row) && ShowsLatest(log, a, row) && RequestRetryAfter(row, t).None?
    ensures var row' := Rerequested(row, a, account, code, t);
            Follows(log, RequestEntry(a, row', t)) && ShowsLatest(log + [RequestEntry(a, row', t)], a, row')
  {
    var row' := Rerequested(row, a, account, code, t);
    PendingMeansTakesCodes(log, a, row, t);
    NotGrantedYet(log, a, row, t);
    LastRequestGrows(log, RequestEntry(a, row', t), a);
    GrantedGrows(log, RequestEntry(a, row', t), a, row'.startedAt);
  }

  lemma RequestKeepsChallenges(s: State, a: nat, account: Option<nat>, code: nat, t: int)
    requires Inv(s) && ChallengeInv(s)
    ensures ChallengeInv(AfterRequest(s, a, account, code, t))
  {
    var s' := AfterRequest(s, a, account, code, t);
    if s'.log != s.log {
      if a in s.rows {
        LaterRequestNotes(s, a, account, code, t);
        LaterRequestShows(s.log, a, s.rows[a], account, code, t);
      } else {
        FirstRequestShows(s.log, a, account, code, t);
      }
      ChallengesGrow(s, a, s'.rows[a], RequestEntry(a, s'.rows[a], t), s');
    }
  }

  // ------------------------------------------------------------------ codes, completions and deliveries

  lemma JudgedStillShows(log: seq<Entry>, a: nat, row: Challenge, verdict: Verdict, t: int, e: Entry)
    requires ShowsLatest(log, a, row) && e.address == a
    requires (verdict.Wrong? && e.Miss?) || (verdict.Right? && e.Grant? && e.challenge == row.startedAt)
    requires verdict.Right? ==> StateAt(row, t) != Ended
    ensures ShowsLatest(log + [e], a, Judged(row, verdict, t))
  {
    LastRequestGrows(log, e, a);
    GrantedGrows(log, e, a, row.startedAt);
  }

  lemma VerifyKeepsChallenges(s: State, a: nat, account: Option<nat>, code: nat, t: int)
    requires Inv(s) && ChallengeInv(s)
    ensures ChallengeInv(AfterVerify(s, a, account, code, t))
  {
    var s' := AfterVerify(s, a, account, code, t);
    if s'.log != s.log {
      VerifyNotes(s, a, account, code, t);
      var verdict := Judge(s.rows[a], a, account, code, t);
      JudgedStillShows(s.log, a, s.rows[a], verdict, t, s'.log[|s.log|]);
      ChallengesGrow(s, a, s'.rows[a], s'.log[|s.log|], s');
    }
  }

  lemma CommitKeepsChallenges(s: State, w: nat, password: Password, t: int)
    requires Inv(s) && ChallengeInv(s)
    ensures ChallengeInv(AfterCompleteCommit(s, w, password, t))
  {
    var s' := AfterCompleteCommit(s, w, password, t);
    if s'.log != s.log {
      CommitNotes(s, w, password, t);
      var (p, e) := (s.completions[w], s'.log[|s.log|]);
      assert ShowsLatest(s.log, p.address, s.rows[p.address]) && TokenOk(p.address, s.rows[p.address]);
      LastRequestGrows(s.log, e, p.address);
      GrantedGrows(s.log, e, p.address, s.rows[p.address].startedAt);
      ChallengesGrow(s, p.address, s'.rows[p.address], e, s');
    }
  }

  lemma DeliveryKeepsChallenges(s: State, a: nat, id: nat, status: SendStatus, t: int)
    requires ChallengeInv(s)
    ensures ChallengeInv(Apply(s, Deliver(a, id, status, t)))
  {
    var s' := Apply(s, Deliver(a, id, status, t));
    forall b | b in s'.rows ensures ShowsLatest(s'.log, b, s'.rows[b]) {
      assert ShowsLatest(s.log, b, s.rows[b]);
    }
  }

  lemma ApplyKeepsChallenges(s: State, e: Event)
    requires Inv(s) && ChallengeInv(s)
    ensures ChallengeInv(Apply(s, e))
  {
    match e
    case RequestCode(a, account, code, t) => RequestKeepsChallenges(s, a, account, code, t);
    case VerifyCode(a, account, code, t) => VerifyKeepsChallenges(s, a, account, code, t);
    case CompleteCommit(w, p, t) => CommitKeepsChallenges(s, w, p, t);
    case Deliver(a, id, status, t) => DeliveryKeepsChallenges(s, a, id, status, t);
    case _ => QuietSteps(s, e);
  }

  lemma {:induction false} EveryRunKeepsChallenges(events: seq<Event>)
    ensures ChallengeInv(After(INIT, events))
  {
    if events == [] {
    } else {
      EveryRunKeepsChallenges(events[..|events| - 1]);
      EveryRunKeepsInv(events[..|events| - 1]);
      ApplyKeepsChallenges(After(INIT, events[..|events| - 1]), events[|events| - 1]);
    }
  }

  // ------------------------------------------------------------------ for every run

  lemma {:induction false} LastRequestIs(log: seq<Entry>, a: nat, i: nat)
    requires i < |log| && log[i].Request? && log[i].address == a
    requires forall k :: i < k < |log| ==> !(log[k].Request? && log[k].address == a)
    ensures LastRequest(log, a) == Some(log[i])
  {
    if i < |log| - 1 {
      LastRequestIs(log[..|log| - 1], a, i);
    }
  }

  /**
   A resend stays on its challenge, with its wrong codes and its expiry, exactly while that has not expired,
   its code was not accepted and five wrong codes were not counted; any other request starts a challenge.
   */
  lemma ResendsStayOnTheirChallenge(events: seq<Event>, a: nat, i: nat, j: nat)
    requires i < j < |After(INIT, events).log|
    requires var log := After(INIT, events).log;
             && log[i].Request? && log[i].address == a && log[j].Request? && log[j].address == a
             && (forall k :: i < k < j ==> !(log[k].Request? && log[k].address == a))
    ensures var log := After(INIT, events).log;
            var (e, f) := (log[i], log[j]);
            if && f.at < e.expiresAt && Count(log[..j], MissesOf(a, e.challenge)) < 5
               && (forall g :: g in log[..j] && g.Grant? && g.address == a ==> g.challenge != e.challenge)
            then f.challenge == e.challenge && f.expiresAt == e.expiresAt
            else f.challenge == f.at && f.expiresAt == f.at + 1_800_000
  {
    EveryRunKeepsChallenges(events);
    var log := After(INIT, events).log;
    assert Follows(log[..j], log[j]);
    LastRequestIs(log[..j], a, i);
  }

  /** The first request of an address starts a challenge. */
  lemma FirstRequestsStartOne(events: seq<Event>, j: nat)
    requires j < |After(INIT, events).log|
    requires var log := After(INIT, events).log;
             log[j].Request? && forall k :: 0 <= k < j ==> !(log[k].Request? && log[k].address == log[j].address)
    ensures var f := After(INIT, events).log[j]; f.challenge == f.at && f.expiresAt == f.at + 1_800_000
  {
    EveryRunKeepsChallenges(events);
    var log := After(INIT, events).log;
    assert Follows(log[..j], log[j]);
    NoneAsked(log[..j], log[j].address);
  }

  lemma {:induction false} NoneAsked(log: seq<Entry>, a: nat)
    requires forall k :: 0 <= k < |log| ==> !(log[k].Request? && log[k].address == a)
    ensures LastRequest(log, a).None?
  {
    if log != [] {
      NoneAsked(log[..|log| - 1], a);
    }
  }
}
