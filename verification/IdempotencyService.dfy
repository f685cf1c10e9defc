/** The claim of an idempotency key as the code makes it: a bounded loop, with others at work between its statements. */
module IdempotencyService {
  import opened Basics
  import opened Idempotency

  datatype ClaimResult = Claimed | Repeat(body: Option<nat>) | Reused | GaveUp

  /** What a claim comes to while nobody else touches the row. */
  function Undisturbed(row: Option<Key>, hash: nat, now: int): ClaimResult {
    if row.None? || row.value.expiresAt <= now then Claimed
    else if row.value.hash != hash then Reused
    else Repeat(row.value.body)
  }

  /** The first steps of a request; those that do not apply to it change nothing. */
  function ClaimSteps(r: nat, hash: nat): seq<Event> {
    [Begin(r, hash), Insert(r), Read(r), Revive(r)]
  }

  lemma AfterOneMore(s: State, events: seq<Event>, e: Event)
    ensures After(s, events + [e]) == Apply(After(s, events), e)
  {
    assert (events + [e])[..|events + [e]| - 1] == events;
  }

  lemma AfterFour(s: State, a: Event, b: Event, c: Event, d: Event)
    ensures After(s, [a, b, c, d]) == Apply(Apply(Apply(Apply(s, a), b), c), d)
  {
    assert [a, b, c, d] == [] + [a] + [b] + [c] + [d];
    AfterOneMore(s, [], a);
    AfterOneMore(s, [] + [a], b);
    AfterOneMore(s, [] + [a] + [b], c);
    AfterOneMore(s, [] + [a] + [b] + [c], d);
  }

  /** With nobody else at work, a request claims the key, repeats its result or refuses. */
  lemma UndisturbedClaimIsARun(s: State, r: nat, hash: nat)
    requires s.holder == Nobody && r !in s.requests
    ensures var s' := After(s, ClaimSteps(r, hash));
            && s'.committed == s.committed && s'.clock == s.clock
            && match Undisturbed(s.committed, hash, s.clock)
               case Claimed =>
                 && r in s'.requests && s'.requests[r].stage == Running(s.clock) && s'.holder == Writer(r)
                 && s'.written.Some? && s'.log == s.log
                 && s'.written.value.(id := 0) == Key(0, hash, None, s.clock, s.clock + 86_400_000)
                 && (s.committed.Some? ==> s'.written.value.id == s.committed.value.id)
               case Repeat(body) => s' == s.(log := s.log + [Replayed(hash, body)])
               case Reused => s' == s.(log := s.log + [Refused(hash)])
               case GaveUp => false
  {
    AfterFour(s, Begin(r, hash), Insert(r), Read(r), Revive(r));
    var begun := Apply(s, Begin(r, hash));
    assert begun.requests - {r} == s.requests;
    var tried := Apply(begun, Insert(r));
    assert tried.requests - {r} == s.requests;
  }

  /** What the claimed request then does: its result is stored with the key until the key expires. */
  lemma FinishStoresTheResult(s: State, r: nat, body: nat)
    requires r in s.requests && s.requests[r].stage.Running? && s.holder == Writer(r) && s.written.Some?
    ensures var s' := Apply(s, Finish(r, body));
            && s'.holder == Nobody && r !in s'.requests
            && s'.committed == Some(s.written.value.(body := Some(body)))
            && |s'.log| == |s.log| + 1 && s'.log[|s.log|].Ran? && s'.log[|s.log|].hash == s.requests[r].hash
            && s'.log[|s.log|].body == body && s'.log[|s.log|].expiresAt == s.written.value.expiresAt
  {
  }

  /** The purge deletes exactly an expired row that nobody holds. */
  lemma PurgeTakesAnExpiredRow(s: State)
    requires s.holder == Nobody
    ensures Apply(Apply(s, PurgeLock), PurgeCommit)
            == if s.committed.Some? && s.committed.value.expiresAt <= s.clock then s.(committed := None) else s
  {
  }

  class IdempotencyKeys {
    /** The committed row of the key's scope, or this transaction's own. */
    var row: Option<Key>
    var nextId: nat

    /** How often others have committed a change to the row. */
    ghost var changes: nat

    constructor ()
      ensures row.None?
    {
      row, nextId, changes := None, 0, 0;
    }

    /** Whatever other requests and the purge may commit meanwhile. */
    method Others()
      modifies this
      ensures changes >= old(changes) && (row == old(row) || changes > old(changes))
    {
    }

    /** The INSERT; it has waited for the row's holder before it fails or succeeds. */
    method TryInsert(hash: nat, now: int) returns (inserted: bool)
      modifies this`row, this`nextId
      ensures inserted <==> old(row).None?
      ensures inserted ==> row == Some(Fresh(old(nextId), Request(hash, now, 1, Inserting)))
      ensures !inserted ==> row == old(row)
    {
      if row.Some? {
        return false;
      }
      row, nextId := Some(Key(nextId, hash, None, now, now + TTL_MS)), nextId + 1;
      return true;
    }

    /** The conditional UPDATE of an expired row. */
    method TryRevive(id: nat, hash: nat, now: int) returns (revived: bool)
      modifies this`row
      ensures revived <==> old(row).Some? && old(row).value.id == id && old(row).value.expiresAt <= now
      ensures revived ==> row == Some(Fresh(id, Request(hash, now, 1, Inserting)))
      ensures !revived ==> row == old(row)
    {
      if row.None? || row.value.id != id || row.value.expiresAt > now {
        return false;
      }
      row := Some(row.value.(hash := hash, body := None, createdAt := now, expiresAt := now + TTL_MS));
      return true;
    }

    /**
     Claims the key only over no row or an expired one; answers with the row's result or refuses only
     while it has not expired. It gives up only when others changed the row within each of its attempts.
     */
    method Claim(hash: nat, now: int) returns (r: ClaimResult, ghost before: Option<Key>)
      modifies this
      ensures r.Claimed? ==>
                && (before.None? || before.value.expiresAt <= now)
                && row.Some? && row.value == Fresh(row.value.id, Request(hash, now, 1, Inserting))
      ensures r.Repeat? ==> row.Some? && row.value.hash == hash && row.value.expiresAt > now && r.body == row.value.body
      ensures r.Reused? ==> row.Some? && row.value.hash != hash && row.value.expiresAt > now
      ensures r.GaveUp? ==> changes >= old(changes) + 3
      ensures changes >= old(changes) && (changes == old(changes) ==> r == Undisturbed(old(row), hash, now))
    {
      for attempt := 0 to MAX_CLAIM_ATTEMPTS
        invariant changes >= old(changes) + attempt
        invariant changes == old(changes) ==> row == old(row)
      {
        Others();
        before := row;
        var inserted := TryInsert(hash, now);
        if inserted {
          return Claimed, before;
        }
        Others();
        if row.Some? {
          var stored := row.value;
          if stored.expiresAt > now {
            return if stored.hash != hash then Reused else Repeat(stored.body), before;
          }
          Others();
          before := row;
          var revived := TryRevive(stored.id, hash, now);
          if revived {
            return Claimed, before;
          }
        }
      }
      return GaveUp, None;
    }

    /** Runs the work of a claimed key and stores its result with it. */
    method Run(hash: nat, now: int, result: nat) returns (r: ClaimResult, ran: bool)
      modifies this
      ensures ran <==> r.Claimed?
      ensures r.GaveUp? ==> changes >= old(changes) + 3
      ensures changes >= old(changes) && (changes == old(changes) ==> r == Undisturbed(old(row), hash, now))
      ensures ran ==> row.Some? && row.value.(id := 0) == Key(0, hash, Some(result), now, now + TTL_MS)
      ensures r.Repeat? ==> row.Some? && row.value.hash == hash && row.value.expiresAt > now && r.body == row.value.body
      ensures r.Reused? ==> row.Some? && row.value.hash != hash && row.value.expiresAt > now
    {
      ghost var before;
      r, before := Claim(hash, now);
      ran := r.Claimed?;
      if ran {
        row := Some(row.value.(body := Some(result)));
      }
    }
  }
}
