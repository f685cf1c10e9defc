/** The purge of expired keys: one run at a time per process, one batch per run, oldest expiry first. */
module IdempotencyPurger {
  import opened Basics

  const PURGE_BATCH := 1000

  /** The rows the SELECT may return: expired, and not locked by a request. */
  function Purgeable(expiry: map<nat, int>, locked: set<nat>, now: int): set<nat> {
    set id | id in expiry && id !in locked && expiry[id] <= now
  }

  /** ORDER BY expires_at LIMIT n: as many as there are up to n, none left out expires before one taken. */
  ghost predicate IsBatch(expiry: map<nat, int>, eligible: set<nat>, batch: set<nat>, n: nat)
    requires eligible <= expiry.Keys
  {
    && batch <= eligible && |batch| == Min(n, |eligible|)
    && (forall a, b :: a in batch && b in eligible - batch ==> expiry[a] <= expiry[b])
  }

  /** A batch that is not full is all there is. */
  lemma BatchIsWhatIsLeftOut(expiry: map<nat, int>, eligible: set<nat>, batch: set<nat>)
    requires eligible <= expiry.Keys && IsBatch(expiry, eligible, batch, PURGE_BATCH)
    ensures |batch| < PURGE_BATCH ==> batch == eligible
  {
    if |batch| < PURGE_BATCH {
      assert |eligible - batch| == |eligible| - |batch|;
    }
  }

  method Earliest(expiry: map<nat, int>, ids: set<nat>) returns (first: nat)
    requires ids != {} && ids <= expiry.Keys
    ensures first in ids && forall id :: id in ids ==> expiry[first] <= expiry[id]
  {
    first :| first in ids;
    var todo := ids - {first};
    while todo != {}
      invariant todo <= ids && first in ids
      invariant forall id :: id in ids - todo ==> expiry[first] <= expiry[id]
      decreases todo
    {
      var id :| id in todo;
      if expiry[id] < expiry[first] {
        first := id;
      }
      todo := todo - {id};
    }
  }

  method SelectBatch(expiry: map<nat, int>, eligible: set<nat>, n: nat) returns (batch: set<nat>)
    requires eligible <= expiry.Keys
    ensures IsBatch(expiry, eligible, batch, n)
  {
    batch := {};
    var rest := eligible;
    while |batch| < n && rest != {}
      invariant batch <= eligible && rest == eligible - batch && |batch| + |rest| == |eligible| && |batch| <= n
      invariant forall a, b :: a in batch && b in rest ==> expiry[a] <= expiry[b]
      decreases rest
    {
      var id := Earliest(expiry, rest);
      batch, rest := batch + {id}, rest - {id};
    }
  }

  class IdempotencyKeyPurger {
    var running: bool
    /** When each key expires, by its row's id. */
    var expiry: map<nat, int>

    constructor (expiry: map<nat, int>)
      ensures !running && this.expiry == expiry
    {
      this.running, this.expiry := false, expiry;
    }

    /** Deletes a batch of expired keys; a run already under way or a failed query deletes nothing. */
    method Purge(now: int, locked: set<nat>, fails: bool) returns (deleted: nat)
      modifies this
      ensures running == old(running)
      ensures old(running) || fails ==> deleted == 0 && expiry == old(expiry)
      ensures !old(running) && !fails ==>
                && expiry == old(expiry) - (old(expiry).Keys - expiry.Keys)
                && deleted == |old(expiry).Keys - expiry.Keys| <= 1000
                && (forall id :: id in old(expiry) && id !in expiry ==> old(expiry)[id] <= now && id !in locked)
                && (forall a, b :: a in old(expiry) && a !in expiry && b in expiry && b !in locked ==>
                                     old(expiry)[a] <= expiry[b])
                && (deleted < 1000 ==> forall id :: id in expiry ==> expiry[id] > now || id in locked)
    {
      if running {
        return 0;
      }
      running := true;
      if fails {
        deleted := 0;
      } else {
        var batch := SelectBatch(expiry, Purgeable(expiry, locked, now), PURGE_BATCH);
        ghost var before := expiry;
        expiry := expiry - batch;
        assert before.Keys - expiry.Keys == batch;
        BatchIsWhatIsLeftOut(before, Purgeable(before, locked, now), batch);
        deleted := |batch|;
      }
      running := false;
    }
  }
}
