/** What leaving, removing and deleting come to, in terms of the member rows alone. */
module MembershipOutcome {
  import opened Basics
  import opened Membership
  import opened MembershipProofs

  ghost predicate IsIn(rows: Rows, space: nat, user: nat) {
    exists i :: i in rows && rows[i].space == space && rows[i].user == user
  }

  ghost predicate Owns(rows: Rows, space: nat, user: nat) {
    exists i :: i in rows && rows[i].space == space && rows[i].user == user && rows[i].role == Owner
  }

  ghost predicate HasCompany(rows: Rows, space: nat, user: nat) {
    exists i :: i in rows && rows[i].space == space && rows[i].user != user
  }

  ghost predicate HasAnotherSpace(rows: Rows, space: nat, user: nat) {
    exists i :: i in rows && rows[i].user == user && rows[i].space != space
  }

  /** Of the others, the one who joined first; of those who joined together, the one with the smaller id. */
  ghost predicate IsHeir(rows: Rows, space: nat, user: nat, i: nat) {
    && i in rows && rows[i].space == space && rows[i].user != user
    && (forall j :: j in rows && rows[j].space == space && rows[j].user != user ==>
                      rows[i].createdAt < rows[j].createdAt || (rows[i].createdAt == rows[j].createdAt && i <= j))
  }

  /** The user's row of the space is gone, everyone else's is there, and an heir owns the space. */
  ghost predicate IsLeft(rows: Rows, rows': Rows, space: nat, user: nat, heir: Option<nat>) {
    && (forall i :: i in rows' <==> i in rows && !(rows[i].space == space && rows[i].user == user))
    && (forall i :: i in rows' ==> rows'[i] == if heir == Some(i) then rows[i].(role := Owner) else rows[i])
  }

  ghost predicate IsDeleted(rows: Rows, rows': Rows, space: nat) {
    && (forall i :: i in rows' <==> i in rows && rows[i].space != space)
    && (forall i :: i in rows' ==> rows'[i] == rows[i])
  }

  /** Who leaves or is removed is gone; an owner who leaves is followed by the longest-standing member or takes the
      space along. */
  ghost predicate HasGone(rows: Rows, rows': Rows, space: nat, actor: nat, target: nat) {
    && IsIn(rows, space, target)
    && if target == actor && Owns(rows, space, actor)
       then if HasCompany(rows, space, actor)
            then exists heir :: IsHeir(rows, space, actor, heir) && IsLeft(rows, rows', space, actor, Some(heir))
            else IsDeleted(rows, rows', space) && HasAnotherSpace(rows, space, actor)
       else (target == actor || Owns(rows, space, actor)) && IsLeft(rows, rows', space, target, None)
  }

  /** The owner is the only member, and the space goes with them. */
  ghost predicate TakesItAlong(rows: Rows, space: nat, actor: nat, target: nat) {
    target == actor && Owns(rows, space, actor) && !HasCompany(rows, space, actor)
  }

  function Why(member: bool, owner: bool, self: bool, targetIsIn: bool, company: bool, housed: bool): Option<Refusal> {
    if !member || (!self && !owner) then Some(ForbiddenSpace)
    else if !targetIsIn then Some(NotFound)
    else if self && owner && !company && !housed then Some(LastRemaining)
    else None
  }

  ghost function WhyNotLeave(rows: Rows, space: nat, actor: nat, target: nat): Option<Refusal> {
    Why(IsIn(rows, space, actor), Owns(rows, space, actor), target == actor, IsIn(rows, space, target),
        HasCompany(rows, space, actor), HasAnotherSpace(rows, space, actor))
  }

  ghost function WhyNotDelete(rows: Rows, space: nat, actor: nat): Option<Refusal> {
    if !Owns(rows, space, actor) then Some(ForbiddenSpace)
    else if !HasAnotherSpace(rows, space, actor) then Some(LastRemaining)
    else None
  }

  lemma TheActor(rows: Rows, locked: Rows, job: Job, me: nat)
    requires NobodyTwice(rows) && Knows(rows, locked, job) && IsMember(locked, me, job.space, job.actor)
    ensures IsIn(rows, job.space, job.actor)
    ensures Owns(rows, job.space, job.actor) <==> locked[me].role == Owner
    ensures InSpace(locked, job.space) == {me} <==> !HasCompany(rows, job.space, job.actor)
  {
    assert me in InSpace(locked, job.space);
    forall i | i in rows && rows[i].space == job.space
      ensures i in locked && locked[i] == rows[i] && i in InSpace(locked, job.space)
    {
      assert i in InSpace(rows, job.space);
    }
    if InSpace(locked, job.space) != {me} {
      var i :| i in InSpace(locked, job.space) && i != me;
      assert rows[i].user != job.actor;
    }
  }

  /** The actor is in another space, as far as the locked rows tell. */
  lemma TheActorsSpaces(locked: Rows, job: Job, me: nat)
    requires NobodyTwice(locked) && IsMember(locked, me, job.space, job.actor)
    ensures |OfUser(locked, job.actor)| <= 1 <==> !HasAnotherSpace(locked, job.space, job.actor)
  {
    var mine := OfUser(locked, job.actor);
    if i :| i in locked && locked[i].user == job.actor && locked[i].space != job.space {
      SubsetIsNoLarger({me, i}, mine);
    } else {
      assert mine == {me};
    }
  }

  lemma RowGoes(rows: Rows, i: nat, space: nat, user: nat)
    requires NobodyTwice(rows) && IsMember(rows, i, space, user)
    ensures IsLeft(rows, rows - {i}, space, user, None)
    ensures forall next :: next in rows && next != i ==>
                             IsLeft(rows, (rows - {i})[next := rows[next].(role := Owner)], space, user, Some(next))
  {
  }

  lemma SuccessorIsHeir(rows: Rows, locked: Rows, job: Job, me: nat, next: nat)
    requires NobodyTwice(rows) && Knows(rows, locked, job) && IsMember(locked, me, job.space, job.actor)
    requires IsSuccessor(locked, job.space, me, next)
    ensures IsHeir(rows, job.space, job.actor, next) && HasCompany(rows, job.space, job.actor)
  {
    assert me in InSpace(locked, job.space);
    forall j | j in rows && rows[j].space == job.space && rows[j].user != job.actor
      ensures rows[next].createdAt < rows[j].createdAt || (rows[next].createdAt == rows[j].createdAt && next <= j)
    {
      assert j in InSpace(rows, job.space) && j != me;
      assert Precedes(locked, next, j);
    }
  }

  lemma LeavingSelf(rows: Rows, locked: Rows, job: Job, me: nat, d: Decision)
    requires NobodyTwice(rows) && Knows(rows, locked, job) && job.Leave? && job.target == job.actor && !d.Refuse?
    requires IsMember(locked, me, job.space, job.actor) && DecidesFor(locked, job, me, d)
    ensures HasGone(rows, Perform(rows, d), job.space, job.actor, job.target)
  {
    TheActor(rows, locked, job, me);
    assert NobodyTwice(locked);
    TheActorsSpaces(locked, job, me);
    RowGoes(rows, me, job.space, job.actor);
    if d.HandOver? {
      SuccessorIsHeir(rows, locked, job, me, d.successor);
    }
  }

  lemma RemovingAnother(rows: Rows, locked: Rows, job: Job, me: nat, d: Decision)
    requires NobodyTwice(rows) && Knows(rows, locked, job) && job.Leave? && job.target != job.actor && !d.Refuse?
    requires IsMember(locked, me, job.space, job.actor) && DecidesFor(locked, job, me, d)
    ensures HasGone(rows, Perform(rows, d), job.space, job.actor, job.target)
  {
    TheActor(rows, locked, job, me);
    RowGoes(rows, d.id, job.space, job.target);
  }

  /** Whatever is decided on verified rows and not refused takes the user out of the space, and nobody else. */
  lemma LeavingTakesTheUserOut(rows: Rows, locked: Rows, job: Job, d: Decision)
    requires NobodyTwice(rows) && Knows(rows, locked, job) && Decides(locked, job, d) && job.Leave? && !d.Refuse?
    ensures HasGone(rows, Perform(rows, d), job.space, job.actor, job.target)
  {
    var me :| IsMember(locked, me, job.space, job.actor) && DecidesFor(locked, job, me, d);
    if job.target == job.actor {
      LeavingSelf(rows, locked, job, me, d);
    } else {
      RemovingAnother(rows, locked, job, me, d);
    }
  }

  lemma SpaceGoesWithItsLastMember(rows: Rows, locked: Rows, job: Job, d: Decision)
    requires NobodyTwice(rows) && Knows(rows, locked, job) && Decides(locked, job, d) && job.Leave? && !d.Refuse?
    ensures d.RemoveSpace? <==> TakesItAlong(rows, job.space, job.actor, job.target)
  {
    var me :| IsMember(locked, me, job.space, job.actor) && DecidesFor(locked, job, me, d);
    TheActor(rows, locked, job, me);
  }

  lemma DeletingTakesTheSpaceAway(rows: Rows, locked: Rows, job: Job, d: Decision)
    requires NobodyTwice(rows) && Knows(rows, locked, job) && Decides(locked, job, d) && job.DeleteSpace? && !d.Refuse?
    ensures Owns(rows, job.space, job.actor) && HasAnotherSpace(rows, job.space, job.actor)
    ensures IsDeleted(rows, Perform(rows, d), job.space)
  {
    var me :| IsMember(locked, me, job.space, job.actor) && DecidesFor(locked, job, me, d);
    TheActor(rows, locked, job, me);
    assert NobodyTwice(locked);
    TheActorsSpaces(locked, job, me);
  }

  /** When a removal is refused, decided on all the rows it needs, and with which error. */
  lemma RefusalsAreExact(rows: Rows, locked: Rows, job: Job, d: Decision)
    requires NobodyTwice(rows) && Knows(rows, locked, job) && Decides(locked, job, d)
    requires OfUser(locked, job.actor) == OfUser(rows, job.actor)
    ensures var why := if job.Leave? then WhyNotLeave(rows, job.space, job.actor, job.target)
                       else WhyNotDelete(rows, job.space, job.actor);
            if d.Refuse? then why == Some(d.error) else why == None
  {
    if me :| me in locked && IsMember(locked, me, job.space, job.actor) {
      RefusalOfAMember(rows, locked, job, d);
    } else {
      forall i | i in rows ensures !(rows[i].space == job.space && rows[i].user == job.actor) {
        if rows[i].space == job.space && rows[i].user == job.actor {
          assert i in InSpace(rows, job.space);
          assert IsMember(locked, i, job.space, job.actor);
        }
      }
    }
  }

  lemma RefusalOfAMember(rows: Rows, locked: Rows, job: Job, d: Decision)
    requires NobodyTwice(rows) && Knows(rows, locked, job) && Decides(locked, job, d)
    requires OfUser(locked, job.actor) == OfUser(rows, job.actor)
    requires exists i :: IsMember(locked, i, job.space, job.actor)
    ensures var why := if job.Leave? then WhyNotLeave(rows, job.space, job.actor, job.target)
                       else WhyNotDelete(rows, job.space, job.actor);
            if d.Refuse? then why == Some(d.error) else why == None
  {
    var me :| IsMember(locked, me, job.space, job.actor) && DecidesFor(locked, job, me, d);
    TheActor(rows, locked, job, me);
    assert NobodyTwice(locked);
    TheActorsSpaces(locked, job, me);
    OtherSpacesAreKnown(rows, locked, job);
    TargetIsKnown(rows, locked, job);
  }

  lemma OtherSpacesAreKnown(rows: Rows, locked: Rows, job: Job)
    requires Knows(rows, locked, job) && OfUser(locked, job.actor) == OfUser(rows, job.actor)
    ensures HasAnotherSpace(locked, job.space, job.actor) <==> HasAnotherSpace(rows, job.space, job.actor)
  {
    if i :| i in rows && rows[i].user == job.actor && rows[i].space != job.space {
      assert i in OfUser(rows, job.actor);
    }
  }

  lemma TargetIsKnown(rows: Rows, locked: Rows, job: Job)
    requires Knows(rows, locked, job)
    ensures job.Leave? ==> (IsIn(rows, job.space, job.target) <==>
                              exists i :: IsMember(locked, i, job.space, job.target))
  {
    if job.Leave? {
      if i :| i in rows && rows[i].space == job.space && rows[i].user == job.target {
        assert i in InSpace(rows, job.space);
        assert IsMember(locked, i, job.space, job.target);
      }
    }
  }

  /** Not refused, and enabled. */
  ghost predicate CarriesOut(s: State, tx: nat, d: Decision) {
    tx in s.txs && s.txs[tx].stage.Verified? && Decides(s.txs[tx].stage.locked, s.txs[tx].job, d) && !d.Refuse?
  }

  /** In every interleaving a committed removal does to the rows of that moment what it was asked for. */
  lemma CommittedRemovalsAreCarriedOut(init: State, events: seq<Event>, tx: nat, d: Decision)
    requires Init(init) && CarriesOut(After(init, events), tx, d)
    ensures var (s, s') := (After(init, events), Apply(After(init, events), Commit(tx, d)));
            var job := s.txs[tx].job;
            && tx !in s'.txs
            && if job.Leave? then
                 && HasGone(s.rows, s'.rows, job.space, job.actor, job.target)
                 && (forall i :: i in s'.rows ==> !(s'.rows[i].space == job.space && s'.rows[i].user == job.target))
               else Owns(s.rows, job.space, job.actor) && IsDeleted(s.rows, s'.rows, job.space)
  {
    EveryRunKeepsInv(init, events);
    CarriedOut(After(init, events), tx, d);
  }

  lemma CommitPerforms(s: State, tx: nat, d: Decision)
    requires CarriesOut(s, tx, d)
    ensures Apply(s, Commit(tx, d)).rows == Perform(s.rows, d) && tx !in Apply(s, Commit(tx, d)).txs
  {
  }

  lemma NobodyStays(rows: Rows, rows': Rows, space: nat, actor: nat, target: nat)
    requires HasGone(rows, rows', space, actor, target)
    ensures forall i :: i in rows' ==> !(rows'[i].space == space && rows'[i].user == target)
  {
  }

  lemma CarriedOut(s: State, tx: nat, d: Decision)
    requires Inv(s) && CarriesOut(s, tx, d)
    ensures var (s', job) := (Apply(s, Commit(tx, d)), s.txs[tx].job);
            && tx !in s'.txs
            && if job.Leave? then
                 && HasGone(s.rows, s'.rows, job.space, job.actor, job.target)
                 && (forall i :: i in s'.rows ==> !(s'.rows[i].space == job.space && s'.rows[i].user == job.target))
               else Owns(s.rows, job.space, job.actor) && IsDeleted(s.rows, s'.rows, job.space)
  {
    var (job, locked) := (s.txs[tx].job, s.txs[tx].stage.locked);
    VerifiedKnows(s, tx);
    CommitPerforms(s, tx, d);
    if job.Leave? {
      LeavingTakesTheUserOut(s.rows, locked, job, d);
      NobodyStays(s.rows, Perform(s.rows, d), job.space, job.actor, job.target);
    } else {
      DeletingTakesTheSpaceAway(s.rows, locked, job, d);
    }
  }

  // ------------------------------------------------------------------ a removal with nothing in between

  lemma AfterOneMore(s: State, events: seq<Event>, e: Event)
    ensures After(s, events + [e]) == Apply(After(s, events), e)
  {
    assert (events + [e])[..|events + [e]| - 1] == events;
  }

  ghost predicate Idle(s: State) {
    s.txs == map[] && s.rowLocks == map[] && s.spaceLocks == map[]
  }

  /** Each row the removal needs, once. */
  ghost predicate Lists(ids: seq<nat>, all: set<nat>) {
    (forall i :: i in ids <==> i in all) && (forall j, k :: 0 <= j < k < |ids| ==> ids[j] != ids[k])
  }

  lemma SomeList(all: set<nat>) returns (ids: seq<nat>)
    ensures Lists(ids, all)
  {
    if all == {} {
      ids := [];
    } else {
      var last := Pick(all);
      var rest := SomeList(all - {last});
      ids := rest + [last];
      forall i ensures i in ids <==> i in all {
        assert i in ids <==> i in rest || i == last;
      }
      forall j, k | 0 <= j < k < |ids| ensures ids[j] != ids[k] {
        assert ids[j] == rest[j] && rest[j] in rest;
        assert k < |rest| ==> ids[k] == rest[k] && rest[j] != rest[k];
      }
    }
  }

  /** The removal has locked the rows of `ids`. */
  ghost function Locking(s: State, tx: nat, job: Job, ids: seq<nat>): State {
    s.(txs := map[tx := Tx(job, LockingRows(set i | i in ToLock(s.rows, job) && i !in ids,
                                            map i | i in ids && i in s.rows :: s.rows[i]))],
       rowLocks := map i | i in ids :: tx)
  }

  lemma OneMoreLock(s: State, tx: nat, job: Job, ids: seq<nat>, i: nat)
    requires Idle(s) && i in ToLock(s.rows, job) && i !in ids
    ensures Apply(Locking(s, tx, job, ids), LockRow(tx, i)) == Locking(s, tx, job, ids + [i])
  {
    var (before, after) := (Locking(s, tx, job, ids), Locking(s, tx, job, ids + [i]));
    assert before.txs[tx].stage.todo - {i} == after.txs[tx].stage.todo;
    assert before.txs[tx].stage.locked[i := s.rows[i]] == after.txs[tx].stage.locked;
    assert before.rowLocks[i := tx] == after.rowLocks;
  }

  lemma BeginsLocking(s: State, tx: nat, job: Job)
    requires Idle(s) && exists i :: IsMember(s.rows, i, job.space, job.actor)
    ensures Apply(Apply(s, Begin(tx, job)), ReadIds(tx)) == Locking(s, tx, job, [])
  {
    var locking := Locking(s, tx, job, []);
    assert locking.txs[tx].stage.todo == ToLock(s.rows, job);
    assert locking.txs[tx].stage.locked == map[] && locking.rowLocks == map[];
  }

  lemma {:induction false} LocksOneByOne(s: State, tx: nat, job: Job, ids: seq<nat>) returns (events: seq<Event>)
    requires Idle(s) && exists i :: IsMember(s.rows, i, job.space, job.actor)
    requires forall i :: i in ids ==> i in ToLock(s.rows, job)
    requires forall j, k :: 0 <= j < k < |ids| ==> ids[j] != ids[k]
    ensures After(s, events) == Locking(s, tx, job, ids)
  {
    if ids == [] {
      events := [Begin(tx, job), ReadIds(tx)];
      assert events == [] + [Begin(tx, job)] + [ReadIds(tx)];
      AfterOneMore(s, [], Begin(tx, job));
      AfterOneMore(s, [Begin(tx, job)], ReadIds(tx));
      BeginsLocking(s, tx, job);
    } else {
      var (before, i) := (ids[..|ids| - 1], ids[|ids| - 1]);
      var most := LocksOneByOne(s, tx, job, before);
      events := most + [LockRow(tx, i)];
      AfterOneMore(s, most, LockRow(tx, i));
      OneMoreLock(s, tx, job, before, i);
      assert before + [i] == ids;
    }
  }

  /** The removal has locked its rows and is at a later stage, with or without its space. */
  ghost function Holding(s: State, tx: nat, job: Job, stage: Stage, ids: seq<nat>): State {
    s.(txs := map[tx := Tx(job, stage)], rowLocks := map i | i in ids :: tx, spaceLocks := map[job.space := tx])
  }

  lemma TakesItsSpace(s: State, tx: nat, job: Job, ids: seq<nat>, locked: Rows)
    requires Idle(s) && Lists(ids, ToLock(s.rows, job))
    requires locked == map i | i in ToLock(s.rows, job) :: s.rows[i]
    ensures Apply(Locking(s, tx, job, ids), LockSpace(tx)) == Holding(s, tx, job, HoldingSpace(locked), ids)
  {
    var stage := Locking(s, tx, job, ids).txs[tx].stage;
    assert stage.todo == {};
    assert stage.locked == locked;
  }

  lemma Rechecks(s: State, tx: nat, job: Job, ids: seq<nat>, locked: Rows)
    requires locked == map i | i in ToLock(s.rows, job) :: s.rows[i]
    ensures Apply(Holding(s, tx, job, HoldingSpace(locked), ids), Recheck(tx))
            == Holding(s, tx, job, Verified(locked), ids)
  {
    var held := Holding(s, tx, job, HoldingSpace(locked), ids);
    assert ToLock(held.rows, job) == locked.Keys;
    assert Apply(held, Recheck(tx)) == Move(held, tx, Verified(locked));
  }

  lemma Commits(s: State, tx: nat, job: Job, ids: seq<nat>, locked: Rows, d: Decision)
    requires Idle(s) && Decides(locked, job, d)
    ensures Apply(Holding(s, tx, job, Verified(locked), ids), Commit(tx, d)) ==
              s.(rows := Perform(s.rows, d), spaces := if d.RemoveSpace? then s.spaces - {d.space} else s.spaces)
  {
    var verified := Holding(s, tx, job, Verified(locked), ids);
    assert Release(verified, tx).rowLocks == map[] && Release(verified, tx).spaceLocks == map[];
    assert verified.txs - {tx} == map[];
    assert Apply(verified, Commit(tx, d)) == Committed(verified, tx, d);
  }

  /** With nothing in between, a removal goes through all its steps to the decision made on the present rows. */
  lemma UndisturbedRemovalCommits(s: State, tx: nat, job: Job, d: Decision) returns (events: seq<Event>)
    requires Idle(s) && exists i :: IsMember(s.rows, i, job.space, job.actor)
    requires Decides(map i | i in ToLock(s.rows, job) :: s.rows[i], job, d)
    ensures After(s, events) ==
              s.(rows := Perform(s.rows, d), spaces := if d.RemoveSpace? then s.spaces - {d.space} else s.spaces)
  {
    var ids := SomeList(ToLock(s.rows, job));
    var locking := LocksOneByOne(s, tx, job, ids);
    events := locking + [LockSpace(tx)] + [Recheck(tx)] + [Commit(tx, d)];
    AfterOneMore(s, locking, LockSpace(tx));
    AfterOneMore(s, locking + [LockSpace(tx)], Recheck(tx));
    AfterOneMore(s, locking + [LockSpace(tx)] + [Recheck(tx)], Commit(tx, d));
    var locked := map i | i in ToLock(s.rows, job) :: s.rows[i];
    TakesItsSpace(s, tx, job, ids, locked);
    Rechecks(s, tx, job, ids, locked);
    Commits(s, tx, job, ids, locked, d);
  }
}
