/** Every interleaving of acceptances, removals and new spaces keeps each space with its one owner. */
module MembershipProofs {
  import opened Basics
  import opened Membership

  // ------------------------------------------------------------------ the tables

  lemma OtherSpacesKeep(rows: Rows, rows': Rows, space: nat)
    requires SpaceOk(rows, space)
    requires InSpace(rows', space) == InSpace(rows, space)
    requires forall i :: i in InSpace(rows, space) ==> rows'[i] == rows[i]
    ensures SpaceOk(rows', space)
  {
    var i :| IsOwner(rows, space, i);
    assert i in InSpace(rows, space) && IsOwner(rows', space, i);
    forall j | IsOwner(rows', space, j) ensures IsOwner(rows, space, j) {
      assert j in InSpace(rows', space);
    }
  }

  lemma FoundedSpaceIsOk(rows: Rows, i: nat, m: Member)
    requires i !in rows && m.role == Owner && InSpace(rows, m.space) == {}
    ensures SpaceOk(rows[i := m], m.space)
  {
    var rows' := rows[i := m];
    assert InSpace(rows', m.space) == {i};
    assert IsOwner(rows', m.space, i);
    forall j | IsOwner(rows', m.space, j) ensures j == i {
      assert j in InSpace(rows', m.space);
    }
  }

  lemma JoinedSpaceIsOk(rows: Rows, i: nat, m: Member)
    requires i !in rows && m.role == Plain && SpaceOk(rows, m.space) && |InSpace(rows, m.space)| < MAX_MEMBERS_PER_SPACE
    ensures SpaceOk(rows[i := m], m.space)
  {
    var rows' := rows[i := m];
    assert InSpace(rows', m.space) == InSpace(rows, m.space) + {i};
    var owner :| IsOwner(rows, m.space, owner);
    assert IsOwner(rows', m.space, owner);
    assert forall j :: IsOwner(rows', m.space, j) ==> IsOwner(rows, m.space, j);
  }

  lemma InsertKeepsSpaces(s: State, s': State, m: Member)
    requires SpacesOk(s) && s.nextId !in s.rows && s'.rows == s.rows[s.nextId := m]
    requires m.space < s'.nextSpace && s.nextSpace <= s'.nextSpace && s'.spaces == s.spaces + {m.space}
    requires SpaceOk(s'.rows, m.space)
    ensures SpacesOk(s')
  {
    forall p | p in s'.spaces ensures p < s'.nextSpace && SpaceOk(s'.rows, p) {
      if p != m.space {
        InsertedElsewhere(s.rows, s'.rows, s.nextId, m, p);
      }
    }
  }

  lemma InsertKeepsRows(s: State, s': State, m: Member)
    requires RowsOk(s) && NobodyTwice(s.rows) && s'.rows == s.rows[s.nextId := m] && s'.nextId == s.nextId + 1
    requires s'.spaces == s.spaces + {m.space}
    requires forall i :: i in s.rows ==> !IsMember(s.rows, i, m.space, m.user)
    ensures RowsOk(s') && NobodyTwice(s'.rows)
  {
  }

  lemma InsertKeepsTables(s: State, s': State, m: Member)
    requires TablesOk(s)
    requires s'.rows == s.rows[s.nextId := m] && s'.nextId == s.nextId + 1
    requires forall i :: i in s.rows ==> !IsMember(s.rows, i, m.space, m.user)
    requires m.space < s'.nextSpace && s.nextSpace <= s'.nextSpace && s'.spaces == s.spaces + {m.space}
    requires SpaceOk(s'.rows, m.space)
    ensures TablesOk(s')
  {
    InsertKeepsRows(s, s', m);
    InsertKeepsSpaces(s, s', m);
  }

  lemma InsertedElsewhere(rows: Rows, rows': Rows, id: nat, m: Member, p: nat)
    requires SpaceOk(rows, p) && id !in rows && rows' == rows[id := m] && m.space != p
    ensures SpaceOk(rows', p)
  {
    assert InSpace(rows', p) == InSpace(rows, p);
    OtherSpacesKeep(rows, rows', p);
  }

  /** What a verified removal knows: the rows it locked are the space's members. */
  ghost predicate Knows(rows: Rows, locked: Rows, job: Job) {
    && (forall i :: i in locked ==> i in rows && rows[i] == locked[i])
    && InSpace(rows, job.space) == InSpace(locked, job.space)
  }

  lemma OneRowGoesKeepsOwner(rows: Rows, locked: Rows, job: Job, actor: nat, d: Decision)
    requires NobodyTwice(rows) && SpaceOk(rows, job.space) && Knows(rows, locked, job) && d.RemoveRow?
    requires IsMember(locked, actor, job.space, job.actor) && DecidesFor(locked, job, actor, d)
    ensures SpaceOk(Perform(rows, d), job.space)
  {
    var (s, rows', i) := (job.space, Perform(rows, d), d.id);
    assert actor in InSpace(locked, s);
    assert i in InSpace(locked, s);
    SubsetIsNoLarger(InSpace(rows', s), InSpace(rows, s));
    var owner :| IsOwner(rows, s, owner);
    assert owner != i by {
      if locked[actor].role == Owner { assert IsOwner(rows, s, actor); }
    }
    assert IsOwner(rows', s, owner);
    assert forall j :: IsOwner(rows', s, j) ==> IsOwner(rows, s, j);
  }

  lemma HandingOverKeepsOwner(rows: Rows, locked: Rows, job: Job, actor: nat, d: Decision)
    requires NobodyTwice(rows) && SpaceOk(rows, job.space) && Knows(rows, locked, job) && d.HandOver?
    requires IsMember(locked, actor, job.space, job.actor) && DecidesFor(locked, job, actor, d)
    ensures SpaceOk(Perform(rows, d), job.space)
  {
    var (s, rows') := (job.space, Perform(rows, d));
    assert actor in InSpace(locked, s);
    SubsetIsNoLarger(InSpace(rows', s), InSpace(rows, s));
    assert d.successor in InSpace(locked, s);
    assert IsOwner(rows, s, actor) && IsOwner(rows', s, d.successor);
    assert forall j :: IsOwner(rows', s, j) && j != d.successor ==> IsOwner(rows, s, j);
  }

  lemma PerformKeepsTheRest(rows: Rows, locked: Rows, job: Job, d: Decision)
    requires NobodyTwice(rows) && Knows(rows, locked, job) && Decides(locked, job, d)
    ensures d.RemoveSpace? ==> d.space == job.space && InSpace(Perform(rows, d), job.space) == {}
    ensures forall i :: i in rows && rows[i].space != job.space ==>
                          i in Perform(rows, d) && Perform(rows, d)[i] == rows[i]
    ensures forall i :: i in Perform(rows, d) ==> i in rows && Perform(rows, d)[i].(role := rows[i].role) == rows[i]
  {
    DecisionIsOfTheSpace(rows, locked, job, d);
  }

  /** A decision names rows of the job's space only. */
  lemma DecisionIsOfTheSpace(rows: Rows, locked: Rows, job: Job, d: Decision)
    requires Knows(rows, locked, job) && Decides(locked, job, d)
    ensures d.RemoveRow? || d.HandOver? ==> d.id in rows && rows[d.id].space == job.space
    ensures d.HandOver? ==> d.successor in rows && rows[d.successor].space == job.space
    ensures d.RemoveSpace? ==> d.space == job.space
  {
    if !d.Refuse? {
      var actor :| IsMember(locked, actor, job.space, job.actor) && DecidesFor(locked, job, actor, d);
      assert actor in InSpace(locked, job.space);
    }
  }

  /** A removal never strands a space: whoever goes, one owner stays, unless the space goes too. */
  lemma DecisionKeepsOwner(rows: Rows, locked: Rows, job: Job, d: Decision)
    requires NobodyTwice(rows) && SpaceOk(rows, job.space) && Knows(rows, locked, job) && Decides(locked, job, d)
    ensures !d.RemoveSpace? ==> SpaceOk(Perform(rows, d), job.space)
    ensures d.RemoveSpace? ==> d.space == job.space && InSpace(Perform(rows, d), job.space) == {}
    ensures forall i :: i in rows && rows[i].space != job.space ==>
                          i in Perform(rows, d) && Perform(rows, d)[i] == rows[i]
    ensures forall i :: i in Perform(rows, d) ==> i in rows && Perform(rows, d)[i].(role := rows[i].role) == rows[i]
  {
    PerformKeepsTheRest(rows, locked, job, d);
    if d.RemoveRow? || d.HandOver? {
      var actor :| IsMember(locked, actor, job.space, job.actor) && DecidesFor(locked, job, actor, d);
      if d.RemoveRow? {
        OneRowGoesKeepsOwner(rows, locked, job, actor, d);
      } else {
        HandingOverKeepsOwner(rows, locked, job, actor, d);
      }
    }
  }

  /** Deleting a space leaves the owner who did it another space to be in. */
  lemma RemovalLeavesActorASpace(rows: Rows, locked: Rows, job: Job, d: Decision)
    requires NobodyTwice(rows) && Knows(rows, locked, job) && Decides(locked, job, d) && d.RemoveSpace?
    ensures exists i :: i in Perform(rows, d) && rows[i].user == job.actor && rows[i].space != job.space
  {
    var actor :| IsMember(locked, actor, job.space, job.actor) && DecidesFor(locked, job, actor, d);
    assert |OfUser(locked, job.actor)| > 1;
    assert exists i :: i in OfUser(locked, job.actor) && i != actor by {
      if forall i :: i in OfUser(locked, job.actor) ==> i == actor {
        SubsetIsNoLarger(OfUser(locked, job.actor), {actor});
      }
    }
    var i :| i in OfUser(locked, job.actor) && i != actor;
    assert rows[i].space != job.space;
  }

  lemma RemovedElsewhere(rows: Rows, rows': Rows, space: nat, p: nat)
    requires SpaceOk(rows, p) && p != space
    requires forall i :: i in rows' ==> i in rows && rows'[i].space == rows[i].space && rows'[i].user == rows[i].user
    requires forall i :: i in rows && rows[i].space != space ==> i in rows' && rows'[i] == rows[i]
    ensures SpaceOk(rows', p)
  {
    assert InSpace(rows', p) == InSpace(rows, p);
    OtherSpacesKeep(rows, rows', p);
  }

  lemma RemovalKeepsSpaces(s: State, s': State, space: nat)
    requires SpacesOk(s) && s'.nextSpace == s.nextSpace && s'.spaces <= s.spaces
    requires forall i :: i in s'.rows ==> i in s.rows && s'.rows[i].(role := s.rows[i].role) == s.rows[i]
    requires forall i :: i in s.rows && s.rows[i].space != space ==> i in s'.rows && s'.rows[i] == s.rows[i]
    requires space in s'.spaces ==> SpaceOk(s'.rows, space)
    ensures SpacesOk(s')
  {
    forall p | p in s'.spaces ensures p < s'.nextSpace && SpaceOk(s'.rows, p) {
      if p != space {
        RemovedElsewhere(s.rows, s'.rows, space, p);
      }
    }
  }

  lemma RemovalKeepsRows(s: State, s': State, space: nat)
    requires RowsOk(s) && NobodyTwice(s.rows) && s'.nextId == s.nextId
    requires forall i :: i in s'.rows ==> i in s.rows && s'.rows[i].(role := s.rows[i].role) == s.rows[i]
    requires s'.spaces == s.spaces || (s'.spaces == s.spaces - {space} && InSpace(s'.rows, space) == {})
    ensures RowsOk(s') && NobodyTwice(s'.rows)
  {
    forall i | i in s'.rows ensures i < s'.nextId && s'.rows[i].space in s'.spaces {
      assert i !in InSpace(s'.rows, space) || s'.spaces == s.spaces;
    }
  }

  lemma RemovalKeepsTables(s: State, s': State, locked: Rows, job: Job, d: Decision)
    requires TablesOk(s) && job.space in s.spaces && Knows(s.rows, locked, job) && Decides(locked, job, d)
    requires s'.rows == Perform(s.rows, d) && s'.nextId == s.nextId && s'.nextSpace == s.nextSpace
    requires s'.spaces == if d.RemoveSpace? then s.spaces - {d.space} else s.spaces
    ensures TablesOk(s')
  {
    DecisionKeepsOwner(s.rows, locked, job, d);
    RemovalKeepsSpaces(s, s', job.space);
    RemovalKeepsRows(s, s', job.space);
  }

  lemma JobSpaceExists(s: State, locked: Rows, job: Job, d: Decision)
    requires TablesOk(s) && Knows(s.rows, locked, job) && Decides(locked, job, d) && d != Refuse(ForbiddenSpace)
    ensures job.space in s.spaces
  {
    var actor :| IsMember(locked, actor, job.space, job.actor) && DecidesFor(locked, job, actor, d);
    assert actor in s.rows && s.rows[actor].space == job.space;
  }

  lemma VerifiedKnows(s: State, tx: nat)
    requires LocksOk(s) && tx in s.txs && s.txs[tx].stage.Verified?
    ensures Knows(s.rows, s.txs[tx].stage.locked, s.txs[tx].job)
  {
    assert TxOk(s, tx);
  }

  lemma TablesStay(s: State, s': State)
    requires TablesOk(s)
    requires s'.rows == s.rows && s'.spaces == s.spaces && s'.nextId == s.nextId && s'.nextSpace == s.nextSpace
    ensures TablesOk(s')
  {
  }

  lemma CommitKeepsTables(s: State, tx: nat, d: Decision)
    requires Inv(s)
    ensures TablesOk(Apply(s, Commit(tx, d)))
  {
    var s' := Apply(s, Commit(tx, d));
    if s'.rows == s.rows && s'.spaces == s.spaces {
      TablesStay(s, s');
    } else {
      var (job, locked) := (s.txs[tx].job, s.txs[tx].stage.locked);
      VerifiedKnows(s, tx);
      JobSpaceExists(s, locked, job, d);
      RemovalKeepsTables(s, s', locked, job, d);
    }
  }

  lemma FoundingKeepsTables(s: State, user: nat, at: int)
    requires TablesOk(s)
    ensures TablesOk(Apply(s, CreateSpace(user, at)))
  {
    var m := Member(s.nextSpace, user, Owner, at);
    assert s.nextSpace !in s.spaces;
    FoundedSpaceIsOk(s.rows, s.nextId, m);
    InsertKeepsTables(s, Apply(s, CreateSpace(user, at)), m);
  }

  lemma JoiningKeepsTables(s: State, user: nat, space: nat, at: int)
    requires TablesOk(s)
    ensures TablesOk(Apply(s, Join(user, space, at)))
  {
    var s' := Apply(s, Join(user, space, at));
    if s' != s {
      JoinedSpaceIsOk(s.rows, s.nextId, Member(space, user, Plain, at));
      InsertKeepsTables(s, s', Member(space, user, Plain, at));
    }
  }

  lemma OtherStepsLeaveTables(s: State, e: Event)
    requires !e.CreateSpace? && !e.Join? && !e.Commit?
    ensures var s' := Apply(s, e);
            s'.rows == s.rows && s'.spaces == s.spaces && s'.nextId == s.nextId && s'.nextSpace == s.nextSpace
  {
  }

  lemma ApplyKeepsTables(s: State, e: Event)
    requires Inv(s)
    ensures TablesOk(Apply(s, e))
  {
    match e {
      case CreateSpace(user, at) => FoundingKeepsTables(s, user, at);
      case Join(user, space, at) => JoiningKeepsTables(s, user, space, at);
      case Commit(tx, d) => CommitKeepsTables(s, tx, d);
      case _ =>
        OtherStepsLeaveTables(s, e);
        TablesStay(s, Apply(s, e));
    }
  }

  // ------------------------------------------------------------------ the locks

  lemma InsertKeepsTx(s: State, s': State, m: Member, tx: nat)
    requires tx in s.txs && TxOk(s, tx) && s.nextId !in s.rows && s.nextSpace <= s'.nextSpace
    requires s'.rows == s.rows[s.nextId := m] && s'.txs == s.txs && s'.rowLocks == s.rowLocks
             && s'.spaceLocks == s.spaceLocks
    requires s.txs[tx].job.space in s.spaceLocks ==> m.space != s.txs[tx].job.space
    ensures TxOk(s', tx)
  {
    if s.txs[tx].stage.Verified? {
      assert InSpace(s'.rows, s.txs[tx].job.space) == InSpace(s.rows, s.txs[tx].job.space);
    }
  }

  lemma InsertKeepsLocks(s: State, s': State, m: Member)
    requires LocksOk(s) && s.nextId !in s.rows && s.nextSpace <= s'.nextSpace
    requires s'.rows == s.rows[s.nextId := m] && s'.txs == s.txs && s'.rowLocks == s.rowLocks
             && s'.spaceLocks == s.spaceLocks
    requires m.space !in s.spaceLocks || m.space == s.nextSpace
    ensures LocksOk(s')
  {
    forall tx | tx in s'.txs ensures TxOk(s', tx) {
      assert TxOk(s, tx);
      InsertKeepsTx(s, s', m, tx);
    }
  }

  lemma ReleaseKeepsOthers(s: State, tx: nat, t: nat)
    requires t in s.txs && t != tx && TxOk(s, t)
    ensures TxOk(Release(s, tx), t)
  {
  }

  lemma MoveKeepsOthers(s: State, tx: nat, stage: Stage, t: nat)
    requires tx in s.txs && t in s.txs && t != tx && TxOk(s, t)
    ensures TxOk(Move(s, tx, stage), t)
  {
  }

  lemma TakingARowKeepsTx(s: State, tx: nat, i: nat, t: nat)
    requires tx in s.txs && t in s.txs && TxOk(s, t) && i in s.rows && i !in s.rowLocks && s.txs[tx].stage.LockingRows?
    ensures TxOk(TakeRow(s, tx, i), t)
  {
  }

  lemma TakingARowKeepsLocks(s: State, tx: nat, i: nat)
    requires LocksOk(s) && tx in s.txs && i in s.rows && i !in s.rowLocks && s.txs[tx].stage.LockingRows?
    ensures LocksOk(TakeRow(s, tx, i))
  {
    var s' := TakeRow(s, tx, i);
    forall t | t in s'.txs ensures TxOk(s', t) {
      assert TxOk(s, t);
      TakingARowKeepsTx(s, tx, i, t);
    }
  }

  lemma SkippingARowKeepsLocks(s: State, tx: nat, todo: set<nat>)
    requires LocksOk(s) && tx in s.txs && s.txs[tx].stage.LockingRows?
    ensures LocksOk(Move(s, tx, s.txs[tx].stage.(todo := todo)))
  {
    var s' := Move(s, tx, s.txs[tx].stage.(todo := todo));
    forall t | t in s'.txs ensures TxOk(s', t) {
      assert TxOk(s, t);
    }
  }

  lemma LockRowKeepsLocks(s: State, tx: nat, i: nat)
    requires LocksOk(s)
    ensures LocksOk(Apply(s, LockRow(tx, i)))
  {
    if tx in s.txs && s.txs[tx].stage.LockingRows? && i in s.txs[tx].stage.todo {
      if i !in s.rows {
        SkippingARowKeepsLocks(s, tx, s.txs[tx].stage.todo - {i});
      } else if i !in s.rowLocks {
        TakingARowKeepsLocks(s, tx, i);
      }
    }
  }

  lemma TakingASpaceKeepsTx(s: State, tx: nat, t: nat)
    requires tx in s.txs && t in s.txs && TxOk(s, tx) && TxOk(s, t) && s.txs[tx].stage.LockingRows?
    requires s.txs[tx].job.space !in s.spaceLocks
    ensures TxOk(TakeSpace(s, tx), t)
  {
  }

  lemma LockSpaceKeepsLocks(s: State, tx: nat)
    requires LocksOk(s)
    ensures LocksOk(Apply(s, LockSpace(tx)))
  {
    var s' := Apply(s, LockSpace(tx));
    if s' != s {
      forall t | t in s'.txs ensures TxOk(s', t) {
        TakingASpaceKeepsTx(s, tx, t);
      }
    }
  }

  lemma VerifyingKeepsLocks(s: State, tx: nat)
    requires LocksOk(s) && tx in s.txs && s.txs[tx].stage.HoldingSpace?
    requires ToLock(s.rows, s.txs[tx].job) == s.txs[tx].stage.locked.Keys
    ensures LocksOk(Move(s, tx, Verified(s.txs[tx].stage.locked)))
  {
    assert TxOk(s, tx);
    var (job, locked) := (s.txs[tx].job, s.txs[tx].stage.locked);
    assert InSpace(s.rows, job.space) == InSpace(locked, job.space) by {
      assert forall i :: i in InSpace(s.rows, job.space) ==> i in locked.Keys;
    }
    forall t | t in s.txs ensures TxOk(Move(s, tx, Verified(locked)), t) {
      if t != tx { MoveKeepsOthers(s, tx, Verified(locked), t); }
    }
  }

  lemma StartingOverKeepsLocks(s: State, tx: nat)
    requires LocksOk(s) && tx in s.txs
    ensures LocksOk(Move(Release(s, tx), tx, Starting))
  {
    assert TxOk(s, tx);
    forall t | t in s.txs ensures TxOk(Move(Release(s, tx), tx, Starting), t) {
      if t != tx {
        ReleaseKeepsOthers(s, tx, t);
        MoveKeepsOthers(Release(s, tx), tx, Starting, t);
      }
    }
  }

  lemma RecheckKeepsLocks(s: State, tx: nat)
    requires LocksOk(s)
    ensures LocksOk(Apply(s, Recheck(tx)))
  {
    if tx in s.txs && s.txs[tx].stage.HoldingSpace? {
      if ToLock(s.rows, s.txs[tx].job) == s.txs[tx].stage.locked.Keys {
        VerifyingKeepsLocks(s, tx);
      } else {
        StartingOverKeepsLocks(s, tx);
      }
    }
  }

  /** The rows a transaction has locked, and its verified space's members, are as they were. */
  ghost predicate KeepsItsRows(s: State, rows: Rows, t: nat)
    requires t in s.txs
  {
    && (forall i :: i in Locked(s.txs[t].stage) && i in s.rows ==> i in rows && rows[i] == s.rows[i])
    && (s.txs[t].stage.Verified? ==> InSpace(rows, s.txs[t].job.space) == InSpace(s.rows, s.txs[t].job.space))
  }

  lemma EndKeepsTx(s: State, s': State, tx: nat, t: nat)
    requires t in s.txs && t != tx && TxOk(s, t) && KeepsItsRows(s, s'.rows, t)
    requires s' == Release(s, tx).(txs := s.txs - {tx}, rows := s'.rows, spaces := s'.spaces)
    ensures TxOk(s', t)
  {
  }

  lemma EndKeepsLocks(s: State, s': State, tx: nat)
    requires LocksOk(s)
    requires s' == Release(s, tx).(txs := s.txs - {tx}, rows := s'.rows, spaces := s'.spaces)
    requires forall t :: t in s.txs && t != tx ==> KeepsItsRows(s, s'.rows, t)
    ensures LocksOk(s')
  {
    forall t | t in s'.txs ensures TxOk(s', t) {
      EndKeepsTx(s, s', tx, t);
    }
  }

  lemma BeginKeepsLocks(s: State, tx: nat, job: Job)
    requires LocksOk(s) && TablesOk(s)
    ensures LocksOk(Apply(s, Begin(tx, job)))
  {
    var s' := Apply(s, Begin(tx, job));
    if s' != s {
      var i :| IsMember(s.rows, i, job.space, job.actor);
      assert job.space < s.nextSpace by { assert s.rows[i].space in s.spaces; }
      StartingKeepsLocks(s, s', tx, Tx(job, Starting));
    }
  }

  lemma StartingKeepsLocks(s: State, s': State, tx: nat, begun: Tx)
    requires LocksOk(s) && begun.job.space < s.nextSpace
             && (begun.stage.Starting? || (begun.stage.LockingRows? && begun.stage.locked == map[]))
    requires tx !in s.txs || s.txs[tx].stage.Starting?
    requires s' == s.(txs := s.txs[tx := begun])
    ensures LocksOk(s')
  {
    forall t | t in s'.txs ensures TxOk(s', t) {
      if t != tx { assert TxOk(s, t); }
    }
  }

  lemma ReadIdsKeepsLocks(s: State, tx: nat)
    requires LocksOk(s)
    ensures LocksOk(Apply(s, ReadIds(tx)))
  {
    var s' := Apply(s, ReadIds(tx));
    if s' != s {
      assert TxOk(s, tx);
      StartingKeepsLocks(s, s', tx, s'.txs[tx]);
    }
  }

  lemma RemovalLeavesOthers(s: State, tx: nat, t: nat, d: Decision)
    requires tx in s.txs && t in s.txs && tx != t && TxOk(s, tx) && TxOk(s, t) && s.txs[tx].stage.Verified?
    requires Decides(s.txs[tx].stage.locked, s.txs[tx].job, d)
    ensures KeepsItsRows(s, Perform(s.rows, d), t)
  {
    var (job, locked) := (s.txs[tx].job, s.txs[tx].stage.locked);
    CommitTouchesOnlyItsRows(s.rows, locked, job, d);
    OtherLocksAreElsewhere(s, tx, t);
    if s.txs[t].stage.Verified? {
      assert forall i :: i in InSpace(s.rows, s.txs[t].job.space) ==> i !in InSpace(locked, job.space);
    }
  }

  lemma CommitKeepsLocks(s: State, tx: nat, d: Decision)
    requires LocksOk(s)
    ensures LocksOk(Apply(s, Commit(tx, d)))
  {
    var s' := Apply(s, Commit(tx, d));
    if && tx in s.txs && s.txs[tx].stage.Verified? && Decides(s.txs[tx].stage.locked, s.txs[tx].job, d) {
      forall t | t in s.txs && t != tx ensures KeepsItsRows(s, s'.rows, t) {
        assert TxOk(s, tx) && TxOk(s, t);
        RemovalLeavesOthers(s, tx, t, d);
      }
      EndKeepsLocks(s, s', tx);
    }
  }

  lemma OtherLocksAreElsewhere(s: State, tx: nat, t: nat)
    requires tx in s.txs && t in s.txs && tx != t && TxOk(s, tx) && TxOk(s, t) && s.txs[tx].stage.Verified?
    ensures Locked(s.txs[t].stage).Keys !! s.txs[tx].stage.locked.Keys
    ensures s.txs[t].stage.Verified? ==> s.txs[t].job.space != s.txs[tx].job.space
  {
  }

  lemma CommitTouchesOnlyItsRows(rows: Rows, locked: Rows, job: Job, d: Decision)
    requires Knows(rows, locked, job) && Decides(locked, job, d)
    ensures forall i :: i in rows && i !in InSpace(locked, job.space) ==>
                          i in Perform(rows, d) && Perform(rows, d)[i] == rows[i]
    ensures forall i :: i in Perform(rows, d) ==> i in rows && Perform(rows, d)[i].space == rows[i].space
  {
    if !d.Refuse? {
      var actor :| IsMember(locked, actor, job.space, job.actor) && DecidesFor(locked, job, actor, d);
    }
  }

  lemma ApplyKeepsInv(s: State, e: Event)
    requires Inv(s)
    ensures Inv(Apply(s, e))
  {
    ApplyKeepsTables(s, e);
    match e {
      case CreateSpace(user, at) => InsertKeepsLocks(s, Apply(s, e), Member(s.nextSpace, user, Owner, at));
      case Join(user, space, at) =>
        if Apply(s, e) != s { InsertKeepsLocks(s, Apply(s, e), Member(space, user, Plain, at)); }
      case Commit(tx, d) => CommitKeepsLocks(s, tx, d);
      case Begin(tx, job) => BeginKeepsLocks(s, tx, job);
      case ReadIds(tx) => ReadIdsKeepsLocks(s, tx);
      case LockRow(tx, i) => LockRowKeepsLocks(s, tx, i);
      case LockSpace(tx) => LockSpaceKeepsLocks(s, tx);
      case Recheck(tx) => RecheckKeepsLocks(s, tx);
      case Abort(tx) => EndKeepsLocks(s, Apply(s, e), tx);
    }
  }

  lemma {:induction false} EveryRunKeepsInv(s: State, events: seq<Event>)
    requires Inv(s)
    ensures Inv(After(s, events))
  {
    if events != [] {
      EveryRunKeepsInv(s, events[..|events| - 1]);
      ApplyKeepsInv(After(s, events[..|events| - 1]), events[|events| - 1]);
    }
  }

  // ------------------------------------------------------------------ the results

  /** One owner, and at most twenty members. */
  ghost predicate IsInOrder(rows: Rows, space: nat) {
    && (exists i :: i in rows && rows[i].space == space && rows[i].role == Owner)
    && (forall i, j | i in rows && j in rows && rows[i].space == space && rows[j].space == space ::
          rows[i].role == Owner && rows[j].role == Owner ==> i == j)
    && |set i | i in rows && rows[i].space == space| <= 20
  }

  lemma SpacesAreInOrder(rows: Rows, space: nat)
    requires SpaceOk(rows, space)
    ensures IsInOrder(rows, space)
  {
    assert InSpace(rows, space) == set i | i in rows && rows[i].space == space;
    var i :| IsOwner(rows, space, i);
    forall i, j | i in rows && j in rows && rows[i].space == space && rows[j].space == space
      ensures rows[i].role == Owner && rows[j].role == Owner ==> i == j
    {
      assert IsOwner(rows, space, i) && IsOwner(rows, space, j) ==> i == j;
    }
  }

  /** In every interleaving each existing space has exactly one owner and at most twenty members. */
  lemma EverySpaceHasExactlyOneOwner(init: State, events: seq<Event>, space: nat)
    requires Init(init) && space in After(init, events).spaces
    ensures IsInOrder(After(init, events).rows, space)
  {
    EveryRunKeepsInv(init, events);
    SpacesAreInOrder(After(init, events).rows, space);
  }

  /** From the recheck until the commit, what a removal locked is the space's member set. */
  lemma VerifiedMembersAreCurrent(init: State, events: seq<Event>, tx: nat)
    requires Init(init)
    requires tx in After(init, events).txs && After(init, events).txs[tx].stage.Verified?
    ensures var s := After(init, events);
            Knows(s.rows, s.txs[tx].stage.locked, s.txs[tx].job)
  {
    EveryRunKeepsInv(init, events);
    assert TxOk(After(init, events), tx);
  }

  /** The commit is enabled and deletes a space. */
  ghost predicate Deletes(s: State, tx: nat, d: Decision) {
    tx in s.txs && s.txs[tx].stage.Verified? && Decides(s.txs[tx].stage.locked, s.txs[tx].job, d) && d.RemoveSpace?
  }

  ghost predicate DeletedCleanly(s': State, user: nat, space: nat) {
    && space !in s'.spaces && InSpace(s'.rows, space) == {}
    && (exists i :: i in s'.rows && s'.rows[i].user == user && s'.rows[i].space in s'.spaces)
  }

  lemma CleanDeletion(s: State, s': State, locked: Rows, job: Job, d: Decision)
    requires TablesOk(s) && TablesOk(s') && Knows(s.rows, locked, job) && Decides(locked, job, d) && d.RemoveSpace?
    requires s'.rows == Perform(s.rows, d) && s'.spaces == s.spaces - {d.space}
    ensures DeletedCleanly(s', job.actor, d.space)
  {
    JobSpaceExists(s, locked, job, d);
    DecisionKeepsOwner(s.rows, locked, job, d);
    RemovalLeavesActorASpace(s.rows, locked, job, d);
    var i :| i in Perform(s.rows, d) && s.rows[i].user == job.actor;
    assert i in s'.rows;
  }

  lemma DeletionIsClean(s: State, tx: nat, d: Decision)
    requires TablesOk(s) && Deletes(s, tx, d) && TxOk(s, tx) && TablesOk(Committed(s, tx, d))
    ensures DeletedCleanly(Committed(s, tx, d), s.txs[tx].job.actor, d.space)
  {
    CleanDeletion(s, Committed(s, tx, d), s.txs[tx].stage.locked, s.txs[tx].job, d);
  }

  lemma EnabledCommit(s: State, tx: nat, d: Decision)
    requires Deletes(s, tx, d)
    ensures Apply(s, Commit(tx, d)) == Committed(s, tx, d)
  {
  }

  /** A commit that deletes a space deletes all its members, and its actor is still in another space. */
  lemma DeletingASpaceKeepsItsActorHoused(init: State, events: seq<Event>, tx: nat, d: Decision)
    requires Init(init) && Deletes(After(init, events), tx, d)
    ensures var s := After(init, events);
            DeletedCleanly(Apply(s, Commit(tx, d)), s.txs[tx].job.actor, d.space)
  {
    EveryRunKeepsInv(init, events);
    ReachableDeletionIsClean(After(init, events), tx, d);
  }

  lemma ReachableDeletionIsClean(s: State, tx: nat, d: Decision)
    requires Inv(s) && Deletes(s, tx, d)
    ensures DeletedCleanly(Apply(s, Commit(tx, d)), s.txs[tx].job.actor, d.space)
  {
    CommitKeepsTables(s, tx, d);
    EnabledCommit(s, tx, d);
    assert TxOk(s, tx);
    DeletionIsClean(s, tx, d);
  }
}
