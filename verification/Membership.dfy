/**
 Membership under its locks.

 A removal reads which member rows it needs without a lock, locks them one by one, locks the space,
 reads the set again and starts over if it changed. An acceptance adds a member under the space lock
 alone, and a new space appears with its owner under no lock at all.
 */
module Membership {
  const MAX_MEMBERS_PER_SPACE := 20

  datatype Role = Owner | Plain

  datatype Member = Member(space: nat, user: nat, role: Role, createdAt: int)

  type Rows = map<nat, Member>

  // ------------------------------------------------------------------ what a removal decides

  datatype Job =
    | Leave(space: nat, actor: nat, target: nat)
    | DeleteSpace(space: nat, actor: nat)

  datatype Refusal = ForbiddenSpace | NotFound | LastRemaining

  datatype Decision =
    | Refuse(error: Refusal)
    | RemoveRow(id: nat)
    | HandOver(id: nat, successor: nat)
    | RemoveSpace(space: nat)

  function InSpace(rows: Rows, space: nat): set<nat> {
    set i | i in rows && rows[i].space == space
  }

  function OfUser(rows: Rows, user: nat): set<nat> {
    set i | i in rows && rows[i].user == user
  }

  /** The rows a removal has to lock: every member of the space and every membership of the actor. */
  function ToLock(rows: Rows, job: Job): set<nat> {
    InSpace(rows, job.space) + OfUser(rows, job.actor)
  }

  predicate IsMember(rows: Rows, i: nat, space: nat, user: nat) {
    i in rows && rows[i].space == space && rows[i].user == user
  }

  predicate Precedes(rows: Rows, i: nat, j: nat)
    requires i in rows && j in rows
  {
    rows[i].createdAt < rows[j].createdAt || (rows[i].createdAt == rows[j].createdAt && i <= j)
  }

  /** The longest-standing other member. */
  ghost predicate IsSuccessor(rows: Rows, space: nat, owner: nat, i: nat) {
    && i in InSpace(rows, space) && i != owner
    && (forall j :: j in InSpace(rows, space) && j != owner ==> Precedes(rows, i, j))
  }

  ghost predicate Decides(locked: Rows, job: Job, d: Decision) {
    if forall i :: i in locked ==> !IsMember(locked, i, job.space, job.actor) then d == Refuse(ForbiddenSpace)
    else
      exists actor :: IsMember(locked, actor, job.space, job.actor) && DecidesFor(locked, job, actor, d)
  }

  ghost predicate DecidesFor(locked: Rows, job: Job, actor: nat, d: Decision)
    requires actor in locked
  {
    var owned := locked[actor].role == Owner;
    var remove := if |OfUser(locked, job.actor)| <= 1 then Refuse(LastRemaining) else RemoveSpace(job.space);
    match job
    case DeleteSpace(space, _) => d == if owned then remove else Refuse(ForbiddenSpace)
    case Leave(space, user, target) =>
      if target != user then
        if !owned then d == Refuse(ForbiddenSpace)
        else if forall i :: i in locked ==> !IsMember(locked, i, space, target) then d == Refuse(NotFound)
        else d.RemoveRow? && IsMember(locked, d.id, space, target)
      else if !owned then d == RemoveRow(actor)
      else if InSpace(locked, space) == {actor} then d == remove
      else d.HandOver? && d.id == actor && IsSuccessor(locked, space, actor, d.successor)
  }

  function Perform(rows: Rows, d: Decision): Rows {
    match d
    case Refuse(_) => rows
    case RemoveRow(i) => rows - {i}
    case HandOver(i, next) =>
      var left := rows - {i};
      if next in left then left[next := left[next].(role := Owner)] else left
    case RemoveSpace(space) => rows - InSpace(rows, space)
  }

  // ------------------------------------------------------------------ the machine

  /** How far a removal is; `locked` holds its locked rows as they were read under their locks. */
  datatype Stage =
    | Starting
    | LockingRows(todo: set<nat>, locked: Rows)
    | HoldingSpace(locked: Rows)
    | Verified(locked: Rows)

  datatype Tx = Tx(job: Job, stage: Stage)

  datatype State = State(
    rows: Rows,
    spaces: set<nat>,
    nextId: nat,
    nextSpace: nat,
    txs: map<nat, Tx>,
    rowLocks: map<nat, nat>,
    spaceLocks: map<nat, nat>)

  datatype Event =
    | CreateSpace(user: nat, at: int)
    | Join(user: nat, space: nat, at: int)
    | Begin(tx: nat, job: Job)
    | ReadIds(tx: nat)
    | LockRow(tx: nat, id: nat)
    | LockSpace(tx: nat)
    | Recheck(tx: nat)
    | Commit(tx: nat, decision: Decision)
    | Abort(tx: nat)

  function Locked(stage: Stage): Rows {
    if stage.Starting? then map[] else stage.locked
  }

  function Release(s: State, tx: nat): State {
    s.(rowLocks := map i | i in s.rowLocks && s.rowLocks[i] != tx :: s.rowLocks[i],
       spaceLocks := map p | p in s.spaceLocks && s.spaceLocks[p] != tx :: s.spaceLocks[p])
  }

  function Move(s: State, tx: nat, stage: Stage): State
    requires tx in s.txs
  {
    s.(txs := s.txs[tx := s.txs[tx].(stage := stage)])
  }

  function TakeRow(s: State, tx: nat, i: nat): State
    requires tx in s.txs && s.txs[tx].stage.LockingRows? && i in s.rows
  {
    var stage := s.txs[tx].stage;
    Move(s, tx, LockingRows(stage.todo - {i}, stage.locked[i := s.rows[i]])).(rowLocks := s.rowLocks[i := tx])
  }

  function TakeSpace(s: State, tx: nat): State
    requires tx in s.txs && s.txs[tx].stage.LockingRows?
  {
    Move(s, tx, HoldingSpace(s.txs[tx].stage.locked)).(spaceLocks := s.spaceLocks[s.txs[tx].job.space := tx])
  }

  function Committed(s: State, tx: nat, d: Decision): State {
    Release(s, tx)
      .(txs := s.txs - {tx}, rows := Perform(s.rows, d),
        spaces := if d.RemoveSpace? then s.spaces - {d.space} else s.spaces)
  }

  /** One step; a step that has to wait for a lock, or whose check fails, changes nothing. */
  ghost function Apply(s: State, e: Event): State {
    match e
    case CreateSpace(user, at) =>
      s.(spaces := s.spaces + {s.nextSpace}, nextSpace := s.nextSpace + 1,
         rows := s.rows[s.nextId := Member(s.nextSpace, user, Owner, at)], nextId := s.nextId + 1)
    case Join(user, space, at) =>
      if && space in s.spaces && space !in s.spaceLocks
         && (forall i :: i in s.rows ==> !IsMember(s.rows, i, space, user))
         && |InSpace(s.rows, space)| < MAX_MEMBERS_PER_SPACE
      then s.(rows := s.rows[s.nextId := Member(space, user, Plain, at)], nextId := s.nextId + 1)
      else s
    case Begin(tx, job) =>
      if tx !in s.txs && exists i :: IsMember(s.rows, i, job.space, job.actor)
      then s.(txs := s.txs[tx := Tx(job, Starting)])
      else s
    case ReadIds(tx) =>
      if tx in s.txs && s.txs[tx].stage.Starting?
      then Move(s, tx, LockingRows(ToLock(s.rows, s.txs[tx].job), map[]))
      else s
    case LockRow(tx, i) =>
      if tx in s.txs && s.txs[tx].stage.LockingRows? && i in s.txs[tx].stage.todo then
        if i !in s.rows then Move(s, tx, s.txs[tx].stage.(todo := s.txs[tx].stage.todo - {i}))
        else if i in s.rowLocks then s
        else TakeRow(s, tx, i)
      else s
    case LockSpace(tx) =>
      if && tx in s.txs && s.txs[tx].stage.LockingRows? && s.txs[tx].stage.todo == {}
         && s.txs[tx].job.space !in s.spaceLocks
      then TakeSpace(s, tx)
      else s
    case Recheck(tx) =>
      if tx in s.txs && s.txs[tx].stage.HoldingSpace? then
        var locked := s.txs[tx].stage.locked;
        if ToLock(s.rows, s.txs[tx].job) == locked.Keys
        then Move(s, tx, Verified(locked))
        else Move(Release(s, tx), tx, Starting)
      else s
    case Commit(tx, d) =>
      if tx in s.txs && s.txs[tx].stage.Verified? && Decides(s.txs[tx].stage.locked, s.txs[tx].job, d)
      then Committed(s, tx, d)
      else s
    case Abort(tx) => Release(s, tx).(txs := s.txs - {tx})
  }

  ghost function After(s: State, events: seq<Event>): State {
    if events == [] then s else Apply(After(s, events[..|events| - 1]), events[|events| - 1])
  }

  // ------------------------------------------------------------------ what every run keeps

  /** Exactly one owner, at most twenty members, nobody twice. */
  ghost predicate SpaceOk(rows: Rows, space: nat) {
    && (exists i :: IsOwner(rows, space, i))
    && (forall i, j :: IsOwner(rows, space, i) && IsOwner(rows, space, j) ==> i == j)
    && |InSpace(rows, space)| <= MAX_MEMBERS_PER_SPACE
  }

  ghost predicate IsOwner(rows: Rows, space: nat, i: nat) {
    i in rows && rows[i].space == space && rows[i].role == Owner
  }

  ghost predicate NobodyTwice(rows: Rows) {
    forall i, j :: i in rows && j in rows && rows[i].space == rows[j].space && rows[i].user == rows[j].user ==> i == j
  }

  ghost predicate RowsOk(s: State) {
    forall i :: i in s.rows ==> i < s.nextId && s.rows[i].space in s.spaces
  }

  ghost predicate SpacesOk(s: State) {
    forall p :: p in s.spaces ==> p < s.nextSpace && SpaceOk(s.rows, p)
  }

  ghost predicate TablesOk(s: State) {
    RowsOk(s) && SpacesOk(s) && NobodyTwice(s.rows)
  }

  /** A transaction's locked rows are its own and still as it read them. */
  ghost predicate TxOk(s: State, tx: nat)
    requires tx in s.txs
  {
    var stage := s.txs[tx].stage;
    && s.txs[tx].job.space < s.nextSpace
    && (forall i :: i in Locked(stage) ==>
                      i in s.rowLocks && s.rowLocks[i] == tx && i in s.rows && s.rows[i] == Locked(stage)[i])
    && (stage.HoldingSpace? || stage.Verified? ==>
          s.txs[tx].job.space in s.spaceLocks && s.spaceLocks[s.txs[tx].job.space] == tx)
    && (stage.Verified? ==> InSpace(s.rows, s.txs[tx].job.space) == InSpace(stage.locked, s.txs[tx].job.space))
  }

  ghost predicate LocksOk(s: State) {
    && (forall tx :: tx in s.txs ==> TxOk(s, tx))
    && (forall i :: i in s.rowLocks ==> s.rowLocks[i] in s.txs && i in Locked(s.txs[s.rowLocks[i]].stage))
  }

  ghost predicate Inv(s: State) {
    TablesOk(s) && LocksOk(s)
  }

  ghost predicate Init(s: State) {
    TablesOk(s) && s.txs == map[] && s.rowLocks == map[] && s.spaceLocks == map[]
  }
}
