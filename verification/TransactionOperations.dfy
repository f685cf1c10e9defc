/**
 Creates that carry an operation id, and deletes.

 A create checks that its id is unused, inserts the transaction and then the id's row, all in one
 transaction; the unique key makes a concurrent create with the same id wait for the first, and fail
 if that commits. Which other creates are under way at the check does not matter.
 */
module TransactionOperations {
  import opened Basics

  /** An operation id within its space. */
  datatype Scope = Scope(space: nat, id: nat)

  datatype Operation = Operation(transaction: nat, createdAt: int, deletedAt: Option<int>)

  datatype Stage = Checking | Writing | Recorded(transaction: nat)

  datatype Create = Create(scope: Scope, stage: Stage)

  /** `made` lists the committed creates with an id; the program keeps no such list. */
  datatype State = State(
    transactions: map<nat, nat>,
    operations: map<Scope, Operation>,
    creates: map<nat, Create>,
    made: seq<(Scope, nat)>,
    nextId: nat)

  const INIT := State(map[], map[], map[], [], 0)

  datatype Event =
    | Start(create: nat, scope: Scope)
    | Check(create: nat)
    | Record(create: nat)
    | Commit(create: nat, now: int)
    | Rollback(create: nat)
    | CreateWithout(space: nat)
    | Remove(transaction: nat, space: nat, now: int)

  predicate Holds(s: State, w: nat, scope: Scope) {
    w in s.creates && s.creates[w].scope == scope && s.creates[w].stage.Recorded?
  }

  function Drop(s: State, w: nat): State {
    s.(creates := s.creates - {w})
  }

  /** assertOperationUnused: reads the committed rows. */
  function AfterCheck(s: State, w: nat): State {
    if w !in s.creates || s.creates[w].stage != Checking then s
    else if s.creates[w].scope in s.operations then Drop(s, w)
    else s.(creates := s.creates[w := s.creates[w].(stage := Writing)])
  }

  /** recordOperation: waits for a holder of the unique key, fails on a committed row. */
  function AfterRecord(s: State, w: nat): State {
    if w !in s.creates || s.creates[w].stage != Writing then s
    else if exists v :: v in s.creates && Holds(s, v, s.creates[w].scope) then s
    else if s.creates[w].scope in s.operations then Drop(s, w)
    else s.(creates := s.creates[w := s.creates[w].(stage := Recorded(s.nextId))], nextId := s.nextId + 1)
  }

  function AfterCommit(s: State, w: nat, now: int): State {
    if w !in s.creates || !s.creates[w].stage.Recorded? then s
    else
      var (scope, id) := (s.creates[w].scope, s.creates[w].stage.transaction);
      Drop(s, w).(transactions := s.transactions[id := scope.space],
                  operations := s.operations[scope := Operation(id, now, None)],
                  made := s.made + [(scope, id)])
  }

  function Deleted(operation: Operation, transaction: nat, now: int): Operation {
    if operation.transaction == transaction then operation.(deletedAt := Some(now)) else operation
  }

  function AfterRemove(s: State, t: nat, space: nat, now: int): State {
    if t !in s.transactions || s.transactions[t] != space then s
    else s.(transactions := s.transactions - {t},
            operations := map scope | scope in s.operations :: Deleted(s.operations[scope], t, now))
  }

  function Apply(s: State, e: Event): State {
    match e
    case Start(w, scope) => if w in s.creates then s else s.(creates := s.creates[w := Create(scope, Checking)])
    case Check(w) => AfterCheck(s, w)
    case Record(w) => AfterRecord(s, w)
    case Commit(w, now) => AfterCommit(s, w, now)
    case Rollback(w) => Drop(s, w)
    case CreateWithout(space) => s.(transactions := s.transactions[s.nextId := space], nextId := s.nextId + 1)
    case Remove(t, space, now) => AfterRemove(s, t, space, now)
  }

  function After(s: State, events: seq<Event>): State {
    if events == [] then s else Apply(After(s, events[..|events| - 1]), events[|events| - 1])
  }

  // ------------------------------------------------------------------ what a client is told

  datatype View = NotFound | Applied(transaction: nat) | Gone(transaction: nat, deletedAt: Option<int>)

  function GetOperation(s: State, scope: Scope): View {
    if scope !in s.operations then NotFound
    else
      var operation := s.operations[scope];
      if operation.transaction in s.transactions && s.transactions[operation.transaction] == scope.space
      then Applied(operation.transaction)
      else Gone(operation.transaction, operation.deletedAt)
  }

  // ------------------------------------------------------------------ what every run keeps

  /** The id's row names the transaction it made, and is marked exactly when that one is gone. */
  predicate OperationOk(s: State, scope: Scope)
    requires scope in s.operations
  {
    var operation := s.operations[scope];
    && operation.transaction < s.nextId
    && (operation.deletedAt.None? <==> operation.transaction in s.transactions)
    && (operation.transaction in s.transactions ==> s.transactions[operation.transaction] == scope.space)
  }

  predicate HolderOk(s: State, w: nat)
    requires w in s.creates
  {
    s.creates[w].stage.Recorded? ==>
      && s.creates[w].scope !in s.operations
      && s.creates[w].stage.transaction < s.nextId && s.creates[w].stage.transaction !in s.transactions
  }

  predicate UsesTransaction(s: State, scope: Scope, t: nat) {
    scope in s.operations && s.operations[scope].transaction == t
  }

  predicate WillUse(s: State, w: nat, t: nat) {
    w in s.creates && s.creates[w].stage == Recorded(t)
  }

  ghost predicate MadeOnce(s: State) {
    && (forall i :: 0 <= i < |s.made| ==> UsesTransaction(s, s.made[i].0, s.made[i].1))
    && (forall i, j :: 0 <= i < j < |s.made| ==> s.made[i].0 != s.made[j].0)
  }

  ghost predicate Inv(s: State) {
    && (forall scope :: scope in s.operations ==> OperationOk(s, scope))
    && (forall w :: w in s.creates ==> HolderOk(s, w))
    && (forall v, w, scope :: Holds(s, v, scope) && Holds(s, w, scope) ==> v == w)
    && (forall a, b, t :: UsesTransaction(s, a, t) && UsesTransaction(s, b, t) ==> a == b)
    && (forall w, scope, t :: WillUse(s, w, t) ==> !UsesTransaction(s, scope, t))
    && (forall v, w, t :: WillUse(s, v, t) && WillUse(s, w, t) ==> v == w)
    && (forall t :: t in s.transactions ==> t < s.nextId)
    && MadeOnce(s)
  }

  lemma RecordKeepsInv(s: State, w: nat)
    requires Inv(s)
    ensures Inv(AfterRecord(s, w))
  {
    var s' := AfterRecord(s, w);
    if s'.nextId != s.nextId {
      forall u | u in s'.creates ensures HolderOk(s', u) {
        assert HolderOk(s, u);
      }
      forall u, v, scope | Holds(s', u, scope) && Holds(s', v, scope) ensures u == v {
        assert u != w ==> Holds(s, u, scope);
        assert v != w ==> Holds(s, v, scope);
      }
      forall u, scope, t | WillUse(s', u, t) ensures !UsesTransaction(s', scope, t) {
        assert scope in s.operations ==> OperationOk(s, scope);
        assert UsesTransaction(s', scope, t) == UsesTransaction(s, scope, t);
        assert u != w ==> WillUse(s, u, t);
      }
      forall u, v, t | WillUse(s', u, t) && WillUse(s', v, t) ensures u == v {
        assert u != w ==> WillUse(s, u, t) && HolderOk(s, u);
        assert v != w ==> WillUse(s, v, t) && HolderOk(s, v);
      }
      forall a, b, t | UsesTransaction(s', a, t) && UsesTransaction(s', b, t) ensures a == b {
        assert UsesTransaction(s, a, t) && UsesTransaction(s, b, t);
      }
      RestStays(s, s');
    } else if w in s.creates {
      FewerCreates(s, w);
    }
  }

  /** Operations and what they made are untouched when only creates move on. */
  lemma RestStays(s: State, s': State)
    requires Inv(s) && s'.operations == s.operations && s'.transactions == s.transactions && s'.made == s.made
             && s'.nextId >= s.nextId
    ensures (forall scope :: scope in s'.operations ==> OperationOk(s', scope)) && MadeOnce(s')
  {
    forall scope | scope in s'.operations ensures OperationOk(s', scope) {
      assert OperationOk(s, scope);
    }
    forall i | 0 <= i < |s'.made| ensures UsesTransaction(s', s'.made[i].0, s'.made[i].1) {
      assert UsesTransaction(s, s.made[i].0, s.made[i].1);
    }
  }

  lemma FewerCreates(s: State, w: nat)
    requires Inv(s)
    ensures Inv(Drop(s, w))
  {
    var s' := Drop(s, w);
    forall u | u in s'.creates ensures HolderOk(s', u) {
      assert HolderOk(s, u);
    }
    forall u, v, scope | Holds(s', u, scope) && Holds(s', v, scope) ensures u == v {
      assert Holds(s, u, scope) && Holds(s, v, scope);
    }
    forall u, scope, t | WillUse(s', u, t) ensures !UsesTransaction(s', scope, t) {
      assert WillUse(s, u, t) && !UsesTransaction(s, scope, t);
    }
    forall u, v, t | WillUse(s', u, t) && WillUse(s', v, t) ensures u == v {
      assert WillUse(s, u, t) && WillUse(s, v, t);
    }
    forall a, b, t | UsesTransaction(s', a, t) && UsesTransaction(s', b, t) ensures a == b {
      assert UsesTransaction(s, a, t) && UsesTransaction(s, b, t);
    }
    RestStays(s, s');
  }

  /** A create that holds nothing may start or pass its check. */
  lemma MovingKeepsInv(s: State, w: nat, create: Create)
    requires Inv(s) && !create.stage.Recorded?
    ensures Inv(s.(creates := s.creates[w := create]))
  {
    var s' := s.(creates := s.creates[w := create]);
    forall u | u in s'.creates ensures HolderOk(s', u) {
      assert u != w ==> HolderOk(s, u);
    }
    forall u, v, scope | Holds(s', u, scope) && Holds(s', v, scope) ensures u == v {
      assert Holds(s, u, scope) && Holds(s, v, scope);
    }
    forall u, scope, t | WillUse(s', u, t) ensures !UsesTransaction(s', scope, t) {
      assert WillUse(s, u, t) && !UsesTransaction(s, scope, t);
    }
    forall u, v, t | WillUse(s', u, t) && WillUse(s', v, t) ensures u == v {
      assert WillUse(s, u, t) && WillUse(s, v, t);
    }
    forall a, b, t | UsesTransaction(s', a, t) && UsesTransaction(s', b, t) ensures a == b {
      assert UsesTransaction(s, a, t) && UsesTransaction(s, b, t);
    }
    RestStays(s, s');
  }

  lemma CommitKeepsInv(s: State, w: nat, now: int)
    requires Inv(s)
    ensures Inv(AfterCommit(s, w, now))
  {
    var s' := AfterCommit(s, w, now);
    if w in s.creates && s.creates[w].stage.Recorded? {
      var (scope, id) := (s.creates[w].scope, s.creates[w].stage.transaction);
      assert HolderOk(s, w) && Holds(s, w, scope) && WillUse(s, w, id);
      forall u | u in s'.creates ensures HolderOk(s', u) {
        assert HolderOk(s, u);
        if s.creates[u].stage.Recorded? {
          assert Holds(s, u, s.creates[u].scope) && WillUse(s, u, s.creates[u].stage.transaction);
        }
      }
      forall u, v, c | Holds(s', u, c) && Holds(s', v, c) ensures u == v {
        assert Holds(s, u, c) && Holds(s, v, c);
      }
      CommittedOperations(s, w, now, scope, id);
      forall i | 0 <= i < |s'.made| ensures UsesTransaction(s', s'.made[i].0, s'.made[i].1) {
        assert i < |s.made| ==> UsesTransaction(s, s.made[i].0, s.made[i].1);
      }
      forall i, j | 0 <= i < j < |s'.made| ensures s'.made[i].0 != s'.made[j].0 {
        assert UsesTransaction(s, s.made[i].0, s.made[i].1);
      }
    }
  }

  lemma CommittedOperations(s: State, w: nat, now: int, scope: Scope, id: nat)
    requires Inv(s) && WillUse(s, w, id) && s.creates[w].scope == scope && HolderOk(s, w)
    ensures var s' := AfterCommit(s, w, now);
            && (forall c :: c in s'.operations ==> OperationOk(s', c))
            && (forall a, b, t :: UsesTransaction(s', a, t) && UsesTransaction(s', b, t) ==> a == b)
            && (forall u, c, t :: WillUse(s', u, t) ==> !UsesTransaction(s', c, t))
            && (forall u, v, t :: WillUse(s', u, t) && WillUse(s', v, t) ==> u == v)
  {
    var s' := AfterCommit(s, w, now);
    forall c | c in s'.operations ensures OperationOk(s', c) {
      if c != scope {
        assert OperationOk(s, c) && UsesTransaction(s, c, s.operations[c].transaction);
      }
    }
    forall a, b, t | UsesTransaction(s', a, t) && UsesTransaction(s', b, t) ensures a == b {
      assert a != scope ==> UsesTransaction(s, a, t);
      assert b != scope ==> UsesTransaction(s, b, t);
    }
    forall u, c, t | WillUse(s', u, t) ensures !UsesTransaction(s', c, t) {
      assert WillUse(s, u, t);
      assert c != scope ==> !UsesTransaction(s, c, t);
    }
    forall u, v, t | WillUse(s', u, t) && WillUse(s', v, t) ensures u == v {
      assert WillUse(s, u, t) && WillUse(s, v, t);
    }
  }

  /** The tables change, but no create does. */
  lemma TablesKeepInv(s: State, s': State)
    requires Inv(s) && s'.creates == s.creates && s'.made == s.made && s'.nextId >= s.nextId
    requires forall scope :: scope in s'.operations <==> scope in s.operations
    requires forall scope :: scope in s.operations ==>
                               s'.operations[scope].transaction == s.operations[scope].transaction
    requires forall scope :: scope in s'.operations ==> OperationOk(s', scope)
    requires forall t :: t in s'.transactions ==> t < s'.nextId && (t in s.transactions || t >= s.nextId)
    ensures Inv(s')
  {
    forall u | u in s'.creates ensures HolderOk(s', u) {
      assert HolderOk(s, u);
    }
    forall u, v, scope | Holds(s', u, scope) && Holds(s', v, scope) ensures u == v {
      assert Holds(s, u, scope) && Holds(s, v, scope);
    }
    forall u, scope, t | WillUse(s', u, t) ensures !UsesTransaction(s', scope, t) {
      assert WillUse(s, u, t) && !UsesTransaction(s, scope, t);
    }
    forall u, v, t | WillUse(s', u, t) && WillUse(s', v, t) ensures u == v {
      assert WillUse(s, u, t) && WillUse(s, v, t);
    }
    forall a, b, t | UsesTransaction(s', a, t) && UsesTransaction(s', b, t) ensures a == b {
      assert UsesTransaction(s, a, t) && UsesTransaction(s, b, t);
    }
    forall i | 0 <= i < |s'.made| ensures UsesTransaction(s', s'.made[i].0, s'.made[i].1) {
      assert UsesTransaction(s, s.made[i].0, s.made[i].1);
    }
  }

  lemma RemoveKeepsInv(s: State, t: nat, space: nat, now: int)
    requires Inv(s)
    ensures Inv(AfterRemove(s, t, space, now))
  {
    var s' := AfterRemove(s, t, space, now);
    if t in s.transactions && s.transactions[t] == space {
      forall scope | scope in s'.operations ensures OperationOk(s', scope) {
        assert OperationOk(s, scope);
      }
      TablesKeepInv(s, s');
    }
  }

  lemma CreateWithoutKeepsInv(s: State, space: nat)
    requires Inv(s)
    ensures Inv(Apply(s, CreateWithout(space)))
  {
    var s' := Apply(s, CreateWithout(space));
    forall scope | scope in s'.operations ensures OperationOk(s', scope) {
      assert OperationOk(s, scope);
    }
    TablesKeepInv(s, s');
  }

  lemma ApplyKeepsInv(s: State, e: Event)
    requires Inv(s)
    ensures Inv(Apply(s, e))
  {
    match e
    case Start(w, scope) => if w !in s.creates { MovingKeepsInv(s, w, Create(scope, Checking)); }
    case Check(w) =>
      if w in s.creates && s.creates[w].stage == Checking {
        if s.creates[w].scope in s.operations {
          FewerCreates(s, w);
        } else {
          MovingKeepsInv(s, w, s.creates[w].(stage := Writing));
        }
      }
    case Record(w) => RecordKeepsInv(s, w);
    case Commit(w, now) => CommitKeepsInv(s, w, now);
    case Rollback(w) => FewerCreates(s, w);
    case CreateWithout(space) => CreateWithoutKeepsInv(s, space);
    case Remove(t, space, now) => RemoveKeepsInv(s, t, space, now);
  }

  lemma {:induction false} EveryRunKeepsInv(events: seq<Event>)
    ensures Inv(After(INIT, events))
  {
    if events == [] {
    } else {
      EveryRunKeepsInv(events[..|events| - 1]);
      ApplyKeepsInv(After(INIT, events[..|events| - 1]), events[|events| - 1]);
    }
  }

  /** However creates interleave, an operation id makes one transaction at most, ever. */
  lemma OperationMakesOneTransaction(events: seq<Event>, i: nat, j: nat)
    requires i < j < |After(INIT, events).made|
    ensures After(INIT, events).made[i].0 != After(INIT, events).made[j].0
  {
    EveryRunKeepsInv(events);
  }

  /** What became of a create: the client sees what it made, and the deletion time exactly once that is gone. */
  lemma ViewTellsWhatBecameOfIt(events: seq<Event>, i: nat)
    requires i < |After(INIT, events).made|
    ensures var s := After(INIT, events);
            var (scope, t) := (s.made[i].0, s.made[i].1);
            if t in s.transactions
            then GetOperation(s, scope) == Applied(t) && s.operations[scope].deletedAt.None?
            else GetOperation(s, scope).Gone? && GetOperation(s, scope).transaction == t
                 && GetOperation(s, scope).deletedAt.Some?
  {
    EveryRunKeepsInv(events);
    var s := After(INIT, events);
    assert UsesTransaction(s, s.made[i].0, s.made[i].1) && OperationOk(s, s.made[i].0);
  }

  // ------------------------------------------------------------------ what a client sees, step by step

  /** From unknown to applied when its create commits, from applied to deleted when that goes, and no further. */
  predicate ViewMovesOn(s: State, e: Event, s': State, scope: Scope) {
    match GetOperation(s, scope)
    case NotFound =>
      GetOperation(s', scope).NotFound?
      || (&& e.Commit? && Holds(s, e.create, scope)
          && var t := s.creates[e.create].stage.transaction;
             && GetOperation(s', scope) == Applied(t) && t !in s.transactions
             && s'.transactions == s.transactions[t := scope.space] && s'.made == s.made + [(scope, t)])
    case Applied(t) =>
      if e.Remove? && e.transaction == t && e.space == scope.space
      then GetOperation(s', scope) == Gone(t, Some(e.now)) && s'.transactions == s.transactions - {t}
      else GetOperation(s', scope) == Applied(t)
    case Gone(t, deletedAt) => GetOperation(s', scope) == Gone(t, deletedAt)
  }

  lemma StepMovesView(s: State, e: Event, scope: Scope)
    requires Inv(s)
    ensures ViewMovesOn(s, e, Apply(s, e), scope)
  {
    assert scope in s.operations ==> OperationOk(s, scope);
    match e {
      case Commit(w, now) =>
        if w in s.creates && s.creates[w].stage.Recorded? {
          CommitMovesView(s, w, now, scope);
        }
      case Remove(t, space, now) => RemoveMovesView(s, t, space, now, scope);
      case _ =>
    }
  }

  lemma CommitMovesView(s: State, w: nat, now: int, scope: Scope)
    requires Inv(s) && w in s.creates && s.creates[w].stage.Recorded?
    ensures ViewMovesOn(s, Commit(w, now), AfterCommit(s, w, now), scope)
  {
    assert HolderOk(s, w);
    assert scope in s.operations ==> OperationOk(s, scope);
    var id := s.creates[w].stage.transaction;
    assert WillUse(s, w, id);
    assert scope in s.operations ==> UsesTransaction(s, scope, s.operations[scope].transaction);
  }

  lemma RemoveMovesView(s: State, t: nat, space: nat, now: int, scope: Scope)
    requires Inv(s)
    ensures ViewMovesOn(s, Remove(t, space, now), AfterRemove(s, t, space, now), scope)
  {
    assert scope in s.operations ==> OperationOk(s, scope);
  }

  /** In every run, what a client sees of an operation only moves on, and each deletion shows its own time. */
  lemma ViewsMoveOn(events: seq<Event>, e: Event, scope: Scope)
    ensures ViewMovesOn(After(INIT, events), e, Apply(After(INIT, events), e), scope)
  {
    EveryRunKeepsInv(events);
    StepMovesView(After(INIT, events), e, scope);
  }

  /** A create with an unused id that nobody else is writing goes through, whatever the others are at. */
  lemma UnusedIdIsApplied(events: seq<Event>, w: nat, scope: Scope, now: int)
    requires var s := After(INIT, events);
             && w !in s.creates && scope !in s.operations && forall v :: v in s.creates ==> !Holds(s, v, scope)
    ensures var s := After(INIT, events);
            var s' := Apply(Apply(Apply(Apply(s, Start(w, scope)), Check(w)), Record(w)), Commit(w, now));
            && GetOperation(s', scope) == Applied(s.nextId) && s.nextId !in s.transactions
            && s'.creates == s.creates && s'.transactions == s.transactions[s.nextId := scope.space]
  {
    EveryRunKeepsInv(events);
    var s := After(INIT, events);
    GoesThrough(s, w, scope, now);
  }

  lemma GoesThrough(s: State, w: nat, scope: Scope, now: int)
    requires Inv(s) && w !in s.creates && scope !in s.operations && forall v :: v in s.creates ==> !Holds(s, v, scope)
    ensures var s' := Apply(Apply(Apply(Apply(s, Start(w, scope)), Check(w)), Record(w)), Commit(w, now));
            && GetOperation(s', scope) == Applied(s.nextId) && s.nextId !in s.transactions
            && s'.creates == s.creates && s'.transactions == s.transactions[s.nextId := scope.space]
  {
    var started := Apply(s, Start(w, scope));
    assert started.creates - {w} == s.creates;
    var writing := Apply(started, Check(w));
    assert writing.creates - {w} == s.creates;
    var recorded := Apply(writing, Record(w));
    assert recorded.creates - {w} == s.creates;
  }
}
