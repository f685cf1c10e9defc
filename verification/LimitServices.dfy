/** The two services that write limits and categories, over the same tables, under the space's lock. */
module LimitServices {
  import opened Basics
  import opened LimitRules

  class Tables {
    var db: Db

    constructor ()
      ensures db == Db(map[], map[], 0) && Inv(db)
    {
      db := Db(map[], map[], 0);
    }
  }

  function SetOf(ids: seq<nat>): set<nat> {
    set c | c in ids
  }

  ghost predicate NoRepeats(ids: seq<nat>) {
    forall i, j :: 0 <= i < j < |ids| ==> ids[i] != ids[j]
  }

  /** Two different ids make a set of two or more. */
  lemma {:induction false} SizeOfSet(ids: seq<nat>)
    requires NoRepeats(ids)
    ensures |SetOf(ids)| == |ids|
  {
    if ids != [] {
      var (init, last) := (ids[..|ids| - 1], ids[|ids| - 1]);
      SizeOfSet(init);
      assert SetOf(ids) == SetOf(init) + {last};
    }
  }

  /** None of the ids is covered by a limit of the space, apart from one. */
  ghost predicate AreAvailable(db: Db, space: nat, ids: seq<nat>, except: Option<nat>) {
    forall l: nat, c :: Covers(db, l, c) && c in ids && db.limits[l].space == space ==> Some(l) == except
  }

  ghost predicate NoOtherTotal(db: Db, space: nat, except: Option<nat>) {
    forall l: nat :: IsTotalOf(db, l, space) ==> Some(l) == except
  }

  /** The row a limit gets for a list of categories. */
  function RowFor(space: nat, ids: seq<nat>, name: Option<string>, amount: nat): Limit {
    Limit(space, if |ids| > 1 then name else None, if ids == [] then Others else PerCategory, amount, SetOf(ids))
  }

  /** What a list of categories has to meet to become a limit's. */
  ghost predicate IsAllowed(db: Db, space: nat, ids: seq<nat>, name: Option<string>, except: Option<nat>) {
    && (forall c :: c in ids ==> Coverable(db, space, c))
    && (|ids| > 1 ==> HasName(name))
    && (if ids == [] then NoOtherTotal(db, space, except) else AreAvailable(db, space, ids, except))
  }

  /** The first thing wrong: a category in the order given, then the missing name, then another limit. */
  ghost predicate IsRefusal(db: Db, space: nat, ids: seq<nat>, name: Option<string>, e: ErrorCode) {
    if exists c :: c in ids && !Coverable(db, space, c)
    then exists k :: 0 <= k < |ids| && !Coverable(db, space, ids[k]) && e == ProblemOf(db, space, ids[k]) &&
                     forall j :: 0 <= j < k ==> Coverable(db, space, ids[j])
    else e == if |ids| > 1 && !HasName(name) then LIMIT_NAME_REQUIRED else LIMIT_EXISTS
  }

  lemma {:induction false} ALimitFits(db: Db, l: nat, row: Limit, ids: seq<nat>, name: Option<string>,
      except: Option<nat>, next: nat)
    requires Inv(db) && NoRepeats(ids) && IsAllowed(db, row.space, ids, name, except)
    requires row == RowFor(row.space, ids, name, row.amount)
    requires if l in db.limits then except == Some(l) else except == None
    requires l < next && db.nextId <= next
    ensures Inv(db.(limits := db.limits[l := row], nextId := next))
  {
    SizeOfSet(ids);
    var db' := db.(limits := db.limits[l := row], nextId := next);
    assert forall m :: m in db.limits ==> LimitOk(db, db.limits[m]);
    forall m | m in db'.limits ensures LimitOk(db', db'.limits[m]) {
      assert m != l ==> LimitOk(db, db.limits[m]);
    }
    forall m, n, c | Covers(db', m, c) && Covers(db', n, c) ensures m == n {
      OneLimitPerCategory(db, l, row, ids, except, m, c);
      OneLimitPerCategory(db, l, row, ids, except, n, c);
      assert m != l && n != l ==> Covers(db, m, c) && Covers(db, n, c);
    }
    forall m, n, s | IsTotalOf(db', m, s) && IsTotalOf(db', n, s) ensures m == n {
      assert m != l ==> IsTotalOf(db, m, s);
      assert n != l ==> IsTotalOf(db, n, s);
    }
  }

  /** A category of the new row is covered by no other limit. */
  lemma OneLimitPerCategory(db: Db, l: nat, row: Limit, ids: seq<nat>, except: Option<nat>, m: nat, c: nat)
    requires Inv(db) && row.categories == SetOf(ids)
    requires ids != [] ==> (forall d :: d in ids ==> Coverable(db, row.space, d))
                           && AreAvailable(db, row.space, ids, except)
    requires except == Some(l) || except == None
    ensures m != l && Covers(db, m, c) ==> c !in row.categories
  {
    if m != l && Covers(db, m, c) {
      assert LimitOk(db, db.limits[m]);
    }
  }

  class LimitsService {
    const tables: Tables

    constructor (tables: Tables)
      ensures this.tables == tables
    {
      this.tables := tables;
    }

    method AssertCategoriesOwnership(space: nat, ids: seq<nat>) returns (e: Option<ErrorCode>)
      ensures e.None? <==> forall c :: c in ids ==> Coverable(tables.db, space, c)
      ensures e.Some? ==> exists k :: 0 <= k < |ids| && !Coverable(tables.db, space, ids[k]) &&
                                      e.value == ProblemOf(tables.db, space, ids[k])
                                      && forall j :: 0 <= j < k ==> Coverable(tables.db, space, ids[j])
    {
      for k := 0 to |ids|
        invariant forall j :: 0 <= j < k ==> Coverable(tables.db, space, ids[j])
      {
        if !Coverable(tables.db, space, ids[k]) {
          assert ids[k] in ids;
          return Some(ProblemOf(tables.db, space, ids[k]));
        }
      }
      return None;
    }

    method CategoriesAreAvailable(space: nat, ids: seq<nat>, except: Option<nat>) returns (ok: bool)
      ensures ok <==> AreAvailable(tables.db, space, ids, except)
    {
      var todo := tables.db.limits.Keys;
      while todo != {}
        invariant todo <= tables.db.limits.Keys
        invariant forall l: nat, c :: && l !in todo && Covers(tables.db, l, c) && c in ids
                                      && tables.db.limits[l].space == space ==>
                                        Some(l) == except
        decreases todo
      {
        var l :| l in todo;
        if && tables.db.limits[l].space == space && Some(l) != except
           && exists c :: c in ids && c in tables.db.limits[l].categories {
          ghost var c :| c in ids && c in tables.db.limits[l].categories;
          assert Covers(tables.db, l, c);
          return false;
        }
        todo := todo - {l};
      }
      return true;
    }

    method HasNoOtherTotal(space: nat, except: Option<nat>) returns (ok: bool)
      ensures ok <==> NoOtherTotal(tables.db, space, except)
    {
      var todo := tables.db.limits.Keys;
      while todo != {}
        invariant todo <= tables.db.limits.Keys
        invariant forall l: nat :: l !in todo && IsTotalOf(tables.db, l, space) ==> Some(l) == except
        decreases todo
      {
        var l :| l in todo;
        if IsTotalOf(tables.db, l, space) && Some(l) != except {
          return false;
        }
        todo := todo - {l};
      }
      return true;
    }

    /** The checks before a limit takes a list of categories. */
    method CheckCategories(space: nat, ids: seq<nat>, except: Option<nat>) returns (ok: bool)
      ensures ok <==> if ids == [] then NoOtherTotal(tables.db, space, except)
                      else AreAvailable(tables.db, space, ids, except)
    {
      if ids == [] {
        ok := HasNoOtherTotal(space, except);
      } else {
        ok := CategoriesAreAvailable(space, ids, except);
      }
    }

    method Create(space: nat, ids: seq<nat>, name: Option<string>, amount: nat) returns (r: Result<nat, ErrorCode>)
      requires Inv(tables.db) && NoRepeats(ids)
      modifies tables
      ensures r.Ok? <==> IsAllowed(old(tables.db), space, ids, name, None)
      ensures r.Err? ==> tables.db == old(tables.db) && IsRefusal(tables.db, space, ids, name, r.error)
      ensures r.Ok? ==>
                && r.value == old(tables.db.nextId)
                && tables.db == old(tables.db)
                                .(limits := old(tables.db.limits)[r.value := RowFor(space, ids, name, amount)],
                                  nextId := r.value + 1)
      ensures Inv(tables.db)
    {
      var problem := AssertCategoriesOwnership(space, ids);
      if problem.Some? {
        return Err(problem.value);
      }
      if |ids| > 1 && !HasName(name) {
        return Err(LIMIT_NAME_REQUIRED);
      }
      var ok := CheckCategories(space, ids, None);
      if !ok {
        return Err(LIMIT_EXISTS);
      }
      r := Insert(space, ids, name, amount);
    }

    method Insert(space: nat, ids: seq<nat>, name: Option<string>, amount: nat) returns (r: Result<nat, ErrorCode>)
      requires Inv(tables.db) && NoRepeats(ids) && IsAllowed(tables.db, space, ids, name, None)
      modifies tables
      ensures r == Ok(old(tables.db.nextId))
      ensures tables.db == old(tables.db)
                           .(limits := old(tables.db.limits)[r.value := RowFor(space, ids, name, amount)],
                             nextId := r.value + 1)
      ensures Inv(tables.db)
    {
      var id := tables.db.nextId;
      var limitType := if |ids| == 0 then Others else PerCategory;
      var row := Limit(space, if |ids| > 1 then name else None, limitType, amount, {});
      if |ids| > 0 {
        row := row.(categories := row.categories + set c | c in ids);
      }
      assert row == RowFor(space, ids, name, amount);
      ALimitFits(tables.db, id, row, ids, name, None, id + 1);
      tables.db := tables.db.(limits := tables.db.limits[id := row], nextId := id + 1);
      r := Ok(id);
    }

    /** An absent list keeps the categories; an absent amount or name keeps that. */
    method Update(space: nat, l: nat, ids: Option<seq<nat>>, name: Option<Option<string>>, amount: Option<nat>)
      returns (r: Result<(), ErrorCode>)
      requires Inv(tables.db) && (ids.Some? ==> NoRepeats(ids.value))
      modifies tables
      ensures r.Ok? <==>
              && l in old(tables.db).limits && old(tables.db).limits[l].space == space
              && var row := old(tables.db).limits[l];
                 var resulting := if name.Some? then name.value else row.name;
                 if ids.Some?
                 then IsAllowed(old(tables.db), space, ids.value, resulting, Some(l))
                 else |row.categories| > 1 ==> HasName(resulting)
      ensures r.Err? ==> tables.db == old(tables.db)
      ensures r.Err? ==>
                if !(l in old(tables.db).limits && old(tables.db).limits[l].space == space)
                then r.error == FORBIDDEN_LIMIT
                else if ids.Some?
                then
                  var resulting := if name.Some? then name.value else old(tables.db).limits[l].name;
                  IsRefusal(old(tables.db), space, ids.value, resulting, r.error)
                else r.error == LIMIT_NAME_REQUIRED
      ensures r.Ok? ==>
                var row := old(tables.db).limits[l];
                var paid := if amount.Some? then amount.value else row.amount;
                var resulting := if name.Some? then name.value else row.name;
                var row' := if ids.Some? then RowFor(space, ids.value, resulting, paid)
                            else row.(amount := paid,
                                      name := if name.None? then row.name
                                              else if |row.categories| > 1 then resulting
                                              else None);
                tables.db == old(tables.db).(limits := old(tables.db).limits[l := row'])
      ensures Inv(tables.db)
    {
      if l !in tables.db.limits || tables.db.limits[l].space != space {
        return Err(FORBIDDEN_LIMIT);
      }
      var row := tables.db.limits[l];
      var resulting := if name.Some? then name.value else row.name;
      if ids.Some? {
        r := Recategorize(space, l, ids.value, resulting, amount);
        return;
      }
      if |row.categories| > 1 && !HasName(resulting) {
        return Err(LIMIT_NAME_REQUIRED);
      }
      var row' := row;
      if amount.Some? {
        row' := row'.(amount := amount.value);
      }
      if name.Some? {
        row' := row'.(name := if |row.categories| > 1 then resulting else None);
      }
      RenamedLimitFits(tables.db, l, row');
      tables.db := tables.db.(limits := tables.db.limits[l := row']);
      r := Ok(());
    }

    method Recategorize(space: nat, l: nat, ids: seq<nat>, name: Option<string>,
        amount: Option<nat>) returns (r: Result<(), ErrorCode>)
      requires Inv(tables.db) && NoRepeats(ids) && l in tables.db.limits && tables.db.limits[l].space == space
      modifies tables
      ensures r.Ok? <==> IsAllowed(old(tables.db), space, ids, name, Some(l))
      ensures r.Err? ==> tables.db == old(tables.db) && IsRefusal(tables.db, space, ids, name, r.error)
      ensures r.Ok? ==>
                var paid := if amount.Some? then amount.value else old(tables.db).limits[l].amount;
                tables.db == old(tables.db).(limits := old(tables.db).limits[l := RowFor(space, ids, name, paid)])
      ensures Inv(tables.db)
    {
      var problem := AssertCategoriesOwnership(space, ids);
      if problem.Some? {
        return Err(problem.value);
      }
      if |ids| > 1 && !HasName(name) {
        return Err(LIMIT_NAME_REQUIRED);
      }
      var ok := CheckCategories(space, ids, Some(l));
      if !ok {
        return Err(LIMIT_EXISTS);
      }
      var row := tables.db.limits[l];
      if amount.Some? {
        row := row.(amount := amount.value);
      }
      row := row.(limitType := if |ids| == 0 then Others else PerCategory, name := if |ids| > 1 then name else None);
      var toRemove := set c | c in row.categories && c !in ids;
      var toAdd := set c | c in ids && c !in row.categories;
      assert row.categories - toRemove + toAdd == SetOf(ids);
      row := row.(categories := row.categories - toRemove + toAdd);
      ALimitFits(tables.db, l, row, ids, name, Some(l), tables.db.nextId);
      tables.db := tables.db.(limits := tables.db.limits[l := row]);
      r := Ok(());
    }

    lemma RenamedLimitFits(db: Db, l: nat, row: Limit)
      requires Inv(db) && l in db.limits
      requires row == db.limits[l].(amount := row.amount, name := row.name)
      requires |row.categories| > 1 ==> HasName(row.name)
      requires row.limitType == Others ==> row.name.None?
      ensures Inv(db.(limits := db.limits[l := row]))
    {
      var db' := db.(limits := db.limits[l := row]);
      assert LimitOk(db, db.limits[l]);
      forall m | m in db'.limits ensures LimitOk(db', db'.limits[m]) {
        assert LimitOk(db, db.limits[m]);
      }
      forall m, n, c | Covers(db', m, c) && Covers(db', n, c) ensures m == n {
        assert Covers(db, m, c) && Covers(db, n, c);
      }
      forall m, n, s | IsTotalOf(db', m, s) && IsTotalOf(db', n, s) ensures m == n {
        assert IsTotalOf(db, m, s) && IsTotalOf(db, n, s);
      }
    }

    method Remove(space: nat, l: nat) returns (r: Result<(), ErrorCode>)
      requires Inv(tables.db)
      modifies tables
      ensures r.Ok? <==> l in old(tables.db).limits && old(tables.db).limits[l].space == space
      ensures r.Err? ==> tables.db == old(tables.db) && r.error == FORBIDDEN_LIMIT
      ensures r.Ok? ==> tables.db == old(tables.db).(limits := old(tables.db).limits - {l})
      ensures Inv(tables.db)
    {
      if l !in tables.db.limits || tables.db.limits[l].space != space {
        return Err(FORBIDDEN_LIMIT);
      }
      FewerLimitsFit(tables.db, l);
      tables.db := tables.db.(limits := tables.db.limits - {l});
      r := Ok(());
    }
  }

  lemma FewerLimitsFit(db: Db, l: nat)
    requires Inv(db)
    ensures Inv(db.(limits := db.limits - {l}))
  {
    var db' := db.(limits := db.limits - {l});
    forall m | m in db'.limits ensures LimitOk(db', db'.limits[m]) {
      assert LimitOk(db, db.limits[m]);
    }
    forall m, n, c | Covers(db', m, c) && Covers(db', n, c) ensures m == n {
      assert Covers(db, m, c) && Covers(db, n, c);
    }
    forall m, n, s | IsTotalOf(db', m, s) && IsTotalOf(db', n, s) ensures m == n {
      assert IsTotalOf(db, m, s) && IsTotalOf(db, n, s);
    }
  }

  // ------------------------------------------------------------------ categories

  /** The limits once a category is in none: without it, and gone when it was the last. */
  function Unlinked(limits: map<nat, Limit>, c: nat): map<nat, Limit> {
    map l | l in limits && limits[l].categories != {c} :: limits[l].(categories := limits[l].categories - {c})
  }

  lemma UnlinkingKeepsInv(db: Db, c: nat)
    requires Inv(db)
    ensures Inv(db.(limits := Unlinked(db.limits, c)))
    ensures forall l :: !Covers(db.(limits := Unlinked(db.limits, c)), l, c)
  {
    var db' := db.(limits := Unlinked(db.limits, c));
    forall l | l in db'.limits ensures LimitOk(db', db'.limits[l]) {
      assert LimitOk(db, db.limits[l]);
      FewerAreFewer(db.limits[l].categories, c);
    }
    forall m, n, d | Covers(db', m, d) && Covers(db', n, d) ensures m == n {
      assert Covers(db, m, d) && Covers(db, n, d);
    }
    forall m, n, s | IsTotalOf(db', m, s) && IsTotalOf(db', n, s) ensures m == n {
      assert IsTotalOf(db, m, s) && IsTotalOf(db, n, s);
    }
  }

  lemma FewerAreFewer(s: set<nat>, c: nat)
    ensures |s - {c}| <= |s|
    ensures s - {c} == {} <==> s == {} || s == {c}
  {
    if c in s {
      assert s == (s - {c}) + {c};
    } else {
      assert s - {c} == s;
    }
  }

  /** A category that no limit covers may change, go, or come. */
  lemma UncoveredMayChange(db: Db, c: nat, categories: map<nat, Category>, next: nat)
    requires Inv(db) && (forall l :: !Covers(db, l, c)) && db.nextId <= next
    requires forall d :: d in categories ==> d < next
    requires forall d :: d != c && d in db.categories ==> d in categories && categories[d] == db.categories[d]
    ensures Inv(db.(categories := categories, nextId := next))
  {
    var db' := db.(categories := categories, nextId := next);
    forall l | l in db'.limits ensures LimitOk(db', db'.limits[l]) {
      assert LimitOk(db, db.limits[l]);
      forall d | d in db.limits[l].categories ensures Coverable(db', db.limits[l].space, d) {
        assert Covers(db, l, d) && Coverable(db, db.limits[l].space, d);
      }
    }
    forall m, n, d | Covers(db', m, d) && Covers(db', n, d) ensures m == n {
      assert Covers(db, m, d) && Covers(db, n, d);
    }
    forall m, n, s | IsTotalOf(db', m, s) && IsTotalOf(db', n, s) ensures m == n {
      assert IsTotalOf(db, m, s) && IsTotalOf(db, n, s);
    }
  }

  /** A change of a category that keeps what limits look at. */
  lemma RenamedCategoryFits(db: Db, c: nat, row: Category)
    requires Inv(db) && c in db.categories
    requires row == db.categories[c].(name := row.name, archivedAt := row.archivedAt)
    ensures Inv(db.(categories := db.categories[c := row]))
  {
    var db' := db.(categories := db.categories[c := row]);
    forall l | l in db'.limits ensures LimitOk(db', db'.limits[l]) {
      assert LimitOk(db, db.limits[l]);
      forall d | d in db.limits[l].categories ensures Coverable(db', db.limits[l].space, d) {
        assert Coverable(db, db.limits[l].space, d);
      }
    }
    forall m, n, d | Covers(db', m, d) && Covers(db', n, d) ensures m == n {
      assert Covers(db, m, d) && Covers(db, n, d);
    }
    forall m, n, s | IsTotalOf(db', m, s) && IsTotalOf(db', n, s) ensures m == n {
      assert IsTotalOf(db, m, s) && IsTotalOf(db, n, s);
    }
  }

  predicate IsInSpace(db: Db, space: nat, c: nat) {
    c in db.categories && db.categories[c].space == space
  }

  predicate IsEditable(db: Db, space: nat, c: nat) {
    IsInSpace(db, space, c) && !db.categories[c].system
  }

  class CategoriesService {
    const tables: Tables

    constructor (tables: Tables)
      ensures this.tables == tables
    {
      this.tables := tables;
    }

    /** Looks for one limit that covers the category; by the shared rule there is no second. */
    method UnlinkFromLimit(c: nat)
      requires Inv(tables.db)
      modifies tables
      ensures tables.db == old(tables.db).(limits := Unlinked(old(tables.db).limits, c))
      ensures Inv(tables.db) && forall l :: !Covers(tables.db, l, c)
    {
      UnlinkingKeepsInv(tables.db, c);
      var found := FindLimitOf(c);
      if found.None? {
        NothingToUnlink(tables.db, c);
        return;
      }
      var l := found.value;
      var row := tables.db.limits[l].(categories := tables.db.limits[l].categories - {c});
      UnlinkingOne(tables.db, l, row, c);
      if row.categories == {} {
        tables.db := tables.db.(limits := tables.db.limits - {l});
      } else {
        tables.db := tables.db.(limits := tables.db.limits[l := row]);
      }
    }

    lemma OtherRowsStay(db: Db, l: nat, c: nat)
      requires l in db.limits && !Covers(db, l, c)
      ensures db.limits[l].(categories := db.limits[l].categories - {c}) == db.limits[l]
              && db.limits[l].categories != {c}
    {
      assert db.limits[l].categories - {c} == db.limits[l].categories;
    }

    lemma NothingToUnlink(db: Db, c: nat)
      requires forall l :: !Covers(db, l, c)
      ensures Unlinked(db.limits, c) == db.limits
    {
      forall l | l in db.limits ensures l in Unlinked(db.limits, c) && Unlinked(db.limits, c)[l] == db.limits[l] {
        OtherRowsStay(db, l, c);
      }
    }

    lemma UnlinkingElsewhere(db: Db, l: nat, m: nat, c: nat)
      requires Inv(db) && Covers(db, l, c) && m in db.limits && m != l
      ensures m in Unlinked(db.limits, c) && Unlinked(db.limits, c)[m] == db.limits[m]
    {
      assert !Covers(db, m, c);
      OtherRowsStay(db, m, c);
    }

    lemma UnlinkingOne(db: Db, l: nat, row: Limit, c: nat)
      requires Inv(db) && Covers(db, l, c) && row == db.limits[l].(categories := db.limits[l].categories - {c})
      ensures row.categories == {} ==> Unlinked(db.limits, c) == db.limits - {l}
      ensures row.categories != {} ==> Unlinked(db.limits, c) == db.limits[l := row]
    {
      FewerAreFewer(db.limits[l].categories, c);
      forall m | m in db.limits && m != l
        ensures m in Unlinked(db.limits, c) && Unlinked(db.limits, c)[m] == db.limits[m]
      {
        UnlinkingElsewhere(db, l, m, c);
      }
      OneRowDiffers(db.limits, Unlinked(db.limits, c), l, row, row.categories == {});
    }

    lemma OneRowDiffers(before: map<nat, Limit>, after: map<nat, Limit>, l: nat, row: Limit, gone: bool)
      requires l in before && forall m :: m in after ==> m in before
      requires forall m :: m in before && m != l ==> m in after && after[m] == before[m]
      requires if gone then l !in after else l in after && after[l] == row
      ensures after == if gone then before - {l} else before[l := row]
    {
    }

    method FindLimitOf(c: nat) returns (found: Option<nat>)
      ensures found.Some? ==> Covers(tables.db, found.value, c)
      ensures found.None? ==> forall l :: !Covers(tables.db, l, c)
    {
      var todo := tables.db.limits.Keys;
      while todo != {}
        invariant todo <= tables.db.limits.Keys
        invariant forall l :: l !in todo ==> !Covers(tables.db, l, c)
        decreases todo
      {
        var l :| l in todo;
        if c in tables.db.limits[l].categories {
          return Some(l);
        }
        todo := todo - {l};
      }
      return None;
    }

    method Create(space: nat, name: string) returns (c: nat)
      requires Inv(tables.db)
      modifies tables
      ensures c == old(tables.db.nextId)
      ensures tables.db == old(tables.db)
                           .(categories := old(tables.db.categories)[c := Category(space, name, true, None, false)],
                             nextId := c + 1)
      ensures Inv(tables.db)
    {
      c := tables.db.nextId;
      var categories := tables.db.categories[c := Category(space, name, true, None, false)];
      forall l ensures !Covers(tables.db, l, c) {
        assert l in tables.db.limits ==> LimitOk(tables.db, tables.db.limits[l]);
      }
      UncoveredMayChange(tables.db, c, categories, c + 1);
      tables.db := tables.db.(categories := categories, nextId := c + 1);
    }

    /** Archiving takes the category out of its limit; restoring does not put it back. */
    method Update(space: nat, c: nat, name: Option<string>, active: Option<bool>,
        now: int) returns (r: Result<(), ErrorCode>)
      requires Inv(tables.db)
      modifies tables
      ensures r.Ok? <==>
              && c in old(tables.db).categories && old(tables.db).categories[c].space == space
              && !old(tables.db).categories[c].system
      ensures r.Err? ==> tables.db == old(tables.db)
      ensures r.Err? ==>
                r.error == if c in old(tables.db).categories && old(tables.db).categories[c].space == space
                           then CATEGORY_IS_SYSTEM else FORBIDDEN_CATEGORY
      ensures r.Ok? ==>
                var row := old(tables.db).categories[c];
                var renamed := if name.Some? then row.(name := name.value) else row;
                if active.Some? && active.value != row.active
                then tables.db == old(tables.db).(
                                    limits := if active.value then old(tables.db).limits
                                              else Unlinked(old(tables.db).limits, c),
                                    categories := old(tables.db).categories[c := renamed.(
                                        active := active.value,
                                        archivedAt := if active.value then None else Some(now))])
                else tables.db == old(tables.db).(categories := old(tables.db).categories[c := renamed])
      ensures Inv(tables.db)
    {
      if !IsEditable(tables.db, space, c) {
        return Err(if IsInSpace(tables.db, space, c) then CATEGORY_IS_SYSTEM else FORBIDDEN_CATEGORY);
      }
      var row := tables.db.categories[c];
      var activeChanged := active.Some? && active.value != row.active;
      if name.Some? {
        row := row.(name := name.value);
      }
      if activeChanged {
        row := row.(active := active.value);
        if !active.value {
          UnlinkFromLimit(c);
          row := row.(archivedAt := Some(now));
        } else {
          ArchivedIsUncovered(tables.db, c);
          row := row.(archivedAt := None);
        }
        UncoveredMayChange(tables.db, c, tables.db.categories[c := row], tables.db.nextId);
      } else {
        RenamedCategoryFits(tables.db, c, row);
      }
      tables.db := tables.db.(categories := tables.db.categories[c := row]);
      r := Ok(());
    }

    lemma ArchivedIsUncovered(db: Db, c: nat)
      requires Inv(db) && c in db.categories && !db.categories[c].active
      ensures forall l :: !Covers(db, l, c)
    {
      forall l ensures !Covers(db, l, c) {
        assert l in db.limits ==> LimitOk(db, db.limits[l]);
      }
    }

    /** A category with transactions is archived, one without is deleted; either way it leaves its limit. */
    method DeleteOrArchive(space: nat, c: nat, transactions: nat, now: int) returns (r: Result<bool, ErrorCode>)
      requires Inv(tables.db)
      modifies tables
      ensures r.Ok? <==>
              && c in old(tables.db).categories && old(tables.db).categories[c].space == space
              && !old(tables.db).categories[c].system
      ensures r.Err? ==> tables.db == old(tables.db)
      ensures r.Err? ==>
                r.error == if c in old(tables.db).categories && old(tables.db).categories[c].space == space
                           then CATEGORY_IS_SYSTEM else FORBIDDEN_CATEGORY
      ensures r.Ok? ==>
                && r.value == (transactions > 0)
                && tables.db == old(tables.db).(
                                  limits := Unlinked(old(tables.db).limits, c),
                                  categories := if r.value
                                    then old(tables.db).categories[
                                           c := old(tables.db).categories[c].(active := false, archivedAt := Some(now))]
                                    else old(tables.db).categories - {c})
      ensures Inv(tables.db)
    {
      if !IsEditable(tables.db, space, c) {
        return Err(if IsInSpace(tables.db, space, c) then CATEGORY_IS_SYSTEM else FORBIDDEN_CATEGORY);
      }
      UnlinkFromLimit(c);
      if transactions == 0 {
        UncoveredMayChange(tables.db, c, tables.db.categories - {c}, tables.db.nextId);
        tables.db := tables.db.(categories := tables.db.categories - {c});
        return Ok(false);
      }
      var row := tables.db.categories[c].(active := false, archivedAt := Some(now));
      UncoveredMayChange(tables.db, c, tables.db.categories[c := row], tables.db.nextId);
      tables.db := tables.db.(categories := tables.db.categories[c := row]);
      r := Ok(true);
    }
  }

  // ------------------------------------------------------------------ the month's summary

  datatype Over = Over(categoryTotal: nat, difference: nat)

  datatype Summary = Summary(total: Option<nat>, spent: seq<nat>, over: Option<Over>)

  /** The category limits, in their order. */
  function PerCategoryOnes(limits: seq<Limit>): seq<Limit> {
    if limits == [] then []
    else if limits[|limits| - 1].limitType == PerCategory
    then PerCategoryOnes(limits[..|limits| - 1]) + [limits[|limits| - 1]]
    else PerCategoryOnes(limits[..|limits| - 1])
  }

  function Amounts(limits: seq<Limit>): nat {
    if limits == [] then 0 else Amounts(limits[..|limits| - 1]) + limits[|limits| - 1].amount
  }

  function Total(s: seq<nat>): nat {
    if s == [] then 0 else Total(s[..|s| - 1]) + s[|s| - 1]
  }

  method SumOver(ids: set<nat>, totals: map<nat, nat>) returns (sum: nat)
    ensures sum == Sum(ids, totals)
  {
    sum := 0;
    var todo := ids;
    while todo != {}
      invariant todo <= ids && sum + Sum(todo, totals) == Sum(ids, totals)
      decreases todo
    {
      var c :| c in todo;
      SumWithout(todo, totals, c);
      sum := sum + SpentOn(totals, c);
      todo := todo - {c};
    }
  }

  method FindTotal(limits: seq<Limit>) returns (total: Option<Limit>)
    ensures total.Some? <==> exists k :: 0 <= k < |limits| && limits[k].limitType == Others
    ensures total.Some? ==>
              exists k :: 0 <= k < |limits| && limits[k] == total.value && limits[k].limitType == Others
                          && forall j :: 0 <= j < k ==> limits[j].limitType != Others
  {
    for k := 0 to |limits|
      invariant forall j :: 0 <= j < k ==> limits[j].limitType != Others
    {
      if limits[k].limitType == Others {
        return Some(limits[k]);
      }
    }
    return None;
  }

  /** What each category limit was spent, what the month was spent, and by how much the limits exceed the total. */
  method CalculateSpending(limits: seq<Limit>, totals: map<nat, nat>) returns (total: Option<Limit>, summary: Summary)
    ensures total.Some? <==> exists k :: 0 <= k < |limits| && limits[k].limitType == Others
    ensures summary.total == if total.Some? then Some(Sum(totals.Keys, totals)) else None
    ensures |summary.spent| == |PerCategoryOnes(limits)|
    ensures Total(summary.spent) == SpentByLimits(PerCategoryOnes(limits), totals)
    ensures forall k :: 0 <= k < |summary.spent| ==>
                          summary.spent[k] == Sum(PerCategoryOnes(limits)[k].categories, totals)
    ensures summary.over.Some? <==> total.Some? && Amounts(PerCategoryOnes(limits)) > total.value.amount
    ensures summary.over.Some? ==>
              summary.over.value.categoryTotal == Amounts(PerCategoryOnes(limits))
              == total.value.amount + summary.over.value.difference
  {
    total := FindTotal(limits);
    var totalSpend := SumOver(totals.Keys, totals);
    var ones: seq<Limit>, spent: seq<nat>, categoryTotal := [], [], 0;
    for k := 0 to |limits|
      invariant ones == PerCategoryOnes(limits[..k]) && |spent| == |ones| && categoryTotal == Amounts(ones)
      invariant Total(spent) == SpentByLimits(ones, totals)
      invariant forall j :: 0 <= j < |spent| ==> spent[j] == Sum(ones[j].categories, totals)
    {
      assert limits[..k + 1][..k] == limits[..k];
      if limits[k].limitType == PerCategory {
        var sum := SumOver(limits[k].categories, totals);
        assert (ones + [limits[k]])[..|ones|] == ones && (spent + [sum])[..|spent|] == spent;
        ones, spent, categoryTotal := ones + [limits[k]], spent + [sum], categoryTotal + limits[k].amount;
      }
    }
    assert limits[..|limits|] == limits;
    var over := if total.Some? && categoryTotal > total.value.amount
                then Some(Over(categoryTotal, categoryTotal - total.value.amount)) else None;
    summary := Summary(if total.Some? then Some(totalSpend) else None, spent, over);
  }

  lemma {:induction false} CategoryLimitsSpendNoMore(limits: seq<Limit>, totals: map<nat, nat>)
    ensures SpentByLimits(PerCategoryOnes(limits), totals) <= SpentByLimits(limits, totals)
  {
    if limits != [] {
      var (init, last) := (limits[..|limits| - 1], limits[|limits| - 1]);
      CategoryLimitsSpendNoMore(init, totals);
      if last.limitType == PerCategory {
        assert (PerCategoryOnes(init) + [last])[..|PerCategoryOnes(init)|] == PerCategoryOnes(init);
      }
    }
  }

  /** The limits of a space, each one once. */
  method GetAll(db: Db, space: nat) returns (ids: seq<nat>)
    ensures AreLimitsOf(db, space, ids)
  {
    ids := [];
    var todo := db.limits.Keys;
    while todo != {}
      invariant todo <= db.limits.Keys
      invariant forall l :: l in ids <==> l !in todo && l in db.limits && db.limits[l].space == space
      invariant forall i, j :: 0 <= i < j < |ids| ==> ids[i] != ids[j]
      decreases todo
    {
      var l :| l in todo;
      if db.limits[l].space == space {
        ids := ids + [l];
      }
      todo := todo - {l};
    }
  }

  /** The month's summary of a space: what its category limits show never exceeds what was spent. */
  method GetSummary(db: Db, space: nat, totals: map<nat, nat>) returns (summary: Summary)
    requires Inv(db)
    ensures Total(summary.spent) <= Sum(totals.Keys, totals)
    ensures summary.total.Some? ==> summary.total.value == Sum(totals.Keys, totals)
    ensures summary.total.Some? <==> exists l :: IsTotalOf(db, l, space)
  {
    var ids := GetAll(db, space);
    var limits := Rows(db, ids);
    var total;
    total, summary := CalculateSpending(limits, totals);
    CategoryLimitsSpendNoMore(limits, totals);
    LimitsSpendAtMostTheTotal(db, space, ids, totals);
    if summary.total.Some? {
      ghost var k :| 0 <= k < |limits| && limits[k].limitType == Others;
      assert ids[k] in ids && IsTotalOf(db, ids[k], space);
    }
    if l :| l in db.limits && IsTotalOf(db, l, space) {
      assert l in ids;
      ghost var k :| 0 <= k < |ids| && ids[k] == l;
      assert limits[k].limitType == Others;
    }
  }
}
