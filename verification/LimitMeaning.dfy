/** What the shared rule, the checks and the sums of limits come to, in the fields of the rows alone. */
module LimitMeaning {
  import opened Basics
  import opened LimitRules
  import opened LimitServices

  /** An active category of the space, other than the system's. */
  predicate IsUsable(db: Db, space: nat, c: nat) {
    c in db.categories && db.categories[c] == Category(space, db.categories[c].name, true, db.categories[c].archivedAt,
                                                       false)
  }

  /** Another limit of the space stands in the way: one that covers a category of the list, or the one without any. */
  ghost predicate IsTaken(db: Db, space: nat, ids: seq<nat>, except: Option<nat>) {
    exists l :: l in db.limits && db.limits[l].space == space && except != Some(l)
                && if ids == [] then db.limits[l].limitType == Others
                   else exists c :: c in ids && c in db.limits[l].categories
  }

  predicate IsNamed(name: Option<string>) {
    match name
    case None => false
    case Some(text) => |text| > 0
  }

  /** When a list of categories may become a limit's, for a new limit or for one that is changed. */
  lemma AllowedMeans(db: Db, space: nat, ids: seq<nat>, name: Option<string>, except: Option<nat>)
    ensures IsAllowed(db, space, ids, name, except) <==>
              && (forall c :: c in ids ==> IsUsable(db, space, c))
              && (|ids| >= 2 ==> IsNamed(name)) && !IsTaken(db, space, ids, except)
  {
    forall c ensures Coverable(db, space, c) <==> IsUsable(db, space, c) {
    }
    TakenMeans(db, space, ids, except);
  }

  lemma TakenMeans(db: Db, space: nat, ids: seq<nat>, except: Option<nat>)
    ensures IsTaken(db, space, ids, except) <==>
              !(if ids == [] then NoOtherTotal(db, space, except) else AreAvailable(db, space, ids, except))
  {
    if l :| l in db.limits && db.limits[l].space == space && except != Some(l)
            && if ids == [] then db.limits[l].limitType == Others
               else exists c :: c in ids && c in db.limits[l].categories
    {
      if ids == [] {
        assert IsTotalOf(db, l, space);
      } else {
        var c :| c in ids && c in db.limits[l].categories;
        assert Covers(db, l, c);
      }
    }
  }

  /** What is wrong with a category that cannot be covered. */
  predicate IsWrongWith(db: Db, space: nat, c: nat, e: ErrorCode) {
    if c !in db.categories || db.categories[c].space != space then e == FORBIDDEN_CATEGORY
    else if db.categories[c].system then e == CATEGORY_IS_SYSTEM
    else e == CATEGORY_ARCHIVED && !db.categories[c].active
  }

  /** The first category that cannot be covered decides, then the missing name, then the other limit. */
  lemma RefusalMeans(db: Db, space: nat, ids: seq<nat>, name: Option<string>, e: ErrorCode)
    requires IsRefusal(db, space, ids, name, e)
    ensures forall k :: && 0 <= k < |ids| && !IsUsable(db, space, ids[k])
                        && (forall j :: 0 <= j < k ==> IsUsable(db, space, ids[j])) ==>
                          IsWrongWith(db, space, ids[k], e)
    ensures (forall c :: c in ids ==> IsUsable(db, space, c)) ==>
              e == if |ids| >= 2 && !IsNamed(name) then LIMIT_NAME_REQUIRED else LIMIT_EXISTS
  {
    forall c ensures Coverable(db, space, c) <==> IsUsable(db, space, c) {
    }
    forall k | && 0 <= k < |ids| && !IsUsable(db, space, ids[k])
               && (forall j :: 0 <= j < k ==> IsUsable(db, space, ids[j]))
      ensures IsWrongWith(db, space, ids[k], e)
    {
      assert ids[k] in ids && !Coverable(db, space, ids[k]);
      var first :| 0 <= first < |ids| && !Coverable(db, space, ids[first]) && e == ProblemOf(db, space, ids[first]) &&
                   forall j :: 0 <= j < first ==> Coverable(db, space, ids[j]);
      assert first == k;
    }
  }

  /** The shared rule: one limit for each category, one without categories for each space, groups have names. */
  lemma RuleMeans(db: Db)
    requires Inv(db)
    ensures forall l, m | l in db.limits && m in db.limits && l != m ::
              && db.limits[l].categories !! db.limits[m].categories
              && (db.limits[l].space == db.limits[m].space ==>
                    !(db.limits[l].limitType == Others && db.limits[m].limitType == Others))
    ensures forall l | l in db.limits ::
              var row := db.limits[l];
              && (row.limitType == Others <==> row.categories == {}) && (row.limitType == Others ==> row.name.None?)
              && (|row.categories| >= 2 ==> IsNamed(row.name))
              && forall c :: c in row.categories ==> IsUsable(db, row.space, c)
  {
    forall l, m | l in db.limits && m in db.limits && l != m
      ensures db.limits[l].categories !! db.limits[m].categories
      ensures db.limits[l].space == db.limits[m].space ==>
                !(db.limits[l].limitType == Others && db.limits[m].limitType == Others)
    {
      assert forall c :: c in db.limits[l].categories ==> Covers(db, l, c);
      assert forall c :: c in db.limits[m].categories ==> Covers(db, m, c);
      assert !IsTotalOf(db, l, db.limits[l].space) || !IsTotalOf(db, m, db.limits[l].space);
    }
    forall l, c | l in db.limits && c in db.limits[l].categories ensures IsUsable(db, db.limits[l].space, c) {
      assert LimitOk(db, db.limits[l]);
      assert Coverable(db, db.limits[l].space, c);
    }
    forall l | l in db.limits
      ensures LimitOk(db, db.limits[l])
      ensures |db.limits[l].categories| >= 2 ==> IsNamed(db.limits[l].name)
    {
    }
  }

  /** No category makes a total limit, one a limit without a name, several a named group. */
  lemma RowMeans(space: nat, ids: seq<nat>, name: Option<string>, amount: nat)
    ensures var row := RowFor(space, ids, name, amount);
            && row.space == space && row.amount == amount && (forall c :: c in row.categories <==> c in ids)
            && (row.limitType == Others <==> |ids| == 0)
            && if |ids| >= 2 then row.name == name else row.name.None?
  {
  }

  /** Out of every limit goes the category; a limit that covered nothing else goes with it. */
  lemma UnlinkedMeans(limits: map<nat, Limit>, c: nat, l: nat)
    ensures var after := Unlinked(limits, c);
            && (l in after <==> l in limits && !(c in limits[l].categories && |limits[l].categories| == 1))
            && (l in after ==>
                  && after[l].(categories := {}) == limits[l].(categories := {})
                  && forall d :: d in after[l].categories <==> d in limits[l].categories && d != c)
  {
    if l in limits && c in limits[l].categories && |limits[l].categories| == 1 {
      FewerAreFewer(limits[l].categories, c);
      assert |limits[l].categories - {c}| == 0;
    }
  }

  // ------------------------------------------------------------------ the sums

  /** A sum of spending is nothing for no category, the category's spending for one, and adds up over disjoint sets. */
  lemma SpendingAddsUp(a: set<nat>, b: set<nat>, c: nat, totals: map<nat, nat>)
    requires a !! b
    ensures Sum({}, totals) == 0
    ensures Sum({c}, totals) == if c in totals then totals[c] else 0
    ensures Sum(a + b, totals) == Sum(a, totals) + Sum(b, totals)
  {
    SumWithout({c}, totals, c);
    assert {c} - {c} == {};
    SumOfUnion(a, b, totals);
  }

  /** What is read off a list of limits: each is taken by its own, in order. */
  lemma {:induction false} ListsAddUp(a: seq<Limit>, b: seq<Limit>, limit: Limit)
    ensures PerCategoryOnes([limit]) == if limit.limitType == PerCategory then [limit] else []
    ensures Amounts([limit]) == limit.amount
    ensures PerCategoryOnes(a + b) == PerCategoryOnes(a) + PerCategoryOnes(b)
    ensures Amounts(a + b) == Amounts(a) + Amounts(b)
    decreases |b|
  {
    assert [limit][..0] == [];
    if b == [] {
      assert a + b == a;
    } else {
      var init := b[..|b| - 1];
      ListsAddUp(a, init, limit);
      assert (a + b)[..|a + b| - 1] == a + init;
    }
  }

  lemma {:induction false} TotalAddsUp(a: seq<nat>, b: seq<nat>, x: nat)
    ensures Total([x]) == x && Total([]) == 0 && Total(a + b) == Total(a) + Total(b)
    decreases |b|
  {
    assert [x][..0] == [];
    if b == [] {
      assert a + b == a;
    } else {
      TotalAddsUp(a, b[..|b| - 1], x);
      assert (a + b)[..|a + b| - 1] == a + b[..|b| - 1];
    }
  }
}
