/**
 Spending limits and the categories they cover: the rule that the limits and the categories services
 share, and what follows for the month's spending. The junction rows of a limit are written as the
 set of its categories. Money is in cents.
 */
module LimitRules {
  import opened Basics

  datatype LimitType = Others | PerCategory

  datatype Category = Category(space: nat, name: string, active: bool, archivedAt: Option<int>, system: bool)

  datatype Limit = Limit(space: nat, name: Option<string>, limitType: LimitType, amount: nat, categories: set<nat>)

  datatype Db = Db(categories: map<nat, Category>, limits: map<nat, Limit>, nextId: nat)

  datatype ErrorCode =
    | FORBIDDEN_LIMIT
    | FORBIDDEN_CATEGORY
    | CATEGORY_IS_SYSTEM
    | CATEGORY_ARCHIVED
    | LIMIT_NAME_REQUIRED
    | LIMIT_EXISTS

  predicate HasName(name: Option<string>) {
    name.Some? && name.value != ""
  }

  /** A category that a limit of the space may cover. */
  predicate Coverable(db: Db, space: nat, c: nat) {
    c in db.categories && db.categories[c].space == space && !db.categories[c].system && db.categories[c].active
  }

  function ProblemOf(db: Db, space: nat, c: nat): (e: ErrorCode)
    requires !Coverable(db, space, c)
  {
    if c !in db.categories || db.categories[c].space != space then FORBIDDEN_CATEGORY
    else if db.categories[c].system then CATEGORY_IS_SYSTEM
    else CATEGORY_ARCHIVED
  }

  // ------------------------------------------------------------------ what both services keep

  predicate LimitOk(db: Db, limit: Limit) {
    && (limit.limitType == Others <==> limit.categories == {})
    && (limit.limitType == Others ==> limit.name.None?)
    && (|limit.categories| >= 2 ==> HasName(limit.name))
    && (forall c :: c in limit.categories ==> Coverable(db, limit.space, c))
  }

  predicate Covers(db: Db, l: nat, c: nat) {
    l in db.limits && c in db.limits[l].categories
  }

  predicate IsTotalOf(db: Db, l: nat, space: nat) {
    l in db.limits && db.limits[l].space == space && db.limits[l].limitType == Others
  }

  ghost predicate Inv(db: Db) {
    && (forall l :: l in db.limits ==> LimitOk(db, db.limits[l]))
    && (forall l, m, c :: Covers(db, l, c) && Covers(db, m, c) ==> l == m)
    && (forall l, m, s :: IsTotalOf(db, l, s) && IsTotalOf(db, m, s) ==> l == m)
    && (forall l :: l in db.limits ==> l < db.nextId)
    && (forall c :: c in db.categories ==> c < db.nextId)
  }

  // ------------------------------------------------------------------ sums of spending

  function SpentOn(totals: map<nat, nat>, c: nat): nat {
    if c in totals then totals[c] else 0
  }

  ghost function Sum(ids: set<nat>, totals: map<nat, nat>): nat {
    if ids == {} then 0 else SpentOn(totals, Pick(ids)) + Sum(ids - {Pick(ids)}, totals)
  }

  lemma {:induction false} SumWithout(ids: set<nat>, totals: map<nat, nat>, c: nat)
    requires c in ids
    ensures Sum(ids, totals) == SpentOn(totals, c) + Sum(ids - {c}, totals)
    decreases |ids|
  {
    var p := Pick(ids);
    if p != c {
      SumWithout(ids - {p}, totals, c);
      SumWithout(ids - {c}, totals, p);
      assert ids - {p} - {c} == ids - {c} - {p};
    }
  }

  lemma {:induction false} SumOfUnion(a: set<nat>, b: set<nat>, totals: map<nat, nat>)
    requires a !! b
    ensures Sum(a + b, totals) == Sum(a, totals) + Sum(b, totals)
    decreases |a|
  {
    if a == {} {
      assert a + b == b;
    } else {
      var p := Pick(a);
      SumOfUnion(a - {p}, b, totals);
      SumWithout(a + b, totals, p);
      assert a + b - {p} == (a - {p}) + b;
    }
  }

  lemma {:induction false} SumOfNothing(ids: set<nat>, totals: map<nat, nat>)
    requires ids !! totals.Keys
    ensures Sum(ids, totals) == 0
    decreases |ids|
  {
    if ids != {} {
      SumOfNothing(ids - {Pick(ids)}, totals);
    }
  }

  /** No set of categories was spent more on than all that was spent. */
  lemma SumIsAtMostTheTotal(ids: set<nat>, totals: map<nat, nat>)
    ensures Sum(ids, totals) <= Sum(totals.Keys, totals)
  {
    var (inside, outside) := (ids * totals.Keys, ids - totals.Keys);
    assert ids == inside + outside && totals.Keys == inside + (totals.Keys - ids);
    SumOfUnion(inside, outside, totals);
    SumOfNothing(outside, totals);
    SumOfUnion(inside, totals.Keys - ids, totals);
  }

  // ------------------------------------------------------------------ the limits of a space

  /** Limits read for a space: each one once. */
  ghost predicate AreLimitsOf(db: Db, space: nat, ids: seq<nat>) {
    && (forall l :: l in ids <==> l in db.limits && db.limits[l].space == space)
    && (forall i, j :: 0 <= i < j < |ids| ==> ids[i] != ids[j])
  }

  function Rows(db: Db, ids: seq<nat>): (limits: seq<Limit>)
    requires forall l :: l in ids ==> l in db.limits
    ensures |limits| == |ids| && forall k :: 0 <= k < |ids| ==> limits[k] == db.limits[ids[k]]
  {
    seq(|ids|, k requires 0 <= k < |ids| => db.limits[ids[k]])
  }

  function CategoriesOf(limits: seq<Limit>): set<nat> {
    if limits == [] then {} else CategoriesOf(limits[..|limits| - 1]) + limits[|limits| - 1].categories
  }

  /** What the category limits show as spent, added up. */
  ghost function SpentByLimits(limits: seq<Limit>, totals: map<nat, nat>): nat {
    if limits == [] then 0
    else SpentByLimits(limits[..|limits| - 1], totals) + Sum(limits[|limits| - 1].categories, totals)
  }

  lemma {:induction false} CategoriesComeFromLimits(limits: seq<Limit>, c: nat)
    requires c in CategoriesOf(limits)
    ensures exists k :: 0 <= k < |limits| && c in limits[k].categories
  {
    var init := limits[..|limits| - 1];
    if c in CategoriesOf(init) {
      CategoriesComeFromLimits(init, c);
      var k :| 0 <= k < |init| && c in init[k].categories;
      assert c in limits[k].categories;
    }
  }

  ghost predicate Disjoint(limits: seq<Limit>) {
    forall i, j :: 0 <= i < j < |limits| ==> limits[i].categories !! limits[j].categories
  }

  lemma {:induction false} LimitsSplitTheSpending(limits: seq<Limit>, totals: map<nat, nat>)
    requires Disjoint(limits)
    ensures SpentByLimits(limits, totals) == Sum(CategoriesOf(limits), totals)
  {
    if limits != [] {
      var (init, last) := (limits[..|limits| - 1], limits[|limits| - 1]);
      LimitsSplitTheSpending(init, totals);
      forall c | c in CategoriesOf(init) ensures c !in last.categories {
        CategoriesComeFromLimits(init, c);
        var k :| 0 <= k < |init| && c in init[k].categories;
        assert limits[k].categories !! limits[|limits| - 1].categories;
      }
      SumOfUnion(CategoriesOf(init), last.categories, totals);
    }
  }

  /** No expense counts toward two limits: together they show at most the month's total. */
  lemma LimitsSpendAtMostTheTotal(db: Db, space: nat, ids: seq<nat>, totals: map<nat, nat>)
    requires Inv(db) && AreLimitsOf(db, space, ids)
    ensures SpentByLimits(Rows(db, ids), totals) <= Sum(totals.Keys, totals)
  {
    var limits := Rows(db, ids);
    forall i, j | 0 <= i < j < |limits| ensures limits[i].categories !! limits[j].categories {
      forall c | c in limits[i].categories ensures c !in limits[j].categories {
        assert Covers(db, ids[i], c) && (c in limits[j].categories ==> Covers(db, ids[j], c));
      }
    }
    LimitsSplitTheSpending(limits, totals);
    SumIsAtMostTheTotal(CategoriesOf(limits), totals);
  }
}
