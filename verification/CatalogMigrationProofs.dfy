/** What the migrated tables keep of the old ones, and that a second migration finds nothing to do. */
module CatalogMigrationProofs {
  import opened Basics
  import opened CatalogRules
  import opened CatalogMigration

  // ------------------------------------------------------------------ categories

  lemma TargetIsOrdinaryOrNew(rule: Rule, db: Db, targets: Targets, s: nat, key: Key, c: nat)
    requires AllTargetsOk(rule, db, targets) && IsTarget(targets, s, key, c)
    ensures c >= db.nextId || (Ordinary(db, {s}, c) && KeyOf(rule, db.categories[c]) == key)
    ensures InCatalog(key)
  {
    assert TargetsOk(rule, db, s, targets[s]);
  }

  lemma TargetHasOnePlace(rule: Rule, db: Db, targets: Targets, r: nat, j: Key, s: nat, k: Key, c: nat)
    requires AllTargetsOk(rule, db, targets) && IsTarget(targets, r, j, c) && IsTarget(targets, s, k, c)
    ensures r == s && j == k
  {
    assert TargetsOk(rule, db, r, targets[r]);
  }

  lemma FinalIsATarget(rule: Rule, db: Db, targets: Targets, c: nat)
    requires AllTargetsOk(rule, db, targets) && Ordinary(db, targets.Keys, c)
    ensures IsTarget(targets, db.categories[c].space, KeyOf(rule, db.categories[c]), Final(rule, db, targets, c))
  {
    assert TargetsOk(rule, db, db.categories[c].space, targets[db.categories[c].space]);
  }

  lemma RowOfTarget(rule: Rule, db: Db, targets: Targets, after: Db, s: nat, key: Key, c: nat)
    requires IsMigrated(rule, db, targets, after) && IsTarget(targets, s, key, c)
    ensures InCatalog(key) && c in after.categories && after.categories[c] == CatalogRow(s, IndexOf(key))
    ensures Ordinary(after, {s}, c)
  {
  }

  lemma OrdinaryIsATarget(db: Db, targets: Targets, after: Db, s: nat, c: nat) returns (key: Key)
    requires CategoriesMigrated(db, targets, after.categories) && s in targets && Ordinary(after, {s}, c)
    ensures IsTarget(targets, s, key, c)
  {
    NotAnOldRow(db, targets, after, s, c);
    var r: nat, k: Key :| IsTarget(targets, r, k, c);
    assert after.categories[c] == CatalogRow(r, IndexOf(k));
    key := k;
  }

  lemma NotAnOldRow(db: Db, targets: Targets, after: Db, s: nat, c: nat)
    requires s in targets && Ordinary(after, {s}, c)
    ensures !(c in db.categories && !Ordinary(db, targets.Keys, c) && after.categories[c] == db.categories[c])
  {
  }

  /** Afterwards a replaced space's ordinary categories are the catalog's entries, one row each. */
  lemma OrdinaryCategoriesAreTheCatalog(rule: Rule, db: Db, targets: Targets, after: Db, s: nat, c: nat)
    requires IsMigrated(rule, db, targets, after) && s in targets
    ensures Ordinary(after, {s}, c) <==> exists key: Key :: IsTarget(targets, s, key, c)
    ensures Ordinary(after, {s}, c) ==>
              exists k :: 0 <= k < |CATALOG| && targets[s][KeyAt(k)] == c && after.categories[c] == CatalogRow(s, k)
  {
    if Ordinary(after, {s}, c) {
      var key := OrdinaryIsATarget(db, targets, after, s, c);
      RowOfTarget(rule, db, targets, after, s, key, c);
      assert KeyAt(IndexOf(key)) == key;
    }
    if key: Key :| IsTarget(targets, s, key, c) {
      RowOfTarget(rule, db, targets, after, s, key, c);
    }
  }

  /** Each entry has its row, and the rows show in the catalog's order. */
  lemma CatalogIsInDisplayOrder(rule: Rule, db: Db, targets: Targets, after: Db, s: nat, j: nat, k: nat)
    requires IsMigrated(rule, db, targets, after) && s in targets && j < k < |CATALOG|
    ensures KeyAt(j) in targets[s] && KeyAt(k) in targets[s] && targets[s][KeyAt(j)] != targets[s][KeyAt(k)]
    ensures var (x, y) := (targets[s][KeyAt(j)], targets[s][KeyAt(k)]);
            && Ordinary(after, {s}, x) && Ordinary(after, {s}, y)
            && after.categories[x].sort < after.categories[y].sort
  {
    assert TargetsOk(rule, db, s, targets[s]);
    KeysAreDistinct(j, k);
    RowOfEntry(rule, db, targets, after, s, j);
    RowOfEntry(rule, db, targets, after, s, k);
    SortFollowsTheCatalog(j, k);
  }

  lemma RowOfEntry(rule: Rule, db: Db, targets: Targets, after: Db, s: nat, k: nat)
    requires IsMigrated(rule, db, targets, after) && s in targets && k < |CATALOG|
    ensures KeyAt(k) in targets[s]
    ensures IsTarget(targets, s, KeyAt(k), targets[s][KeyAt(k)])
    ensures targets[s][KeyAt(k)] in after.categories && after.categories[targets[s][KeyAt(k)]] == CatalogRow(s, k)
  {
    assert TargetsOk(rule, db, s, targets[s]);
    assert InCatalog(KeyAt(k));
    assert IsTarget(targets, s, KeyAt(k), targets[s][KeyAt(k)]);
    IndexIsUnique(k);
  }

  lemma IndexIsUnique(k: nat)
    requires k < |CATALOG| && InCatalog(KeyAt(k))
    ensures IndexOf(KeyAt(k)) == k
  {
    var j := IndexOf(KeyAt(k));
    if j < k { KeysAreDistinct(j, k); }
    if k < j { KeysAreDistinct(k, j); }
  }

  // ------------------------------------------------------------------ transactions

  /** Every transaction keeps its amount, wallet and type, moves at most once, and knows that it did. */
  lemma TransactionsOnlyChangeCategory(rule: Rule, db: Db, targets: Targets, after: Db, t: nat)
    requires WellFormed(db) && IsMigrated(rule, db, targets, after) && t in db.transactions
    ensures t in after.transactions
    ensures var (x, y) := (db.transactions[t], after.transactions[t]);
            && y.category == Final(rule, db, targets, x.category)
            && y.(category := x.category, version := x.version) == x
            && y.version == x.version + (if y.category != x.category then 1 else 0)
            && y.category in after.categories
            && after.categories[y.category].kind == db.categories[x.category].kind
            && after.categories[y.category].space == db.categories[x.category].space
  {
    FinalIsAKindredRow(rule, db, targets, after, db.transactions[t].category);
  }

  /** A category ends up on a row of its own space and type. */
  lemma FinalIsAKindredRow(rule: Rule, db: Db, targets: Targets, after: Db, c: nat)
    requires IsMigrated(rule, db, targets, after) && c in db.categories
    ensures var f := Final(rule, db, targets, c);
            f in after.categories && after.categories[f].kind == db.categories[c].kind
            && after.categories[f].space == db.categories[c].space
  {
    if Ordinary(db, targets.Keys, c) {
      FinalIsATarget(rule, db, targets, c);
      var key := KeyOf(rule, db.categories[c]);
      assert after.categories[Final(rule, db, targets, c)] == CatalogRow(db.categories[c].space, IndexOf(key));
    }
  }

  /** A sum over some transactions: a balance, a total per type, a count. */
  ghost function SumOver(ids: set<nat>, rows: map<nat, Transaction>, amountOf: Transaction -> int): int
    requires ids <= rows.Keys
  {
    if ids == {} then 0 else amountOf(rows[Pick(ids)]) + SumOver(ids - {Pick(ids)}, rows, amountOf)
  }

  lemma {:induction false} SumDependsOnAmounts(ids: set<nat>, a: map<nat, Transaction>, b: map<nat, Transaction>,
      amountOf: Transaction -> int)
    requires ids <= a.Keys && ids <= b.Keys && forall t :: t in ids ==> amountOf(a[t]) == amountOf(b[t])
    ensures SumOver(ids, a, amountOf) == SumOver(ids, b, amountOf)
  {
    if ids != {} {
      SumDependsOnAmounts(ids - {Pick(ids)}, a, b, amountOf);
    }
  }

  /** A figure that looks at neither the category nor the version of a transaction. */
  ghost predicate IgnoresCategory(amountOf: Transaction -> int) {
    forall t: Transaction, u: Transaction :: u.(category := t.category, version := t.version) == t ==>
                                               amountOf(u) == amountOf(t)
  }

  /** No sum of such figures changes, over any of the transactions. */
  lemma TotalsStay(rule: Rule, db: Db, targets: Targets, after: Db, ids: set<nat>, amountOf: Transaction -> int)
    requires WellFormed(db) && IsMigrated(rule, db, targets, after) && ids <= db.transactions.Keys
             && IgnoresCategory(amountOf)
    ensures ids <= after.transactions.Keys
    ensures SumOver(ids, after.transactions, amountOf) == SumOver(ids, db.transactions, amountOf)
  {
    forall t | t in ids ensures amountOf(after.transactions[t]) == amountOf(db.transactions[t]) {
      TransactionsOnlyChangeCategory(rule, db, targets, after, t);
    }
    SumDependsOnAmounts(ids, after.transactions, db.transactions, amountOf);
  }

  /** What a transaction adds to a wallet's balance. */
  function InBalance(wallet: nat): Transaction -> int {
    (t: Transaction) => if t.wallet != wallet then 0 else if t.kind == Income then t.amount else -t.amount
  }

  function InTotal(kind: Kind): Transaction -> int {
    (t: Transaction) => if t.kind == kind then t.amount else 0
  }

  /** In particular no wallet's balance and no type's total. */
  lemma BalancesAndTotalsStay(rule: Rule, db: Db, targets: Targets, after: Db, wallet: nat, kind: Kind)
    requires WellFormed(db) && IsMigrated(rule, db, targets, after)
    ensures after.transactions.Keys == db.transactions.Keys
    ensures SumOver(db.transactions.Keys, after.transactions, InBalance(wallet))
            == SumOver(db.transactions.Keys, db.transactions, InBalance(wallet))
    ensures SumOver(db.transactions.Keys, after.transactions, InTotal(kind))
            == SumOver(db.transactions.Keys, db.transactions, InTotal(kind))
  {
    TotalsStay(rule, db, targets, after, db.transactions.Keys, InBalance(wallet));
    TotalsStay(rule, db, targets, after, db.transactions.Keys, InTotal(kind));
  }

  lemma SameTransactionsAndLinks(rule: Rule, after: Db, targets: Targets)
    requires forall c: nat :: Final(rule, after, targets, c) == c
    ensures MovedTransactions(rule, after, targets) == after.transactions
    ensures MovedLinks(rule, after, targets) == after.links
  {
    forall t | t in after.transactions
      ensures Moved(rule, after, targets, after.transactions[t]) == after.transactions[t]
    {
      assert Final(rule, after, targets, after.transactions[t].category) == after.transactions[t].category;
    }
    forall link | link in after.links ensures link in MovedLinks(rule, after, targets) {
      assert (link.0, Final(rule, after, targets, link.1)) == link;
    }
  }

  // ------------------------------------------------------------------ limits

  function Covered(links: set<(nat, nat)>, l: nat): set<nat> {
    set link | link in links && link.0 == l :: link.1
  }

  /** Where a concerned link ends: on its space's row of the entry, or on its own, never replaced, category. */
  lemma LinkEnds(rule: Rule, db: Db, targets: Targets, link: (nat, nat))
    requires WellFormed(db) && AllTargetsOk(rule, db, targets) && StaysInSpace(db, targets.Keys)
    requires IsConcerned(db, targets.Keys, link)
    ensures var (place, final) := (PlaceOf(rule, db, targets.Keys, link), Final(rule, db, targets, link.1));
            && (place.At? ==> IsTarget(targets, db.limits[link.0].space, place.key, final))
            && (place.Own? ==> final == place.id && forall s: nat, key: Key :: !IsTarget(targets, s, key, final))
  {
    var place := PlaceOf(rule, db, targets.Keys, link);
    if place.At? {
      FinalIsATarget(rule, db, targets, link.1);
    } else {
      assert !Ordinary(db, targets.Keys, link.1);
      forall s: nat, key: Key ensures !IsTarget(targets, s, key, link.1) {
        if IsTarget(targets, s, key, link.1) {
          TargetIsOrdinaryOrNew(rule, db, targets, s, key, link.1);
        }
      }
    }
  }

  /** Two links of a space end on one category exactly when they have one place. */
  lemma PlacesBecomeCategories(rule: Rule, db: Db, targets: Targets, a: (nat, nat), b: (nat, nat))
    requires WellFormed(db) && AllTargetsOk(rule, db, targets) && StaysInSpace(db, targets.Keys)
    requires IsConcerned(db, targets.Keys, a) && IsConcerned(db, targets.Keys, b)
    requires db.limits[a.0].space == db.limits[b.0].space
    ensures Final(rule, db, targets, a.1) == Final(rule, db, targets, b.1) <==>
            PlaceOf(rule, db, targets.Keys, a) == PlaceOf(rule, db, targets.Keys, b)
  {
    LinkEnds(rule, db, targets, a);
    LinkEnds(rule, db, targets, b);
    var (p, q) := (PlaceOf(rule, db, targets.Keys, a), PlaceOf(rule, db, targets.Keys, b));
    var s := db.limits[a.0].space;
    if p.At? && q.At? && Final(rule, db, targets, a.1) == Final(rule, db, targets, b.1) {
      TargetHasOnePlace(rule, db, targets, s, p.key, s, q.key, Final(rule, db, targets, a.1));
    }
  }

  lemma OneElement(s: set<nat>, x: nat)
    requires x in s
    ensures |s| == 1 <==> s == {x}
    ensures |s| >= 2 <==> s - {x} != {}
  {
    assert s == (s - {x}) + {x};
  }

  lemma LinksEndUpCovered(rule: Rule, db: Db, targets: Targets, after: Db, link: (nat, nat))
    requires after.links == MovedLinks(rule, db, targets) && link in db.links
    ensures Final(rule, db, targets, link.1) in Covered(after.links, link.0)
  {
    assert (link.0, Final(rule, db, targets, link.1)) in after.links;
  }

  lemma SingleStaysSingle(rule: Rule, db: Db, targets: Targets, after: Db, l: nat, c: nat)
    requires after.links == MovedLinks(rule, db, targets) && Covered(db.links, l) == {c}
    ensures Covered(after.links, l) == {Final(rule, db, targets, c)}
  {
    assert (l, c) in db.links;
    LinksEndUpCovered(rule, db, targets, after, (l, c));
    forall g | g in Covered(after.links, l) ensures g == Final(rule, db, targets, c) {
      var link :| link in db.links && (link.0, Final(rule, db, targets, link.1)) == (l, g);
      assert link.1 in Covered(db.links, l);
    }
  }

  lemma GroupHasAnotherPlace(rule: Rule, db: Db, eligible: set<nat>, l: nat, c: nat, d: nat) returns (e: (nat, nat))
    requires WellFormed(db) && NoneCollapses(rule, db, eligible)
    requires l in db.limits && db.limits[l].space in eligible
    requires (l, c) in db.links && (l, d) in db.links && c != d
    ensures IsConcerned(db, eligible, e) && IsConcerned(db, eligible, (l, c)) && e.0 == l
    ensures PlaceOf(rule, db, eligible, e) != PlaceOf(rule, db, eligible, (l, c))
  {
    assert IsConcerned(db, eligible, (l, c)) && IsConcerned(db, eligible, (l, d));
    e :| IsConcerned(db, eligible, e) && e.0 == (l, c).0
         && PlaceOf(rule, db, eligible, e) != PlaceOf(rule, db, eligible, (l, c));
  }

  lemma GroupStaysAGroup(rule: Rule, db: Db, targets: Targets, after: Db, l: nat, c: nat, d: nat)
    requires WellFormed(db) && IsMigrated(rule, db, targets, after) && NoConflicts(rule, db, targets.Keys)
    requires l in db.limits && db.limits[l].space in targets
    requires (l, c) in db.links && (l, d) in db.links && c != d
    ensures |Covered(after.links, l)| >= 2
  {
    var e := GroupHasAnotherPlace(rule, db, targets.Keys, l, c, d);
    PlacesBecomeCategories(rule, db, targets, e, (l, c));
    LinksEndUpCovered(rule, db, targets, after, e);
    LinksEndUpCovered(rule, db, targets, after, (l, c));
    OneElement(Covered(after.links, l), Final(rule, db, targets, c));
  }

  lemma GroupHasTwo(links: set<(nat, nat)>, l: nat) returns (c: nat, d: nat)
    requires |Covered(links, l)| >= 2
    ensures (l, c) in links && (l, d) in links && c != d
  {
    c :| c in Covered(links, l);
    OneElement(Covered(links, l), c);
    d :| d in Covered(links, l) - {c};
  }

  /** A limit of a replaced space stays single or stays a group. */
  lemma LimitsKeepTheirShape(rule: Rule, db: Db, targets: Targets, after: Db, l: nat)
    requires WellFormed(db) && IsMigrated(rule, db, targets, after) && NoConflicts(rule, db, targets.Keys)
    requires l in db.limits && db.limits[l].space in targets
    ensures |Covered(db.links, l)| == 1 ==> |Covered(after.links, l)| == 1
    ensures |Covered(db.links, l)| >= 2 ==> |Covered(after.links, l)| >= 2
  {
    if |Covered(db.links, l)| >= 2 {
      var c, d := GroupHasTwo(db.links, l);
      GroupStaysAGroup(rule, db, targets, after, l, c, d);
    } else if |Covered(db.links, l)| == 1 {
      var c :| c in Covered(db.links, l);
      OneElement(Covered(db.links, l), c);
      SingleStaysSingle(rule, db, targets, after, l, c);
    }
  }

  lemma ConcernedLinkHasASource(rule: Rule, db: Db, targets: Targets, after: Db,
      link: (nat, nat)) returns (source: (nat, nat))
    requires WellFormed(db) && IsMigrated(rule, db, targets, after) && IsConcerned(after, targets.Keys, link)
    ensures IsConcerned(db, targets.Keys, source) && source.0 == link.0 && Final(rule, db, targets, source.1) == link.1
    ensures after.categories[link.1].space == db.categories[source.1].space
  {
    source :| source in db.links && (source.0, Final(rule, db, targets, source.1)) == link;
    FinalIsAKindredRow(rule, db, targets, after, source.1);
  }

  /** No category of a replaced space is in two limits, whatever spaces they are of. */
  lemma CategoriesAreInOneLimit(rule: Rule, db: Db, targets: Targets, after: Db, l: nat, m: nat, c: nat)
    requires WellFormed(db) && IsMigrated(rule, db, targets, after) && NoConflicts(rule, db, targets.Keys)
    requires (l, c) in after.links && (m, c) in after.links
    requires c in after.categories && after.categories[c].space in targets
    ensures l == m
  {
    LinksLeadToRows(rule, db, targets, after, l, c);
    LinksLeadToRows(rule, db, targets, after, m, c);
    var a := ConcernedLinkHasASource(rule, db, targets, after, (l, c));
    var b := ConcernedLinkHasASource(rule, db, targets, after, (m, c));
    PlacesBecomeCategories(rule, db, targets, a, b);
  }

  /** What is linked or spent on is still there: no deleted category is referenced. */
  lemma NothingDangles(rule: Rule, db: Db, targets: Targets, after: Db)
    requires WellFormed(db) && IsMigrated(rule, db, targets, after)
    ensures WellFormed(after)
  {
    forall c | c in after.categories ensures c < after.nextId {
      RowsHaveUsedIds(rule, db, targets, after, c);
    }
    forall t | t in after.transactions ensures after.transactions[t].category in after.categories {
      TransactionsOnlyChangeCategory(rule, db, targets, after, t);
    }
    forall l, c | (l, c) in after.links ensures l in after.limits && c in after.categories {
      LinksLeadToRows(rule, db, targets, after, l, c);
    }
  }

  lemma RowsHaveUsedIds(rule: Rule, db: Db, targets: Targets, after: Db, c: nat)
    requires WellFormed(db) && IsMigrated(rule, db, targets, after) && c in after.categories
    ensures c < after.nextId
  {
    if !(exists s: nat, key: Key :: IsTarget(targets, s, key, c)) {
      assert c in db.categories;
    }
  }

  lemma LinksLeadToRows(rule: Rule, db: Db, targets: Targets, after: Db, l: nat, c: nat)
    requires WellFormed(db) && IsMigrated(rule, db, targets, after) && (l, c) in after.links
    ensures l in after.limits && c in after.categories
  {
    var link :| link in db.links && (link.0, Final(rule, db, targets, link.1)) == (l, c);
    assert (link.0, link.1) in db.links;
    FinalIsAKindredRow(rule, db, targets, after, link.1);
  }
}
