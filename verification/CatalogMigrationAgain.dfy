/** Running the migration on its own result. */
module CatalogMigrationAgain {
  import opened CatalogRules
  import opened CatalogMigration
  import opened CatalogMigrationProofs

  /** In the migrated tables every ordinary category is the one candidate of its own entry. */
  lemma CandidatesAreTheTargets(rule: Rule, db: Db, targets: Targets, after: Db, s: nat, key: Key, c: nat)
    requires WellFormed(db) && IsMigrated(rule, db, targets, after) && KeepsNames(rule) && s in targets
    ensures IsCandidate(rule, after, s, key, c) <==> IsTarget(targets, s, key, c)
    ensures Ordinary(after, {s}, c) ==> IsTarget(targets, s, KeyOf(rule, after.categories[c]), c)
  {
    OrdinaryCategoriesAreTheCatalog(rule, db, targets, after, s, c);
    if Ordinary(after, {s}, c) {
      var k :| 0 <= k < |CATALOG| && targets[s][KeyAt(k)] == c && after.categories[c] == CatalogRow(s, k);
      assert KeepsName(rule, s, k);
      RowOfEntry(rule, db, targets, after, s, k);
      if IsTarget(targets, s, key, c) {
        TargetHasOnePlace(rule, db, targets, s, key, s, KeyAt(k), c);
      }
    }
  }

  lemma KeeperIsTheTarget(rule: Rule, db: Db, targets: Targets, after: Db, s: nat, key: Key, c: nat)
    requires WellFormed(db) && IsMigrated(rule, db, targets, after) && KeepsNames(rule)
    requires s in targets && key in targets[s]
    requires IsKeeper(rule, after, s, key, c) || IsNew(rule, after, s, key, c)
    ensures c == targets[s][key]
  {
    assert IsTarget(targets, s, key, targets[s][key]);
    CandidatesAreTheTargets(rule, db, targets, after, s, key, targets[s][key]);
    CandidatesAreTheTargets(rule, db, targets, after, s, key, c);
  }

  lemma EveryEntryHasARow(rule: Rule, db: Db, after: Db, s: nat, t: map<Key, nat>, u: map<Key, nat>)
    requires TargetsOk(rule, db, s, t) && TargetsOk(rule, after, s, u)
    ensures forall key :: key in u <==> key in t
  {
  }

  lemma SameRows<K>(a: map<K, nat>, b: map<K, nat>)
    requires forall key :: key in a <==> key in b
    requires forall key :: key in a ==> a[key] == b[key]
    ensures a == b
  {
    assert a.Keys == b.Keys;
  }

  lemma KeepersAreTheTargets(rule: Rule, db: Db, targets: Targets, after: Db, s: nat, t: map<Key, nat>)
    requires WellFormed(db) && IsMigrated(rule, db, targets, after) && KeepsNames(rule) && s in targets
    requires TargetsOk(rule, after, s, t)
    ensures t == targets[s]
  {
    EveryEntryHasARow(rule, db, after, s, targets[s], t);
    forall key | key in t ensures t[key] == targets[s][key] {
      KeeperIsTheTarget(rule, db, targets, after, s, key, t[key]);
    }
    SameRows(t, targets[s]);
  }

  lemma EveryCategoryStays(rule: Rule, db: Db, targets: Targets, after: Db, c: nat)
    requires WellFormed(db) && IsMigrated(rule, db, targets, after) && KeepsNames(rule)
    ensures Final(rule, after, targets, c) == c
  {
    if Ordinary(after, targets.Keys, c) {
      var s := after.categories[c].space;
      CandidatesAreTheTargets(rule, db, targets, after, s, KeyOf(rule, after.categories[c]), c);
    }
  }

  lemma CategoryRowStays(rule: Rule, db: Db, targets: Targets, after: Db, rows: map<nat, Category>, c: nat)
    requires WellFormed(db) && IsMigrated(rule, db, targets, after) && KeepsNames(rule)
    requires CategoriesMigrated(after, targets, rows) && c in after.categories
    ensures c in rows && rows[c] == after.categories[c]
  {
    if Ordinary(after, targets.Keys, c) {
      var (s, key) := (after.categories[c].space, KeyOf(rule, after.categories[c]));
      CandidatesAreTheTargets(rule, db, targets, after, s, key, c);
      assert IsTarget(targets, s, key, c);
      assert CategoriesMigrated(db, targets, after.categories);
    }
  }

  lemma NoCategoryIsAdded(db: Db, targets: Targets, after: Db, rows: map<nat, Category>, c: nat)
    requires CategoriesMigrated(db, targets, after.categories) && CategoriesMigrated(after, targets, rows) && c in rows
    ensures c in after.categories
  {
    if s: nat, key: Key :| IsTarget(targets, s, key, c) {
    }
  }

  lemma SameCategories(rule: Rule, db: Db, targets: Targets, after: Db, again: Db)
    requires WellFormed(db) && IsMigrated(rule, db, targets, after) && KeepsNames(rule)
    requires IsMigrated(rule, after, targets, again)
    ensures forall c :: c in after.categories ==> c in again.categories && again.categories[c] == after.categories[c]
    ensures forall c :: c in again.categories ==> c in after.categories
  {
    forall c | c in after.categories ensures c in again.categories && again.categories[c] == after.categories[c] {
      CategoryRowStays(rule, db, targets, after, again.categories, c);
    }
    forall c | c in again.categories ensures c in after.categories {
      NoCategoryIsAdded(db, targets, after, again.categories, c);
    }
  }

  // ------------------------------------------------------------------ no conflicts the second time

  /** After the migration a link's place tells its category. */
  lemma PlaceTellsCategory(rule: Rule, db: Db, targets: Targets, after: Db, a: (nat, nat), b: (nat, nat))
    requires WellFormed(db) && IsMigrated(rule, db, targets, after) && KeepsNames(rule)
    requires a.0 in after.limits && b.0 in after.limits && after.limits[a.0].space == after.limits[b.0].space
    requires PlaceOf(rule, after, targets.Keys, a) == PlaceOf(rule, after, targets.Keys, b)
    ensures a.1 == b.1
  {
    var p := PlaceOf(rule, after, targets.Keys, a);
    if p.At? {
      var s := after.limits[a.0].space;
      CandidatesAreTheTargets(rule, db, targets, after, s, p.key, a.1);
      CandidatesAreTheTargets(rule, db, targets, after, s, p.key, b.1);
    }
  }

  lemma NoConflictsAgain(rule: Rule, db: Db, targets: Targets, after: Db)
    requires WellFormed(db) && IsMigrated(rule, db, targets, after) && KeepsNames(rule)
    requires NoConflicts(rule, db, targets.Keys)
    ensures NoConflicts(rule, after, targets.Keys)
  {
    var e := targets.Keys;
    forall link | IsConcerned(after, e, link) ensures after.limits[link.0].space == after.categories[link.1].space {
      var source := ConcernedLinkHasASource(rule, db, targets, after, link);
    }
    forall a, b | IsConcerned(after, e, a) && IsConcerned(after, e, b) && a.0 == b.0 && a != b
      ensures PlaceOf(rule, after, e, b) != PlaceOf(rule, after, e, a)
    {
      if PlaceOf(rule, after, e, b) == PlaceOf(rule, after, e, a) {
        PlaceTellsCategory(rule, db, targets, after, a, b);
      }
    }
    forall a, b | && IsConcerned(after, e, a) && IsConcerned(after, e, b)
                  && after.limits[a.0].space == after.limits[b.0].space
                  && PlaceOf(rule, after, e, a) == PlaceOf(rule, after, e, b)
      ensures a.0 == b.0
    {
      PlaceTellsCategory(rule, db, targets, after, a, b);
      var source := ConcernedLinkHasASource(rule, db, targets, after, a);
      CategoriesAreInOneLimit(rule, db, targets, after, a.0, b.0, a.1);
    }
  }

  /** A second migration meets no conflict, keeps every row and leaves every table as it is. */
  lemma MigratingAgainChangesNothing(rule: Rule, db: Db, targets: Targets, after: Db, targets': Targets, again: Db)
    requires WellFormed(db) && NoConflicts(rule, db, targets.Keys) && KeepsNames(rule)
    requires IsMigrated(rule, db, targets, after)
    requires IsMigrated(rule, after, targets', again) && targets'.Keys == targets.Keys
    ensures NoConflicts(rule, after, targets.Keys)
    ensures targets' == targets
    ensures again.categories == after.categories && again.transactions == after.transactions
    ensures again.links == after.links && again.limits == after.limits
  {
    NoConflictsAgain(rule, db, targets, after);
    SameTargets(rule, db, targets, after, targets');
    forall c: nat ensures Final(rule, after, targets, c) == c {
      EveryCategoryStays(rule, db, targets, after, c);
    }
    SameTransactionsAndLinks(rule, after, targets);
    SameCategories(rule, db, targets, after, again);
  }

  lemma SameTargets(rule: Rule, db: Db, targets: Targets, after: Db, targets': Targets)
    requires WellFormed(db) && IsMigrated(rule, db, targets, after) && KeepsNames(rule)
    requires AllTargetsOk(rule, after, targets') && targets'.Keys == targets.Keys
    ensures targets' == targets
  {
    forall s | s in targets ensures targets'[s] == targets[s] {
      KeepersAreTheTargets(rule, db, targets, after, s, targets'[s]);
    }
  }
}
