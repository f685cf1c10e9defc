/** What the migration means for one category, in terms of its own fields and the catalog's tables. */
module CatalogOutcome {
  import opened Basics
  import opened CatalogRules
  import opened CatalogMigration
  import opened CatalogMigrationProofs

  /** A category of one of the spaces, other than the system's. */
  ghost predicate IsReplaceable(db: Db, targets: Targets, c: nat) {
    c in db.categories && db.categories[c].space in targets && !db.categories[c].system
  }

  /** The row is an entry of the catalog as a new space has it. */
  ghost predicate IsEntryRow(y: Category, name: string) {
    && y.name == name && y.active && y.archivedAt.None? && !y.system
    && exists k :: 0 <= k < |CATALOG| && CATALOG[k] == CatalogEntry(y.kind, y.name, y.icon, y.color)
                   && y.sort == if k < 4 then 101 + k else 201 + (k - 4)
  }

  /** A name the rule knows, whatever the icon: only such a category may keep its id. */
  ghost predicate IsKnown(norm: string -> string, x: Category) {
    IsEntryName(norm, x.kind, x.name) || IsRename(norm, x.kind, x.name)
  }

  function EntryOf(norm: string -> string, x: Category): string {
    MapCategory(norm, x.kind, x.name, x.icon).target
  }

  /** Both may keep their id as the row of one entry. */
  ghost predicate Competes(norm: string -> string, x: Category, y: Category) {
    && y.space == x.space && y.kind == x.kind && !y.system && EntryOf(norm, y) == EntryOf(norm, x)
    && IsKnown(norm, x) && IsKnown(norm, y)
  }

  /** An entry's own name before a rename, then an active row before an archived one, then the older row. */
  ghost predicate Beats(norm: string -> string, x: Category, c: nat, y: Category, d: nat) {
    var (named, other) := (IsEntryName(norm, x.kind, x.name), IsEntryName(norm, y.kind, y.name));
    (named && !other) || (named == other && ((x.active && !y.active) || (x.active == y.active && c < d)))
  }

  ghost predicate IsUnbeaten(norm: string -> string, db: Db, c: nat)
    requires c in db.categories
  {
    forall d :: d in db.categories && d != c && Competes(norm, db.categories[c], db.categories[d]) ==>
                  Beats(norm, db.categories[c], c, db.categories[d], d)
  }

  lemma CatalogRowIsEntryRow(space: nat, k: nat)
    requires k < |CATALOG|
    ensures IsEntryRow(CatalogRow(space, k), CATALOG[k].name)
  {
    SortHasNoGaps(k);
    var (e, y) := (CATALOG[k], CatalogRow(space, k));
    assert CATALOG[k] == CatalogEntry(y.kind, y.name, y.icon, y.color);
  }

  lemma RankTellsTheName(norm: string -> string, x: Category)
    ensures IsEntryName(norm, x.kind, x.name) <==> MapOf(RuleOf(norm), x).rank == 0
    ensures IsKnown(norm, x) <==> MapOf(RuleOf(norm), x).rank < 2
  {
    NamesDecideBeforeIcons(norm, x.kind, x.name, x.icon);
  }

  lemma StaysExactlyAsATarget(rule: Rule, db: Db, targets: Targets, after: Db, c: nat)
    requires WellFormed(db) && IsMigrated(rule, db, targets, after) && IsReplaceable(db, targets, c)
    ensures c in after.categories <==> Final(rule, db, targets, c) == c
  {
    var s := db.categories[c].space;
    if Final(rule, db, targets, c) == c {
      FinalIsATarget(rule, db, targets, c);
      RowOfTarget(rule, db, targets, after, s, KeyOf(rule, db.categories[c]), c);
    } else if c in after.categories {
      var r, key := ReplaceableThatStays(db, targets, after, c);
      TargetIsOrdinaryOrNew(rule, db, targets, r, key, c);
    }
  }

  lemma ReplaceableThatStays(db: Db, targets: Targets, after: Db, c: nat) returns (r: nat, key: Key)
    requires CategoriesMigrated(db, targets, after.categories) && IsReplaceable(db, targets, c)
    requires c in after.categories
    ensures IsTarget(targets, r, key, c)
  {
    assert Ordinary(db, targets.Keys, c);
    r, key :| IsTarget(targets, r, key, c);
  }

  lemma TargetExactlyAsKeeper(rule: Rule, db: Db, targets: Targets, c: nat)
    requires WellFormed(db) && AllTargetsOk(rule, db, targets) && IsReplaceable(db, targets, c)
    ensures Final(rule, db, targets, c) == c <==>
              IsKeeper(rule, db, db.categories[c].space, KeyOf(rule, db.categories[c]), c)
  {
    var (s, key) := (db.categories[c].space, KeyOf(rule, db.categories[c]));
    FinalIsATarget(rule, db, targets, c);
    var f := Final(rule, db, targets, c);
    assert TargetsOk(rule, db, s, targets[s]);
    assert IsKeeper(rule, db, s, key, f) || IsNew(rule, db, s, key, f);
    if IsKeeper(rule, db, s, key, c) && IsKeeper(rule, db, s, key, f) {
      assert AtLeastAsGood(rule, db, c, f) && AtLeastAsGood(rule, db, f, c);
    }
  }

  lemma CompetitorsAreCandidates(norm: string -> string, db: Db, c: nat, d: nat)
    requires c in db.categories && d in db.categories && c != d && !db.categories[c].system
    requires IsKnown(norm, db.categories[c])
    ensures IsCandidate(RuleOf(norm), db, db.categories[c].space, KeyOf(RuleOf(norm), db.categories[c]), d) <==>
              Competes(norm, db.categories[c], db.categories[d])
    ensures Competes(norm, db.categories[c], db.categories[d]) ==>
              (AtLeastAsGood(RuleOf(norm), db, c, d) <==> Beats(norm, db.categories[c], c, db.categories[d], d))
  {
    RankTellsTheName(norm, db.categories[c]);
    RankTellsTheName(norm, db.categories[d]);
  }

  lemma KeeperExactlyAsBest(norm: string -> string, db: Db, c: nat)
    requires c in db.categories && !db.categories[c].system
    ensures IsKeeper(RuleOf(norm), db, db.categories[c].space, KeyOf(RuleOf(norm), db.categories[c]), c) <==>
              IsKnown(norm, db.categories[c]) && IsUnbeaten(norm, db, c)
  {
    var (rule, s) := (RuleOf(norm), db.categories[c].space);
    var key := KeyOf(rule, db.categories[c]);
    RankTellsTheName(norm, db.categories[c]);
    if IsKnown(norm, db.categories[c]) {
      forall d | d in db.categories && d != c
        ensures IsCandidate(rule, db, s, key, d) <==> Competes(norm, db.categories[c], db.categories[d])
        ensures Competes(norm, db.categories[c], db.categories[d]) ==>
                  (AtLeastAsGood(rule, db, c, d) <==> Beats(norm, db.categories[c], c, db.categories[d], d))
      {
        CompetitorsAreCandidates(norm, db, c, d);
      }
    }
  }

  /** What was booked under a category is afterwards under the entry its name or icon leads to. */
  lemma CategoriesBecomeTheirEntries(norm: string -> string, db: Db, targets: Targets, after: Db, c: nat)
    requires IsMigrated(RuleOf(norm), db, targets, after) && IsReplaceable(db, targets, c)
    ensures var (x, f) := (db.categories[c], Final(RuleOf(norm), db, targets, c));
            && f in after.categories && IsEntryRow(after.categories[f], EntryOf(norm, x))
            && after.categories[f].space == x.space && after.categories[f].kind == x.kind
            && (IsRename(norm, x.kind, x.name) ==> after.categories[f].name == NameAliases(x.kind)[norm(x.name)])
  {
    var rule := RuleOf(norm);
    FinalIsATarget(rule, db, targets, c);
    var (key, x) := (KeyOf(rule, db.categories[c]), db.categories[c]);
    RowOfTarget(rule, db, targets, after, x.space, key, Final(rule, db, targets, c));
    CatalogRowIsEntryRow(x.space, IndexOf(key));
    NamesDecideBeforeIcons(norm, x.kind, x.name, x.icon);
  }

  lemma TransactionsLandOnTheirEntry(norm: string -> string, db: Db, targets: Targets, after: Db, t: nat)
    requires WellFormed(db) && IsMigrated(RuleOf(norm), db, targets, after) && t in db.transactions
    ensures t in after.transactions && after.transactions[t].category in after.categories
    ensures var (c, f) := (db.transactions[t].category, after.transactions[t].category);
            var (x, y) := (db.categories[c], after.categories[f]);
            && (!IsReplaceable(db, targets, c) ==> after.transactions[t] == db.transactions[t] && y == x)
            && (IsReplaceable(db, targets, c) ==>
                  IsEntryRow(y, EntryOf(norm, x)) && y.space == x.space && y.kind == x.kind)
            && (IsReplaceable(db, targets, c) && IsRename(norm, x.kind, x.name) ==>
                  y.name == NameAliases(x.kind)[norm(x.name)])
  {
    var c := db.transactions[t].category;
    TransactionsOnlyChangeCategory(RuleOf(norm), db, targets, after, t);
    if IsReplaceable(db, targets, c) {
      CategoriesBecomeTheirEntries(norm, db, targets, after, c);
    }
  }

  /** Which categories keep their ids: a row stays exactly when its name is known and no other such row beats it. */
  lemma TheBestKeepsItsId(norm: string -> string, db: Db, targets: Targets, after: Db, c: nat)
    requires WellFormed(db) && IsMigrated(RuleOf(norm), db, targets, after) && IsReplaceable(db, targets, c)
    ensures c in after.categories <==>
              IsKnown(norm, db.categories[c]) && IsUnbeaten(norm, db, c)
    ensures c in after.categories <==> Final(RuleOf(norm), db, targets, c) == c
  {
    StaysExactlyAsATarget(RuleOf(norm), db, targets, after, c);
    TargetExactlyAsKeeper(RuleOf(norm), db, targets, c);
    KeeperExactlyAsBest(norm, db, c);
  }

  lemma WhatStaysKeepsItsReferences(rule: Rule, db: Db, targets: Targets, after: Db, c: nat)
    requires IsMigrated(rule, db, targets, after) && Final(rule, db, targets, c) == c
    ensures forall t :: t in db.transactions && db.transactions[t].category == c ==>
                          t in after.transactions && after.transactions[t] == db.transactions[t]
    ensures forall l :: (l, c) in db.links ==> (l, c) in after.links
  {
    forall l | (l, c) in db.links ensures (l, c) in after.links {
      LinksEndUpCovered(rule, db, targets, after, (l, c));
    }
  }

  /** A rename that is the only one of its space for an entry stays in place, with all that refers to it. */
  lemma LoneRenameKeepsItsId(norm: string -> string, db: Db, targets: Targets, after: Db, c: nat)
    requires WellFormed(db) && IsMigrated(RuleOf(norm), db, targets, after) && IsReplaceable(db, targets, c)
    requires IsRename(norm, db.categories[c].kind, db.categories[c].name)
    requires forall d :: d in db.categories && d != c ==> !Competes(norm, db.categories[c], db.categories[d])
    ensures c in after.categories
    ensures after.categories[c].name == NameAliases(db.categories[c].kind)[norm(db.categories[c].name)]
    ensures forall t :: t in db.transactions && db.transactions[t].category == c ==>
                          t in after.transactions && after.transactions[t] == db.transactions[t]
    ensures forall l :: (l, c) in db.links ==> (l, c) in after.links
  {
    TheBestKeepsItsId(norm, db, targets, after, c);
    WhatStaysKeepsItsReferences(RuleOf(norm), db, targets, after, c);
    CategoriesBecomeTheirEntries(norm, db, targets, after, c);
  }

  // ------------------------------------------------------------------ what is refused

  /** No limit of one space covers a category of another where one of the two is replaced. */
  ghost predicate NoneCrosses(db: Db, spaces: set<nat>)
    requires WellFormed(db)
  {
    forall l, c :: (l, c) in db.links && (db.limits[l].space in spaces || db.categories[c].space in spaces) ==>
                     db.limits[l].space == db.categories[c].space
  }

  ghost predicate GroupsStayGroups(rule: Rule, db: Db, targets: Targets) {
    forall l :: l in db.limits && db.limits[l].space in targets && |Covered(db.links, l)| >= 2 ==>
                  |Covered(MovedLinks(rule, db, targets), l)| >= 2
  }

  /** No category is going to be in two limits of a replaced space. */
  ghost predicate NoneMeet(rule: Rule, db: Db, targets: Targets)
    requires WellFormed(db)
  {
    forall l, m, c, d | (l, c) in db.links && (m, d) in db.links ::
      && db.limits[l].space in targets && db.limits[m].space == db.limits[l].space
      && Final(rule, db, targets, c) == Final(rule, db, targets, d)
      ==> l == m
  }

  lemma GroupSeparates(rule: Rule, db: Db, targets: Targets, a: (nat, nat), b: (nat, nat)) returns (d: (nat, nat))
    requires WellFormed(db) && AllTargetsOk(rule, db, targets) && GroupsStayGroups(rule, db, targets)
    requires StaysInSpace(db, targets.Keys)
    requires IsConcerned(db, targets.Keys, a) && IsConcerned(db, targets.Keys, b) && a.0 == b.0 && a != b
    ensures IsConcerned(db, targets.Keys, d) && d.0 == a.0
    ensures PlaceOf(rule, db, targets.Keys, d) != PlaceOf(rule, db, targets.Keys, a)
  {
    var (l, moved) := (a.0, MovedLinks(rule, db, targets));
    assert a.1 in Covered(db.links, l) && b.1 in Covered(db.links, l);
    OneElement(Covered(db.links, l), a.1);
    assert |Covered(moved, l)| >= 2;
    LinksEndUpCovered(rule, db, targets, db.(links := moved), a);
    OneElement(Covered(moved, l), Final(rule, db, targets, a.1));
    var g :| g in Covered(moved, l) - {Final(rule, db, targets, a.1)};
    d :| d in db.links && (d.0, Final(rule, db, targets, d.1)) == (l, g);
    PlacesBecomeCategories(rule, db, targets, d, a);
  }

  lemma NothingSharedThenNoneMeet(rule: Rule, db: Db, targets: Targets)
    requires WellFormed(db) && AllTargetsOk(rule, db, targets) && StaysInSpace(db, targets.Keys)
    requires NoneShared(rule, db, targets.Keys)
    ensures NoneMeet(rule, db, targets)
  {
    forall l, m, c, d | && (l, c) in db.links && (m, d) in db.links
                        && db.limits[l].space in targets && db.limits[m].space == db.limits[l].space
                        && Final(rule, db, targets, c) == Final(rule, db, targets, d)
      ensures l == m
    {
      var (a, b) := ((l, c), (m, d));
      assert IsConcerned(db, targets.Keys, a) && IsConcerned(db, targets.Keys, b);
      PlacesBecomeCategories(rule, db, targets, a, b);
      assert PlaceOf(rule, db, targets.Keys, a) == PlaceOf(rule, db, targets.Keys, b);
    }
  }

  lemma NoneMeetThenNothingShared(rule: Rule, db: Db, targets: Targets)
    requires WellFormed(db) && AllTargetsOk(rule, db, targets) && StaysInSpace(db, targets.Keys)
    requires NoneMeet(rule, db, targets)
    ensures NoneShared(rule, db, targets.Keys)
  {
    forall a, b | && IsConcerned(db, targets.Keys, a) && IsConcerned(db, targets.Keys, b)
                  && db.limits[a.0].space == db.limits[b.0].space
                  && PlaceOf(rule, db, targets.Keys, a) == PlaceOf(rule, db, targets.Keys, b)
      ensures a.0 == b.0
    {
      PlacesBecomeCategories(rule, db, targets, a, b);
      assert (a.0, a.1) in db.links && (b.0, b.1) in db.links;
    }
  }

  lemma NothingCollapsesExactlyWhenGroupsStay(rule: Rule, db: Db, targets: Targets)
    requires WellFormed(db) && AllTargetsOk(rule, db, targets) && StaysInSpace(db, targets.Keys)
    ensures NoneCollapses(rule, db, targets.Keys) <==> GroupsStayGroups(rule, db, targets)
  {
    if GroupsStayGroups(rule, db, targets) {
      forall a, b | IsConcerned(db, targets.Keys, a) && IsConcerned(db, targets.Keys, b) && a.0 == b.0 && a != b
        ensures exists d :: IsConcerned(db, targets.Keys, d) && d.0 == a.0 &&
                            PlaceOf(rule, db, targets.Keys, d) != PlaceOf(rule, db, targets.Keys, a)
      {
        var d := GroupSeparates(rule, db, targets, a, b);
      }
    }
    if NoneCollapses(rule, db, targets.Keys) {
      forall l | l in db.limits && db.limits[l].space in targets && |Covered(db.links, l)| >= 2
        ensures |Covered(MovedLinks(rule, db, targets), l)| >= 2
      {
        var c, d := GroupHasTwo(db.links, l);
        var e := GroupHasAnotherPlace(rule, db, targets.Keys, l, c, d);
        PlacesBecomeCategories(rule, db, targets, e, (l, c));
        var after := db.(links := MovedLinks(rule, db, targets));
        LinksEndUpCovered(rule, db, targets, after, e);
        LinksEndUpCovered(rule, db, targets, after, (l, c));
        OneElement(Covered(after.links, l), Final(rule, db, targets, c));
      }
    }
  }

  /**
   The migration refuses exactly when a limit crosses spaces, a limit over several categories would be left with
   one, or two limits of a space would share one.
   */
  lemma RefusedExactlyWhenLimitsWouldChange(rule: Rule, db: Db, targets: Targets)
    requires WellFormed(db) && AllTargetsOk(rule, db, targets)
    ensures NoConflicts(rule, db, targets.Keys) <==>
              NoneCrosses(db, targets.Keys) && GroupsStayGroups(rule, db, targets) && NoneMeet(rule, db, targets)
  {
    assert NoneCrosses(db, targets.Keys) <==> StaysInSpace(db, targets.Keys) by {
      if StaysInSpace(db, targets.Keys) {
        forall l, c | (l, c) in db.links && (db.limits[l].space in targets || db.categories[c].space in targets)
          ensures db.limits[l].space == db.categories[c].space
        {
          assert IsConcerned(db, targets.Keys, (l, c));
        }
      }
    }
    if StaysInSpace(db, targets.Keys) {
      if NoneMeet(rule, db, targets) {
        NoneMeetThenNothingShared(rule, db, targets);
      }
      if NoneShared(rule, db, targets.Keys) {
        NothingSharedThenNoneMeet(rule, db, targets);
      }
      NothingCollapsesExactlyWhenGroupsStay(rule, db, targets);
    }
  }
}
