/**
 What replacing every ordinary category of the eligible spaces by the catalog means for the tables.

 `Targets` names, for each space already replaced, the row that stands for each catalog entry: the
 best category already there, or a new row.
 */
module CatalogMigration {
  import opened Basics
  import opened CatalogRules

  datatype Category = Category(
    space: nat,
    name: string,
    kind: Kind,
    icon: string,
    color: string,
    active: bool,
    archivedAt: Option<int>,
    sort: nat,
    system: bool)

  datatype Transaction = Transaction(category: nat, kind: Kind, amount: int, wallet: nat, version: nat)

  datatype Limit = Limit(space: nat, name: Option<string>)

  /** `links` pairs a limit with each category it covers. */
  datatype Db = Db(
    categories: map<nat, Category>,
    transactions: map<nat, Transaction>,
    limits: map<nat, Limit>,
    links: set<(nat, nat)>,
    nextId: nat)

  type Targets = map<nat, map<Key, nat>>

  /** The foreign keys hold, and ids still to be given are unused. */
  ghost predicate WellFormed(db: Db) {
    && (forall c :: c in db.categories ==> c < db.nextId)
    && (forall t :: t in db.transactions ==> db.transactions[t].category in db.categories)
    && (forall l, c :: (l, c) in db.links ==> l in db.limits && c in db.categories)
  }

  // ------------------------------------------------------------------ where a category goes

  /** The rule gives the category an entry of its own type. */
  ghost predicate FindsAPlace(rule: Category -> Mapping, c: Category) {
    InCatalog(Key(c.kind, rule(c).target))
  }

  /** How categories are mapped. */
  type Rule = Category -> Mapping

  /** All that the rewriting relies on: each category has a place. */
  ghost predicate FindsPlaces(rule: Rule) {
    forall c: Category :: FindsAPlace(rule, c)
  }

  /** The rule of the code, for a normalization of names. */
  function RuleOf(norm: string -> string): Rule {
    (c: Category) => MapCategory(norm, c.kind, c.name, c.icon)
  }

  lemma RuleFindsPlaces(norm: string -> string)
    ensures FindsPlaces(RuleOf(norm))
  {
    forall c: Category ensures FindsAPlace(RuleOf(norm), c) {
      EveryCategoryHasAPlace(norm, c.kind, c.name, c.icon);
    }
  }

  function MapOf(rule: Rule, c: Category): Mapping {
    rule(c)
  }

  function KeyOf(rule: Rule, c: Category): Key {
    Key(c.kind, MapOf(rule, c).target)
  }

  /** A category the migration replaces, when its space is one of `spaces`. */
  predicate Ordinary(db: Db, spaces: set<nat>, c: nat) {
    c in db.categories && !db.categories[c].system && db.categories[c].space in spaces
  }

  /** A category that may keep its id as the row of `key`. */
  predicate IsCandidate(rule: Rule, db: Db, space: nat, key: Key, c: nat) {
    Ordinary(db, {space}, c) && KeyOf(rule, db.categories[c]) == key && MapOf(rule, db.categories[c]).rank < 2
  }

  /** Same name before known rename, active before archived, then the older row. */
  predicate AtLeastAsGood(rule: Rule, db: Db, c: nat, d: nat)
    requires c in db.categories && d in db.categories
  {
    var (x, y) := (db.categories[c], db.categories[d]);
    var (i, j) := (MapOf(rule, x).rank, MapOf(rule, y).rank);
    i < j || (i == j && ((x.active && !y.active) || (x.active == y.active && c <= d)))
  }

  ghost predicate IsKeeper(rule: Rule, db: Db, space: nat, key: Key, c: nat) {
    && IsCandidate(rule, db, space, key, c)
    && (forall d :: IsCandidate(rule, db, space, key, d) ==> AtLeastAsGood(rule, db, c, d))
  }

  ghost predicate IsNew(rule: Rule, db: Db, space: nat, key: Key, c: nat) {
    c >= db.nextId && forall d :: !IsCandidate(rule, db, space, key, d)
  }

  /**
   The rows of one space's catalog: one for each entry, the keeper where there is a candidate; every
   category has one to go to.
   */
  ghost predicate TargetsOk(rule: Rule, db: Db, space: nat, t: map<Key, nat>) {
    && (forall key :: key in t <==> InCatalog(key))
    && (forall key :: key in t ==> IsKeeper(rule, db, space, key, t[key]) || IsNew(rule, db, space, key, t[key]))
    && (forall j, k :: j in t && k in t && t[j] == t[k] ==> j == k)
    && (forall c :: Ordinary(db, {space}, c) ==> KeyOf(rule, db.categories[c]) in t)
  }

  ghost predicate IsTarget(targets: Targets, s: nat, key: Key, c: nat) {
    s in targets && key in targets[s] && targets[s][key] == c
  }

  ghost predicate AllTargetsOk(rule: Rule, db: Db, targets: Targets) {
    && (forall s :: s in targets ==> TargetsOk(rule, db, s, targets[s]))
    && (forall r, s, j, k, c :: IsTarget(targets, r, j, c) && IsTarget(targets, s, k, c) ==> r == s)
  }

  /** Where a category ends up: its space's row for the entry it maps to, or where it is. */
  function Final(rule: Rule, db: Db, targets: Targets, c: nat): nat {
    if Ordinary(db, targets.Keys, c) && KeyOf(rule, db.categories[c]) in targets[db.categories[c].space]
    then targets[db.categories[c].space][KeyOf(rule, db.categories[c])]
    else c
  }

  ghost function IndexOf(key: Key): (k: nat)
    requires InCatalog(key)
    ensures k < |CATALOG| && KeyAt(k) == key
  {
    var k :| 0 <= k < |CATALOG| && KeyAt(k) == key;
    k
  }

  function CatalogRow(space: nat, k: nat): Category
    requires k < |CATALOG|
  {
    var e := CATALOG[k];
    Category(space, e.name, e.kind, e.icon, e.color, true, None, SortOf(k), false)
  }

  ghost predicate KeepsName(rule: Rule, space: nat, k: nat)
    requires k < |CATALOG|
  {
    rule(CatalogRow(space, k)) == Mapping(CATALOG[k].name, 0)
  }

  /** A category named as the catalog names it stays where it is. */
  ghost predicate KeepsNames(rule: Rule) {
    forall space: nat, k: nat :: k < |CATALOG| ==> KeepsName(rule, space, k)
  }

  /** The code's rule does that when its normalization keeps the catalog's names apart. */
  lemma RuleKeepsNames(norm: string -> string)
    requires KeepsCatalogApart(norm)
    ensures KeepsNames(RuleOf(norm))
  {
    forall space: nat, k: nat | k < |CATALOG| ensures KeepsName(RuleOf(norm), space, k) {
      CatalogNamesMapToThemselves(norm, k, CATALOG[k].icon);
    }
  }

  // ------------------------------------------------------------------ the tables afterwards

  function Moved(rule: Rule, db: Db, targets: Targets, t: Transaction): Transaction {
    var target := Final(rule, db, targets, t.category);
    if target == t.category then t else t.(category := target, version := t.version + 1)
  }

  ghost predicate CategoriesMigrated(db: Db, targets: Targets, rows: map<nat, Category>) {
    && (forall s: nat, key: Key, c: nat :: IsTarget(targets, s, key, c) ==>
                                             InCatalog(key) && c in rows && rows[c] == CatalogRow(s, IndexOf(key)))
    && (forall c :: c in rows ==>
                      || (exists s: nat, key: Key :: IsTarget(targets, s, key, c))
                      || (c in db.categories && !Ordinary(db, targets.Keys, c) && rows[c] == db.categories[c]))
    && (forall c :: c in db.categories && !Ordinary(db, targets.Keys, c) ==> c in rows && rows[c] == db.categories[c])
  }

  function MovedTransactions(rule: Rule, db: Db, targets: Targets): map<nat, Transaction> {
    map t | t in db.transactions :: Moved(rule, db, targets, db.transactions[t])
  }

  function MovedLinks(rule: Rule, db: Db, targets: Targets): set<(nat, nat)> {
    set link | link in db.links :: (link.0, Final(rule, db, targets, link.1))
  }

  ghost predicate IsMigrated(rule: Rule, db: Db, targets: Targets, after: Db) {
    && AllTargetsOk(rule, db, targets)
    && CategoriesMigrated(db, targets, after.categories)
    && after.transactions == MovedTransactions(rule, db, targets)
    && after.links == MovedLinks(rule, db, targets)
    && after.limits == db.limits
    && db.nextId <= after.nextId
    && (forall s: nat, key: Key, c: nat :: IsTarget(targets, s, key, c) ==> c < after.nextId)
  }

  // ------------------------------------------------------------------ what stops it

  datatype Place = At(key: Key) | Own(id: nat)

  /** What a link will cover: a catalog entry, or its own category when that is not replaced. */
  function PlaceOf(rule: Rule, db: Db, eligible: set<nat>, link: (nat, nat)): Place
    requires link.0 in db.limits
  {
    if Ordinary(db, eligible, link.1) && db.categories[link.1].space == db.limits[link.0].space
    then At(KeyOf(rule, db.categories[link.1]))
    else Own(link.1)
  }

  /** The links the migration looks at: the limit or the category is of an eligible space. */
  predicate IsConcerned(db: Db, eligible: set<nat>, link: (nat, nat)) {
    && link in db.links && link.0 in db.limits && link.1 in db.categories
    && (db.limits[link.0].space in eligible || db.categories[link.1].space in eligible)
  }

  ghost predicate StaysInSpace(db: Db, eligible: set<nat>) {
    forall link :: IsConcerned(db, eligible, link) ==> db.limits[link.0].space == db.categories[link.1].space
  }

  /** A limit over several categories still covers several places. */
  ghost predicate NoneCollapses(rule: Rule, db: Db, eligible: set<nat>) {
    forall a, b :: IsConcerned(db, eligible, a) && IsConcerned(db, eligible, b) && a.0 == b.0 && a != b ==>
                     exists d :: IsConcerned(db, eligible, d) && d.0 == a.0 &&
                                 PlaceOf(rule, db, eligible, d) != PlaceOf(rule, db, eligible, a)
  }

  /** No two limits of a space claim one place. */
  ghost predicate NoneShared(rule: Rule, db: Db, eligible: set<nat>) {
    forall a, b | IsConcerned(db, eligible, a) && IsConcerned(db, eligible, b) ::
      && db.limits[a.0].space == db.limits[b.0].space
      && PlaceOf(rule, db, eligible, a) == PlaceOf(rule, db, eligible, b)
      ==> a.0 == b.0
  }

  ghost predicate NoConflicts(rule: Rule, db: Db, eligible: set<nat>) {
    StaysInSpace(db, eligible) && NoneCollapses(rule, db, eligible) && NoneShared(rule, db, eligible)
  }
}
