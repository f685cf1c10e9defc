/** What the steps of one space's replacement leave behind, and that together they are the migration of that space. */
module CatalogReplacement {
  import opened CatalogRules
  import opened CatalogMigration
  import opened CatalogMigrationProofs

  /** One UPDATE of the transactions of a category that is being replaced. */
  function Repointed(replacement: map<nat, nat>, t: Transaction): Transaction {
    if t.category in replacement
    then t.(category := replacement[t.category], version := t.version + 1)
    else t
  }

  function Replaced(replacement: map<nat, nat>, c: nat): nat {
    if c in replacement then replacement[c] else c
  }

  /** What a space's replacement map has to be: every ordinary category that is not its entry's row. */
  ghost predicate IsReplacement(rule: Rule, db: Db, s: nat, t: map<Key, nat>, done: set<nat>,
      replacement: map<nat, nat>) {
    && (forall c :: c in replacement <==>
          c in done && Ordinary(db, {s}, c) && KeyOf(rule, db.categories[c]) in t
          && t[KeyOf(rule, db.categories[c])] != c)
    && (forall c :: c in replacement ==> replacement[c] == t[KeyOf(rule, db.categories[c])])
  }

  /** The rows of `start`, with the rows in `t` laid over them as catalog entries of the space. */
  ghost predicate Overlaid(start: map<nat, Category>, rows: map<nat, Category>, s: nat, t: map<Key, nat>) {
    && (forall key :: key in t ==> InCatalog(key) && t[key] in rows && rows[t[key]] == CatalogRow(s, IndexOf(key)))
    && (forall c :: c in start ==> c in rows && (c !in t.Values ==> rows[c] == start[c]))
    && (forall c :: c in rows ==> c in start || c in t.Values)
  }

  ghost predicate FirstKeys(k: nat, t: map<Key, nat>)
    requires k <= |CATALOG|
  {
    forall key :: key in t <==> exists j :: 0 <= j < k && KeyAt(j) == key
  }

  /** A keeper of `before`, or a row inserted with an id in [from, to). */
  ghost predicate IsChoice(rule: Rule, before: Db, s: nat, key: Key, c: nat, from: nat, to: nat) {
    IsKeeper(rule, before, s, key, c) || (IsNew(rule, before, s, key, c) && from <= c < to)
  }

  ghost predicate Choices(rule: Rule, before: Db, s: nat, t: map<Key, nat>, from: nat, to: nat) {
    && (forall key :: key in t ==> IsChoice(rule, before, s, key, t[key], from, to))
    && (forall i, j :: i in t && j in t && t[i] == t[j] ==> i == j)
  }

  /** The first k entries have their rows: keepers of `before`, or rows inserted since `start`. */
  ghost predicate Placed(rule: Rule, before: Db, start: Db, s: nat, k: nat, t: map<Key, nat>, db: Db)
    requires k <= |CATALOG|
  {
    && FindsPlaces(rule)
    && FirstKeys(k, t)
    && Choices(rule, before, s, t, start.nextId, db.nextId)
    && Overlaid(start.categories, db.categories, s, t)
    && start.nextId <= db.nextId
    && db == start.(categories := db.categories, nextId := db.nextId)
  }

  /** The space's ordinary categories are where they were, of the same kind; unused ids are unused. */
  ghost predicate Intact(before: Db, s: nat, db: Db) {
    && before.nextId <= db.nextId
    && (forall c :: c in db.categories ==> c < db.nextId)
    && (forall c :: Ordinary(before, {s}, c) ==>
          && c in db.categories && db.categories[c].kind == before.categories[c].kind
          && db.categories[c].space == s && !db.categories[c].system)
  }

  lemma EntryIsNew(rule: Rule, before: Db, s: nat, k: nat, t: map<Key, nat>, from: nat, to: nat, id: nat, key: Key)
    requires k < |CATALOG| && WellFormed(before) && before.nextId <= from <= to
    requires FirstKeys(k, t) && Choices(rule, before, s, t, from, to) && key in t
    requires IsKeeper(rule, before, s, KeyAt(k), id) || id == to
    ensures key != KeyAt(k) && t[key] != id
  {
    var j :| 0 <= j < k && KeyAt(j) == key;
    KeysAreDistinct(j, k);
    assert IsChoice(rule, before, s, key, t[key], from, to);
    if IsKeeper(rule, before, s, key, t[key]) {
      assert t[key] < before.nextId;
    }
  }

  lemma OverlayOneMore(start: map<nat, Category>, rows: map<nat, Category>, s: nat, k: nat, t: map<Key, nat>, id: nat)
    requires k < |CATALOG| && Overlaid(start, rows, s, t) && KeyAt(k) !in t && id !in t.Values
    ensures Overlaid(start, rows[id := CatalogRow(s, k)], s, t[KeyAt(k) := id])
  {
    assert InCatalog(KeyAt(k));
    IndexIsUnique(k);
    OneMoreValue(t, KeyAt(k), id);
    OverlaidRows(start, rows, s, KeyAt(k), CatalogRow(s, k), t, id);
  }

  lemma OverlaidRows(start: map<nat, Category>, rows: map<nat, Category>, s: nat, key: Key, row: Category,
      t: map<Key, nat>, id: nat)
    requires Overlaid(start, rows, s, t) && key !in t && id !in t.Values && t[key := id].Values == t.Values + {id}
    requires InCatalog(key) && row == CatalogRow(s, IndexOf(key))
    ensures Overlaid(start, rows[id := row], s, t[key := id])
  {
    var (rows', t') := (rows[id := row], t[key := id]);
    forall k | k in t' ensures InCatalog(k) && t'[k] in rows' && rows'[t'[k]] == CatalogRow(s, IndexOf(k)) {
      if k != key {
        assert t[k] in t.Values;
      }
    }
  }

  lemma OneMoreValue(t: map<Key, nat>, key: Key, id: nat)
    requires key !in t
    ensures t[key := id].Values == t.Values + {id}
  {
    var t' := t[key := id];
    forall c | c in t.Values ensures c in t'.Values {
      var k :| k in t && t[k] == c;
      assert t'[k] == c;
    }
    assert t'[key] == id && id in t'.Values;
  }

  lemma OneMoreKey(k: nat, t: map<Key, nat>, id: nat)
    requires k < |CATALOG| && FirstKeys(k, t)
    ensures FirstKeys(k + 1, t[KeyAt(k) := id])
  {
    var t' := t[KeyAt(k) := id];
    forall key | key in t' ensures exists j :: 0 <= j < k + 1 && KeyAt(j) == key {
      if key != KeyAt(k) {
        var j :| 0 <= j < k && KeyAt(j) == key;
      }
    }
  }

  lemma OneMoreChoice(rule: Rule, before: Db, s: nat, key: Key, t: map<Key, nat>, id: nat, from: nat, to: nat, to': nat)
    requires Choices(rule, before, s, t, from, to) && to <= to' && IsChoice(rule, before, s, key, id, from, to')
    requires forall other :: other in t ==> other != key && t[other] != id
    ensures Choices(rule, before, s, t[key := id], from, to')
  {
    forall other | other in t ensures IsChoice(rule, before, s, other, t[other], from, to') {
      assert IsChoice(rule, before, s, other, t[other], from, to);
    }
  }

  lemma OneMoreEntry(rule: Rule, before: Db, start: Db, s: nat, k: nat, t: map<Key, nat>, mid: Db, id: nat, db: Db)
    requires k < |CATALOG| && WellFormed(before) && before.nextId <= start.nextId
    requires Placed(rule, before, start, s, k, t, mid)
    requires IsKeeper(rule, before, s, KeyAt(k), id) || (IsNew(rule, before, s, KeyAt(k), id) && id == mid.nextId)
    requires db == mid.(categories := mid.categories[id := CatalogRow(s, k)], nextId := db.nextId)
    requires db.nextId == mid.nextId + if id == mid.nextId then 1 else 0
    ensures Placed(rule, before, start, s, k + 1, t[KeyAt(k) := id], db)
  {
    forall key | key in t ensures key != KeyAt(k) && t[key] != id {
      EntryIsNew(rule, before, s, k, t, start.nextId, mid.nextId, id, key);
    }
    OverlayOneMore(start.categories, mid.categories, s, k, t, id);
    OneMoreKey(k, t, id);
    OneMoreChoice(rule, before, s, KeyAt(k), t, id, start.nextId, mid.nextId, db.nextId);
  }

  // ------------------------------------------------------------------ the rows are the space's targets

  lemma PlacedAreTargets(rule: Rule, before: Db, start: Db, s: nat, t: map<Key, nat>, db: Db)
    requires Placed(rule, before, start, s, |CATALOG|, t, db)
    ensures TargetsOk(rule, before, s, t)
  {
    forall key: Key ensures key in t <==> InCatalog(key) {
    }
    forall key | key in t ensures IsKeeper(rule, before, s, key, t[key]) || IsNew(rule, before, s, key, t[key]) {
      assert IsChoice(rule, before, s, key, t[key], start.nextId, db.nextId);
    }
    forall c | Ordinary(before, {s}, c) ensures KeyOf(rule, before.categories[c]) in t {
      assert FindsAPlace(rule, before.categories[c]);
    }
  }

  lemma OrdinaryHasAKey(rule: Rule, before: Db, s: nat, t: map<Key, nat>, c: nat)
    requires TargetsOk(rule, before, s, t) && Ordinary(before, {s}, c)
    ensures KeyOf(rule, before.categories[c]) in t
  {
  }

  /** A row of the catalog is never one of the replaced categories, so nothing moves twice. */
  lemma TargetIsNotReplaced(rule: Rule, before: Db, s: nat, t: map<Key, nat>, done: set<nat>,
      replacement: map<nat, nat>, key: Key)
    requires WellFormed(before) && TargetsOk(rule, before, s, t)
             && IsReplacement(rule, before, s, t, done, replacement) && key in t
    ensures t[key] !in replacement
  {
    assert IsKeeper(rule, before, s, key, t[key]) || IsNew(rule, before, s, key, t[key]);
  }

  function OrdinaryOf(before: Db, s: nat): set<nat> {
    set c | c in before.categories && Ordinary(before, {s}, c)
  }

  lemma GrownReplacement(rule: Rule, before: Db, s: nat, t: map<Key, nat>, c: nat, done: set<nat>,
      replacement: map<nat, nat>, grown: map<nat, nat>)
    requires IsReplacement(rule, before, s, t, done, replacement) && Ordinary(before, {s}, c) && c !in done
    requires KeyOf(rule, before.categories[c]) in t
    requires grown == if t[KeyOf(rule, before.categories[c])] == c then replacement
                      else replacement[c := t[KeyOf(rule, before.categories[c])]]
    ensures IsReplacement(rule, before, s, t, done + {c}, grown)
  {
  }

  lemma NothingIsReplacedYet(rule: Rule, before: Db, s: nat, t: map<Key, nat>, done: set<nat>,
      replacement: map<nat, nat>, transactions: map<nat, Transaction>)
    requires done == {} && replacement == map[]
    ensures IsReplacement(rule, before, s, t, done, replacement)
    ensures Repoint(replacement, transactions) == transactions
  {
  }

  lemma AllOrdinaryDone(rule: Rule, before: Db, s: nat, t: map<Key, nat>, replacement: map<nat, nat>)
    requires IsReplacement(rule, before, s, t, OrdinaryOf(before, s), replacement)
    ensures IsReplacement(rule, before, s, t, before.categories.Keys, replacement)
  {
  }

  lemma NoTargetSoFar(rule: Rule, before: Db, s: nat, t: map<Key, nat>, done: set<nat>,
      replacement: map<nat, nat>, c: nat)
    requires WellFormed(before) && TargetsOk(rule, before, s, t)
             && IsReplacement(rule, before, s, t, done, replacement)
    requires Ordinary(before, {s}, c) && c !in done
    requires KeyOf(rule, before.categories[c]) in t && t[KeyOf(rule, before.categories[c])] != c
    ensures c !in replacement && forall d :: d in replacement ==> replacement[d] != c
  {
    forall d | d in replacement ensures replacement[d] != c {
      var key := KeyOf(rule, before.categories[d]);
      assert IsKeeper(rule, before, s, key, t[key]) || IsNew(rule, before, s, key, t[key]);
    }
  }

  function Repoint(replacement: map<nat, nat>, transactions: map<nat, Transaction>): map<nat, Transaction> {
    map x | x in transactions :: Repointed(replacement, transactions[x])
  }

  /** UPDATE transactions SET category_id = target, version = version + 1 WHERE category_id = c. */
  function UpdateCategory(transactions: map<nat, Transaction>, c: nat, target: nat): map<nat, Transaction> {
    map x | x in transactions ::
      if transactions[x].category == c
      then transactions[x].(category := target, version := transactions[x].version + 1)
      else transactions[x]
  }

  lemma OneMoreReplacement(replacement: map<nat, nat>, transactions: map<nat, Transaction>, c: nat, target: nat)
    requires c !in replacement && forall d :: d in replacement ==> replacement[d] != c
    ensures UpdateCategory(Repoint(replacement, transactions), c, target)
            == Repoint(replacement[c := target], transactions)
  {
    forall x | x in transactions
      ensures UpdateCategory(Repoint(replacement, transactions), c, target)[x]
              == Repointed(replacement[c := target], transactions[x])
    {
    }
  }

  // ------------------------------------------------------------------ links

  function Image(replacement: map<nat, nat>, current: set<nat>): set<nat> {
    set c | c in current :: Replaced(replacement, c)
  }

  /** The links of the limits of a space follow the replacement, all others stay. */
  ghost predicate LinksFollow(replacement: map<nat, nat>, limits: set<nat>, from: set<(nat, nat)>,
                              to: set<(nat, nat)>) {
    forall l :: Covered(to, l) == if l in limits then Image(replacement, Covered(from, l)) else Covered(from, l)
  }

  lemma OneMoreFollows(replacement: map<nat, nat>, limits: set<nat>, l: nat, from: set<(nat, nat)>,
      links: set<(nat, nat)>, to: set<(nat, nat)>)
    requires LinksFollow(replacement, limits, from, links) && Covered(to, l) == Image(replacement, Covered(from, l))
    requires forall m :: m != l ==> Covered(to, m) == Covered(links, m)
    ensures LinksFollow(replacement, limits + {l}, from, to)
  {
  }

  lemma CoveredTells(links: set<(nat, nat)>, l: nat, c: nat)
    ensures c in Covered(links, l) <==> (l, c) in links
  {
    if c in Covered(links, l) {
      var link :| link in links && link.0 == l && link.1 == c;
      assert link == (l, c);
    }
  }

  lemma SameCoverage(a: set<(nat, nat)>, b: set<(nat, nat)>)
    requires forall l: nat :: Covered(a, l) == Covered(b, l)
    ensures a == b
  {
    forall link: (nat, nat) ensures link in a <==> link in b {
      CoveredTells(a, link.0, link.1);
      CoveredTells(b, link.0, link.1);
      assert link == (link.0, link.1);
      assert Covered(a, link.0) == Covered(b, link.0);
    }
  }

  // ------------------------------------------------------------------ one space is done

  function LimitsOf(db: Db, s: nat): set<nat> {
    set l | l in db.limits && db.limits[l].space == s
  }

  lemma LaidRow(rule: Rule, before: Db, start: Db, s: nat, t: map<Key, nat>, mid: Db, c: nat)
    requires Placed(rule, before, start, s, |CATALOG|, t, mid) && c in t.Values
    ensures Ordinary(before, {s}, c) || start.nextId <= c < mid.nextId
  {
    var k :| k in t && t[k] == c;
    assert IsChoice(rule, before, s, k, c, start.nextId, mid.nextId);
  }

  lemma EarlierTargetRow(rule: Rule, before: Db, targets: Targets, start: Db, r: nat, key: Key, c: nat)
    requires IsMigrated(rule, before, targets, start) && IsTarget(targets, r, key, c)
    ensures InCatalog(key) && c in start.categories && start.categories[c] == CatalogRow(r, IndexOf(key))
            && c < start.nextId
    ensures c >= before.nextId || Ordinary(before, {r}, c)
  {
    TargetIsOrdinaryOrNew(rule, before, targets, r, key, c);
  }

  lemma ChosenRow(rule: Rule, before: Db, s: nat, t: map<Key, nat>, from: nat, to: nat, key: Key)
    requires Choices(rule, before, s, t, from, to) && key in t
    ensures Ordinary(before, {s}, t[key]) || from <= t[key]
  {
    assert IsChoice(rule, before, s, key, t[key], from, to);
  }

  lemma TargetsStayApart(rule: Rule, before: Db, targets: Targets, s: nat, t: map<Key, nat>, from: nat, to: nat,
      r: nat, j: Key, k: Key)
    requires WellFormed(before) && AllTargetsOk(rule, before, targets) && s !in targets
    requires Choices(rule, before, s, t, from, to) && before.nextId <= from && k in t
    requires r in targets && j in targets[r] && targets[r][j] < from
    ensures targets[r][j] != t[k]
  {
    TargetIsOrdinaryOrNew(rule, before, targets, r, j, targets[r][j]);
    ChosenRow(rule, before, s, t, from, to, k);
    RowsOfTwoSpaces(before, r, s, targets[r][j], t[k], from);
  }

  lemma RowsOfTwoSpaces(before: Db, r: nat, s: nat, c: nat, d: nat, from: nat)
    requires r != s && before.nextId <= from && c < from && forall x :: x in before.categories ==> x < before.nextId
    requires c >= before.nextId || Ordinary(before, {r}, c)
    requires from <= d || Ordinary(before, {s}, d)
    ensures c != d
  {
  }

  lemma MoreTargets(rule: Rule, before: Db, targets: Targets, start: Db, s: nat, t: map<Key, nat>, db: Db)
    requires WellFormed(before) && IsMigrated(rule, before, targets, start) && s !in targets
    requires Placed(rule, before, start, s, |CATALOG|, t, db)
    ensures AllTargetsOk(rule, before, targets[s := t])
  {
    PlacedAreTargets(rule, before, start, s, t, db);
    forall r: nat, j: Key, k: Key | r in targets && j in targets[r] && k in t ensures targets[r][j] != t[k] {
      assert IsTarget(targets, r, j, targets[r][j]);
      TargetsStayApart(rule, before, targets, s, t, start.nextId, db.nextId, r, j, k);
    }
    OneMoreSpaceOfTargets(rule, before, targets, s, t);
  }

  lemma OneMoreSpaceOfTargets(rule: Rule, before: Db, targets: Targets, s: nat, t: map<Key, nat>)
    requires AllTargetsOk(rule, before, targets) && s !in targets && TargetsOk(rule, before, s, t)
    requires forall r: nat, j: Key, k: Key :: r in targets && j in targets[r] && k in t ==> targets[r][j] != t[k]
    ensures AllTargetsOk(rule, before, targets[s := t])
  {
    var all := targets[s := t];
    forall q: nat, r: nat, j: Key, k: Key, c: nat | IsTarget(all, q, j, c) && IsTarget(all, r, k, c) ensures q == r {
      if q != s && r != s {
        assert IsTarget(targets, q, j, c) && IsTarget(targets, r, k, c);
      }
    }
  }

  lemma FinalElsewhere(rule: Rule, before: Db, targets: Targets, s: nat, t: map<Key, nat>, c: nat)
    requires s !in targets && !Ordinary(before, {s}, c)
    ensures Final(rule, before, targets[s := t], c) == Final(rule, before, targets, c)
  {
  }

  lemma FinalHere(rule: Rule, before: Db, targets: Targets, s: nat, t: map<Key, nat>, replacement: map<nat, nat>,
                  c: nat)
    requires s !in targets && TargetsOk(rule, before, s, t) && Ordinary(before, {s}, c)
    requires IsReplacement(rule, before, s, t, before.categories.Keys, replacement)
    ensures Final(rule, before, targets, c) == c
    ensures Final(rule, before, targets[s := t], c) == Replaced(replacement, c)
  {
    OrdinaryHasAKey(rule, before, s, t, c);
  }

  lemma ElsewhereIsNotReplaced(rule: Rule, before: Db, targets: Targets, s: nat, c: nat)
    requires WellFormed(before) && AllTargetsOk(rule, before, targets) && s !in targets && !Ordinary(before, {s}, c)
    ensures !Ordinary(before, {s}, Final(rule, before, targets, c))
  {
    if Ordinary(before, targets.Keys, c) {
      FinalIsATarget(rule, before, targets, c);
      var (r, key) := (before.categories[c].space, KeyOf(rule, before.categories[c]));
      TargetIsOrdinaryOrNew(rule, before, targets, r, key, Final(rule, before, targets, c));
    }
  }

  lemma OnlyOrdinaryAreReplaced(rule: Rule, before: Db, s: nat, t: map<Key, nat>, done: set<nat>,
      replacement: map<nat, nat>, c: nat)
    requires IsReplacement(rule, before, s, t, done, replacement) && c in replacement
    ensures Ordinary(before, {s}, c)
  {
  }

  /** Following the replacement after the spaces before is following all the spaces at once. */
  lemma FinalStep(rule: Rule, before: Db, targets: Targets, s: nat, t: map<Key, nat>, replacement: map<nat, nat>,
                  c: nat)
    requires WellFormed(before) && AllTargetsOk(rule, before, targets) && s !in targets && TargetsOk(rule, before, s, t)
    requires IsReplacement(rule, before, s, t, before.categories.Keys, replacement)
    ensures var f := Final(rule, before, targets, c);
            && Final(rule, before, targets[s := t], c) == Replaced(replacement, f)
            && (f in replacement ==> f == c)
  {
    var f := Final(rule, before, targets, c);
    if Ordinary(before, {s}, c) {
      FinalHere(rule, before, targets, s, t, replacement, c);
    } else {
      FinalElsewhere(rule, before, targets, s, t, c);
      ElsewhereIsNotReplaced(rule, before, targets, s, c);
      if f in replacement {
        OnlyOrdinaryAreReplaced(rule, before, s, t, before.categories.Keys, replacement, f);
      }
    }
  }

  lemma TransactionStep(rule: Rule, before: Db, targets: Targets, s: nat, t: map<Key, nat>,
      replacement: map<nat, nat>, x: Transaction)
    requires WellFormed(before) && AllTargetsOk(rule, before, targets) && s !in targets && TargetsOk(rule, before, s, t)
    requires IsReplacement(rule, before, s, t, before.categories.Keys, replacement)
    ensures Repointed(replacement, Moved(rule, before, targets, x)) == Moved(rule, before, targets[s := t], x)
  {
    FinalStep(rule, before, targets, s, t, replacement, x.category);
    ReplacedMoves(rule, before, s, t, replacement, x.category);
    MovesOnce(replacement, x, Final(rule, before, targets, x.category),
              Final(rule, before, targets[s := t], x.category));
  }

  function MovedTo(t: Transaction, target: nat): Transaction {
    if target == t.category then t else t.(category := target, version := t.version + 1)
  }

  lemma ReplacedMoves(rule: Rule, before: Db, s: nat, t: map<Key, nat>, replacement: map<nat, nat>, c: nat)
    requires IsReplacement(rule, before, s, t, before.categories.Keys, replacement)
    ensures c in replacement ==> replacement[c] != c
  {
  }

  lemma MovesOnce(replacement: map<nat, nat>, x: Transaction, first: nat, last: nat)
    requires last == Replaced(replacement, first) && (first in replacement ==> first == x.category)
    requires x.category in replacement ==> replacement[x.category] != x.category
    ensures Repointed(replacement, MovedTo(x, first)) == MovedTo(x, last)
  {
  }

  lemma RepointAll(rule: Rule, before: Db, targets: Targets, all: Targets, replacement: map<nat, nat>)
    requires forall x: Transaction ::
               Repointed(replacement, Moved(rule, before, targets, x)) == Moved(rule, before, all, x)
    ensures Repoint(replacement, MovedTransactions(rule, before, targets)) == MovedTransactions(rule, before, all)
  {
  }

  lemma TransactionsStep(rule: Rule, before: Db, targets: Targets, s: nat, t: map<Key, nat>, replacement: map<nat, nat>)
    requires WellFormed(before) && AllTargetsOk(rule, before, targets) && s !in targets && TargetsOk(rule, before, s, t)
    requires IsReplacement(rule, before, s, t, before.categories.Keys, replacement)
    ensures Repoint(replacement, MovedTransactions(rule, before, targets))
            == MovedTransactions(rule, before, targets[s := t])
  {
    forall x: Transaction
      ensures Repointed(replacement, Moved(rule, before, targets, x)) == Moved(rule, before, targets[s := t], x)
    {
      TransactionStep(rule, before, targets, s, t, replacement, x);
    }
    RepointAll(rule, before, targets, targets[s := t], replacement);
  }

  /** A link leads into the space exactly when it leads from one of its limits. */
  lemma LinkOfTheSpace(before: Db, eligible: set<nat>, s: nat, link: (nat, nat))
    requires WellFormed(before) && StaysInSpace(before, eligible) && s in eligible && link in before.links
    ensures link.0 in LimitsOf(before, s) <==> before.categories[link.1].space == s
  {
    assert (link.0, link.1) in before.links;
    if link.0 in LimitsOf(before, s) || before.categories[link.1].space == s {
      assert IsConcerned(before, eligible, link);
    }
  }

  /** The links of a space not yet replaced are still the old ones. */
  lemma LinksNotYetMoved(rule: Rule, before: Db, targets: Targets, eligible: set<nat>, s: nat, l: nat)
    requires WellFormed(before) && StaysInSpace(before, eligible) && s in eligible && s !in targets
             && l in LimitsOf(before, s)
    ensures Covered(MovedLinks(rule, before, targets), l) == Covered(before.links, l)
  {
    forall c ensures c in Covered(MovedLinks(rule, before, targets), l) <==> c in Covered(before.links, l) {
      CoveredTells(MovedLinks(rule, before, targets), l, c);
      CoveredTells(before.links, l, c);
      if (l, c) in before.links {
        LinkOfTheSpace(before, eligible, s, (l, c));
        assert ((l, c).0, Final(rule, before, targets, (l, c).1)) == (l, c);
      }
      if (l, c) in MovedLinks(rule, before, targets) {
        var link :| link in before.links && (link.0, Final(rule, before, targets, link.1)) == (l, c);
        LinkOfTheSpace(before, eligible, s, link);
      }
    }
  }

  lemma CoveredAfterMove(rule: Rule, db: Db, targets: Targets, l: nat, c: nat)
    ensures c in Covered(MovedLinks(rule, db, targets), l) <==>
            exists d :: d in Covered(db.links, l) && Final(rule, db, targets, d) == c
  {
    CoveredTells(MovedLinks(rule, db, targets), l, c);
    if (l, c) in MovedLinks(rule, db, targets) {
      var link :| link in db.links && (link.0, Final(rule, db, targets, link.1)) == (l, c);
      assert link.1 in Covered(db.links, l);
    }
    if d :| d in Covered(db.links, l) && Final(rule, db, targets, d) == c {
      CoveredTells(db.links, l, d);
      assert ((l, d).0, Final(rule, db, targets, (l, d).1)) == (l, c);
    }
  }

  lemma CoverageStep(rule: Rule, before: Db, targets: Targets, eligible: set<nat>, s: nat, t: map<Key, nat>,
      replacement: map<nat, nat>, l: nat)
    requires WellFormed(before) && AllTargetsOk(rule, before, targets) && s !in targets && TargetsOk(rule, before, s, t)
    requires IsReplacement(rule, before, s, t, before.categories.Keys, replacement)
    requires StaysInSpace(before, eligible) && s in eligible
    ensures var (from, to) := (MovedLinks(rule, before, targets), MovedLinks(rule, before, targets[s := t]));
            Covered(to, l)
            == if l in LimitsOf(before, s) then Image(replacement, Covered(from, l)) else Covered(from, l)
  {
    var (from, to) := (MovedLinks(rule, before, targets), MovedLinks(rule, before, targets[s := t]));
    forall d | d in Covered(before.links, l)
      ensures Final(rule, before, targets[s := t], d) ==
              if l in LimitsOf(before, s)
              then Replaced(replacement, Final(rule, before, targets, d))
              else Final(rule, before, targets, d)
    {
      CoveredTells(before.links, l, d);
      FinalStep(rule, before, targets, s, t, replacement, d);
      LinkOfTheSpace(before, eligible, s, (l, d));
      if l !in LimitsOf(before, s) {
        FinalElsewhere(rule, before, targets, s, t, d);
      }
    }
    CoverageFollows(rule, before, targets, targets[s := t], l in LimitsOf(before, s), replacement, l);
  }

  lemma CoverageFollows(rule: Rule, before: Db, targets: Targets, all: Targets, moves: bool,
      replacement: map<nat, nat>, l: nat)
    requires forall d :: d in Covered(before.links, l) ==>
                           Final(rule, before, all, d)
                           == if moves
                              then Replaced(replacement, Final(rule, before, targets, d))
                              else Final(rule, before, targets, d)
    ensures var (from, to) := (MovedLinks(rule, before, targets), MovedLinks(rule, before, all));
            Covered(to, l) == if moves then Image(replacement, Covered(from, l)) else Covered(from, l)
  {
    var (from, to) := (MovedLinks(rule, before, targets), MovedLinks(rule, before, all));
    var expected := if moves then Image(replacement, Covered(from, l)) else Covered(from, l);
    forall c | c in Covered(to, l) ensures c in expected {
      CoveredAfterMove(rule, before, all, l, c);
      var d :| d in Covered(before.links, l) && Final(rule, before, all, d) == c;
      CoveredAfterMove(rule, before, targets, l, Final(rule, before, targets, d));
    }
    forall c | c in expected ensures c in Covered(to, l) {
      var e :| e in Covered(from, l) && c == if moves then Replaced(replacement, e) else e;
      CoveredAfterMove(rule, before, targets, l, e);
      var d :| d in Covered(before.links, l) && Final(rule, before, targets, d) == e;
      CoveredAfterMove(rule, before, all, l, c);
    }
  }

  lemma LinksStep(rule: Rule, before: Db, targets: Targets, eligible: set<nat>, s: nat, t: map<Key, nat>,
      replacement: map<nat, nat>, links: set<(nat, nat)>)
    requires WellFormed(before) && AllTargetsOk(rule, before, targets) && s !in targets && TargetsOk(rule, before, s, t)
    requires IsReplacement(rule, before, s, t, before.categories.Keys, replacement)
    requires StaysInSpace(before, eligible) && s in eligible
    requires LinksFollow(replacement, LimitsOf(before, s), MovedLinks(rule, before, targets), links)
    ensures links == MovedLinks(rule, before, targets[s := t])
  {
    forall l: nat ensures Covered(links, l) == Covered(MovedLinks(rule, before, targets[s := t]), l) {
      CoverageStep(rule, before, targets, eligible, s, t, replacement, l);
    }
    SameCoverage(links, MovedLinks(rule, before, targets[s := t]));
  }

  /** Each row of the space that is not of the catalog goes. */
  lemma OthersAreReplaced(rule: Rule, before: Db, s: nat, t: map<Key, nat>, replacement: map<nat, nat>, c: nat)
    requires TargetsOk(rule, before, s, t) && IsReplacement(rule, before, s, t, before.categories.Keys, replacement)
    requires Ordinary(before, {s}, c) && c !in t.Values
    ensures c in replacement
  {
    OrdinaryHasAKey(rule, before, s, t, c);
    assert t[KeyOf(rule, before.categories[c])] in t.Values;
  }

  /** A row outside the space's ordinary ones is as it was. */
  lemma RowElsewhereStays(rule: Rule, before: Db, start: Db, s: nat, t: map<Key, nat>, mid: Db,
      replacement: map<nat, nat>, c: nat)
    requires Placed(rule, before, start, s, |CATALOG|, t, mid)
    requires IsReplacement(rule, before, s, t, before.categories.Keys, replacement)
    requires !Ordinary(before, {s}, c) && c < start.nextId && c in start.categories
    ensures c in mid.categories - replacement.Keys && mid.categories[c] == start.categories[c]
  {
    if c in t.Values {
      LaidRow(rule, before, start, s, t, mid, c);
    }
  }

  lemma OwnTargetRow(rule: Rule, before: Db, start: Db, s: nat, t: map<Key, nat>, mid: Db, replacement: map<nat, nat>,
      key: Key)
    requires WellFormed(before) && before.nextId <= start.nextId
    requires Placed(rule, before, start, s, |CATALOG|, t, mid) && key in t
    requires IsReplacement(rule, before, s, t, before.categories.Keys, replacement)
    ensures InCatalog(key) && t[key] in mid.categories - replacement.Keys
            && mid.categories[t[key]] == CatalogRow(s, IndexOf(key))
    ensures t[key] < mid.nextId
  {
    PlacedAreTargets(rule, before, start, s, t, mid);
    TargetIsNotReplaced(rule, before, s, t, before.categories.Keys, replacement, key);
    assert t[key] in t.Values;
    LaidRow(rule, before, start, s, t, mid, t[key]);
  }

  lemma EarlierTargetStays(rule: Rule, before: Db, targets: Targets, start: Db, s: nat, t: map<Key, nat>, mid: Db,
      replacement: map<nat, nat>, r: nat, key: Key, c: nat)
    requires WellFormed(before) && IsMigrated(rule, before, targets, start) && r != s
    requires Placed(rule, before, start, s, |CATALOG|, t, mid)
    requires IsReplacement(rule, before, s, t, before.categories.Keys, replacement)
    requires IsTarget(targets, r, key, c)
    ensures InCatalog(key) && c in mid.categories - replacement.Keys
            && mid.categories[c] == CatalogRow(r, IndexOf(key)) && c < mid.nextId
  {
    EarlierTargetRow(rule, before, targets, start, r, key, c);
    RowElsewhereStays(rule, before, start, s, t, mid, replacement, c);
  }

  lemma TargetRowsStay(rule: Rule, before: Db, targets: Targets, start: Db, s: nat, t: map<Key, nat>, mid: Db,
      replacement: map<nat, nat>, all: Targets, r: nat, key: Key, c: nat)
    requires WellFormed(before) && IsMigrated(rule, before, targets, start)
    requires Placed(rule, before, start, s, |CATALOG|, t, mid)
    requires IsReplacement(rule, before, s, t, before.categories.Keys, replacement)
    requires all == targets[s := t] && IsTarget(all, r, key, c)
    ensures InCatalog(key) && c in mid.categories - replacement.Keys
            && mid.categories[c] == CatalogRow(r, IndexOf(key)) && c < mid.nextId
  {
    if r == s {
      OwnTargetRow(rule, before, start, s, t, mid, replacement, key);
    } else {
      EarlierTargetStays(rule, before, targets, start, s, t, mid, replacement, r, key, c);
    }
  }

  lemma OtherRowsStay(rule: Rule, before: Db, targets: Targets, start: Db, s: nat, t: map<Key, nat>, mid: Db,
      replacement: map<nat, nat>, c: nat)
    requires WellFormed(before) && IsMigrated(rule, before, targets, start)
    requires Placed(rule, before, start, s, |CATALOG|, t, mid)
    requires IsReplacement(rule, before, s, t, before.categories.Keys, replacement)
    requires c in before.categories && !Ordinary(before, targets.Keys, c) && !Ordinary(before, {s}, c)
    ensures c in mid.categories - replacement.Keys && mid.categories[c] == before.categories[c]
  {
    RowElsewhereStays(rule, before, start, s, t, mid, replacement, c);
  }

  lemma EarlierRowsAreKnown(rule: Rule, before: Db, targets: Targets, start: Db, c: nat)
    requires IsMigrated(rule, before, targets, start) && c in start.categories
    ensures || (exists r: nat, key: Key :: IsTarget(targets, r, key, c))
            || (c in before.categories && !Ordinary(before, targets.Keys, c))
  {
  }

  lemma NotOrdinaryHere(rule: Rule, before: Db, start: Db, s: nat, t: map<Key, nat>, mid: Db,
      replacement: map<nat, nat>, c: nat)
    requires Placed(rule, before, start, s, |CATALOG|, t, mid)
    requires IsReplacement(rule, before, s, t, before.categories.Keys, replacement)
    requires c in mid.categories && c !in replacement && c !in t.Values
    ensures c in start.categories && !Ordinary(before, {s}, c)
  {
    PlacedAreTargets(rule, before, start, s, t, mid);
    if Ordinary(before, {s}, c) {
      OthersAreReplaced(rule, before, s, t, replacement, c);
    }
  }

  lemma RowsAreKnown(rule: Rule, before: Db, targets: Targets, start: Db, s: nat, t: map<Key, nat>, mid: Db,
      replacement: map<nat, nat>, all: Targets, c: nat)
    requires IsMigrated(rule, before, targets, start) && s !in targets
    requires Placed(rule, before, start, s, |CATALOG|, t, mid)
    requires IsReplacement(rule, before, s, t, before.categories.Keys, replacement)
    requires c in mid.categories - replacement.Keys && all == targets[s := t]
    ensures || (exists r: nat, key: Key :: IsTarget(all, r, key, c))
            || (c in before.categories && !Ordinary(before, targets.Keys, c) && !Ordinary(before, {s}, c))
  {
    if c in t.Values {
      ATargetOfTheSpace(targets, s, t, all, c);
    } else {
      NotOrdinaryHere(rule, before, start, s, t, mid, replacement, c);
      EarlierRowsAreKnown(rule, before, targets, start, c);
      if exists r: nat, key: Key :: IsTarget(targets, r, key, c) {
        EarlierTargetsAreTargets(targets, s, t, all, c);
      }
    }
  }

  lemma EarlierTargetsAreTargets(targets: Targets, s: nat, t: map<Key, nat>, all: Targets, c: nat)
    requires s !in targets && all == targets[s := t] && exists r: nat, key: Key :: IsTarget(targets, r, key, c)
    ensures exists r: nat, key: Key :: IsTarget(all, r, key, c)
  {
    var r: nat, key: Key :| IsTarget(targets, r, key, c);
    assert IsTarget(all, r, key, c);
  }

  lemma ATargetOfTheSpace(targets: Targets, s: nat, t: map<Key, nat>, all: Targets, c: nat)
    requires c in t.Values && all == targets[s := t]
    ensures exists r: nat, key: Key :: IsTarget(all, r, key, c)
  {
    var k :| k in t && t[k] == c;
    assert IsTarget(all, s, k, c);
  }

  lemma CategoriesStep(rule: Rule, before: Db, targets: Targets, start: Db, s: nat, t: map<Key, nat>, mid: Db,
      replacement: map<nat, nat>, all: Targets, rows: map<nat, Category>)
    requires WellFormed(before) && IsMigrated(rule, before, targets, start) && s !in targets
    requires Placed(rule, before, start, s, |CATALOG|, t, mid)
    requires IsReplacement(rule, before, s, t, before.categories.Keys, replacement)
    requires all == targets[s := t] && rows == mid.categories - replacement.Keys
    ensures CategoriesMigrated(before, all, rows)
  {
    AllTargetRowsStay(rule, before, targets, start, s, t, mid, replacement, all, rows);
    AllOtherRowsStay(rule, before, targets, start, s, t, mid, replacement, all, rows);
    AllRowsAreKnown(rule, before, targets, start, s, t, mid, replacement, all, rows);
  }

  lemma AllTargetRowsStay(rule: Rule, before: Db, targets: Targets, start: Db, s: nat, t: map<Key, nat>, mid: Db,
      replacement: map<nat, nat>, all: Targets, rows: map<nat, Category>)
    requires WellFormed(before) && IsMigrated(rule, before, targets, start)
    requires Placed(rule, before, start, s, |CATALOG|, t, mid)
    requires IsReplacement(rule, before, s, t, before.categories.Keys, replacement)
    requires all == targets[s := t] && rows == mid.categories - replacement.Keys
    ensures forall r: nat, key: Key, c: nat :: IsTarget(all, r, key, c) ==>
                                                 InCatalog(key) && c in rows && rows[c] == CatalogRow(r, IndexOf(key))
  {
    forall r: nat, key: Key, c: nat | IsTarget(all, r, key, c)
      ensures InCatalog(key) && c in rows && rows[c] == CatalogRow(r, IndexOf(key))
    {
      TargetRowsStay(rule, before, targets, start, s, t, mid, replacement, all, r, key, c);
    }
  }

  lemma AllOtherRowsStay(rule: Rule, before: Db, targets: Targets, start: Db, s: nat, t: map<Key, nat>, mid: Db,
      replacement: map<nat, nat>, all: Targets, rows: map<nat, Category>)
    requires WellFormed(before) && IsMigrated(rule, before, targets, start)
    requires Placed(rule, before, start, s, |CATALOG|, t, mid)
    requires IsReplacement(rule, before, s, t, before.categories.Keys, replacement)
    requires all == targets[s := t] && rows == mid.categories - replacement.Keys
    ensures forall c :: c in before.categories && !Ordinary(before, all.Keys, c) ==>
                          c in rows && rows[c] == before.categories[c]
  {
    forall c | c in before.categories && !Ordinary(before, all.Keys, c)
      ensures c in rows && rows[c] == before.categories[c]
    {
      OtherRowsStay(rule, before, targets, start, s, t, mid, replacement, c);
    }
  }

  lemma AllRowsAreKnown(rule: Rule, before: Db, targets: Targets, start: Db, s: nat, t: map<Key, nat>, mid: Db,
      replacement: map<nat, nat>, all: Targets, rows: map<nat, Category>)
    requires IsMigrated(rule, before, targets, start) && s !in targets
    requires Placed(rule, before, start, s, |CATALOG|, t, mid)
    requires IsReplacement(rule, before, s, t, before.categories.Keys, replacement)
    requires all == targets[s := t] && rows == mid.categories - replacement.Keys
    ensures forall c :: c in rows ==>
                          || (exists r: nat, key: Key :: IsTarget(all, r, key, c))
                          || (c in before.categories && !Ordinary(before, all.Keys, c))
  {
    forall c | c in rows
      ensures || (exists r: nat, key: Key :: IsTarget(all, r, key, c))
              || (c in before.categories && !Ordinary(before, all.Keys, c))
    {
      RowsAreKnown(rule, before, targets, start, s, t, mid, replacement, all, c);
    }
  }

  /** The four steps on one more space make the tables the migrated ones for one more space. */
  lemma SpaceIsDone(rule: Rule, before: Db, targets: Targets, eligible: set<nat>, start: Db, s: nat, t: map<Key, nat>,
      mid: Db, replacement: map<nat, nat>, db: Db)
    requires WellFormed(before) && StaysInSpace(before, eligible) && s in eligible && s !in targets
    requires IsMigrated(rule, before, targets, start)
    requires Placed(rule, before, start, s, |CATALOG|, t, mid)
    requires IsReplacement(rule, before, s, t, before.categories.Keys, replacement)
    requires LinksFollow(replacement, LimitsOf(before, s), mid.links, db.links)
    requires db == mid.(categories := mid.categories - replacement.Keys,
                        transactions := Repoint(replacement, mid.transactions), links := db.links)
    ensures IsMigrated(rule, before, targets[s := t], db)
  {
    PlacedAreTargets(rule, before, start, s, t, mid);
    MoreTargets(rule, before, targets, start, s, t, mid);
    var all := targets[s := t];
    CategoriesStep(rule, before, targets, start, s, t, mid, replacement, all, db.categories);
    TransactionsStep(rule, before, targets, s, t, replacement);
    LinksStep(rule, before, targets, eligible, s, t, replacement, db.links);
    forall r: nat, key: Key, c: nat | IsTarget(all, r, key, c) ensures c < db.nextId {
      TargetRowsStay(rule, before, targets, start, s, t, mid, replacement, all, r, key, c);
    }
  }

  // ------------------------------------------------------------------ the foreign keys on the way

  lemma FinalIsNotReplaced(rule: Rule, before: Db, targets: Targets, s: nat, t: map<Key, nat>,
      replacement: map<nat, nat>, c: nat)
    requires WellFormed(before) && AllTargetsOk(rule, before, targets) && s !in targets && TargetsOk(rule, before, s, t)
    requires IsReplacement(rule, before, s, t, before.categories.Keys, replacement)
    ensures Final(rule, before, targets[s := t], c) !in replacement
  {
    FinalStep(rule, before, targets, s, t, replacement, c);
    var f := Final(rule, before, targets, c);
    if f in replacement {
      TargetIsNotReplaced(rule, before, s, t, before.categories.Keys, replacement, KeyOf(rule, before.categories[f]));
    }
  }

  /** No transaction and no link refers to one of these categories: they may be deleted. */
  ghost predicate Unreferenced(db: Db, ids: set<nat>) {
    && (forall x :: x in db.transactions ==> db.transactions[x].category !in ids)
    && (forall l, c :: (l, c) in db.links ==> c !in ids)
  }

  lemma ReplacedAreUnreferenced(rule: Rule, before: Db, targets: Targets, s: nat, t: map<Key, nat>,
      replacement: map<nat, nat>, db: Db)
    requires WellFormed(before) && AllTargetsOk(rule, before, targets) && s !in targets && TargetsOk(rule, before, s, t)
    requires IsReplacement(rule, before, s, t, before.categories.Keys, replacement)
    requires db.transactions == MovedTransactions(rule, before, targets[s := t])
    requires db.links == MovedLinks(rule, before, targets[s := t])
    ensures Unreferenced(db, replacement.Keys)
  {
    forall x | x in db.transactions ensures db.transactions[x].category !in replacement.Keys {
      FinalIsNotReplaced(rule, before, targets, s, t, replacement, before.transactions[x].category);
    }
    forall l, c | (l, c) in db.links ensures c !in replacement.Keys {
      var link :| link in before.links && (link.0, Final(rule, before, targets[s := t], link.1)) == (l, c);
      FinalIsNotReplaced(rule, before, targets, s, t, replacement, link.1);
    }
  }

  /** The spaces already replaced left the ordinary categories of the others alone. */
  lemma OthersAreIntact(rule: Rule, before: Db, targets: Targets, start: Db, s: nat)
    requires WellFormed(before) && IsMigrated(rule, before, targets, start) && s !in targets
    ensures Intact(before, s, start)
  {
    forall c | c in start.categories ensures c < start.nextId {
      RowsHaveUsedIds(rule, before, targets, start, c);
    }
    forall c | Ordinary(before, {s}, c) ensures c in start.categories && start.categories[c] == before.categories[c] {
      ItsRowIsTheOld(rule, before, targets, start, s, c);
    }
    SameRowsAreIntact(before, s, start);
  }

  lemma SameRowsAreIntact(before: Db, s: nat, start: Db)
    requires before.nextId <= start.nextId && forall c :: c in start.categories ==> c < start.nextId
    requires forall c :: Ordinary(before, {s}, c) ==>
                           c in start.categories && start.categories[c] == before.categories[c]
    ensures Intact(before, s, start)
  {
  }

  lemma ItsRowIsTheOld(rule: Rule, before: Db, targets: Targets, start: Db, s: nat, c: nat)
    requires IsMigrated(rule, before, targets, start) && s !in targets && Ordinary(before, {s}, c)
    ensures c in start.categories && start.categories[c] == before.categories[c]
  {
    assert !Ordinary(before, targets.Keys, c);
  }

  lemma NothingIsMigratedYet(rule: Rule, db: Db, none: Targets)
    requires none == map[]
    ensures IsMigrated(rule, db, none, db)
  {
    forall c: nat ensures Final(rule, db, none, c) == c {
      NoSpaceNoMove(rule, db, none, c);
    }
    SameTransactionsAndLinks(rule, db, none);
    AllRowsStay(db, none);
  }

  lemma NoSpaceNoMove(rule: Rule, db: Db, none: Targets, c: nat)
    requires none == map[]
    ensures Final(rule, db, none, c) == c
  {
  }

  lemma AllRowsStay(db: Db, none: Targets)
    requires none == map[]
    ensures CategoriesMigrated(db, none, db.categories)
  {
    forall c ensures !Ordinary(db, none.Keys, c) {
    }
  }
}
