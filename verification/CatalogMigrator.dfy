/** The migration itself: space by space, statement by statement, under the tables' foreign keys. */
module CatalogMigrator {
  import opened Basics
  import opened CatalogRules
  import opened CatalogMigration
  import opened CatalogMigrationProofs
  import opened CatalogReplacement
  import opened CatalogConflicts

  class CatalogMigrator {
    var db: Db
    const norm: string -> string
    const rule: Rule := RuleOf(norm)

    constructor (norm: string -> string, db: Db)
      ensures this.norm == norm && this.db == db
    {
      this.norm, this.db := norm, db;
    }

    /** The category that keeps its id as the row of an entry, if the space has a candidate. */
    method FindKeeper(before: Db, s: nat, key: Key) returns (keeper: Option<nat>)
      ensures keeper.Some? ==> IsKeeper(rule, before, s, key, keeper.value)
      ensures keeper.None? ==> forall c :: !IsCandidate(rule, before, s, key, c)
    {
      keeper := None;
      var todo := before.categories.Keys;
      while todo != {}
        invariant todo <= before.categories.Keys
        invariant keeper.Some? ==> IsCandidate(rule, before, s, key, keeper.value)
        invariant forall c :: c !in todo && IsCandidate(rule, before, s, key, c) ==>
                                keeper.Some? && AtLeastAsGood(rule, before, keeper.value, c)
        decreases todo
      {
        var c :| c in todo;
        if IsCandidate(rule, before, s, key, c) && (keeper.None? || !AtLeastAsGood(rule, before, keeper.value, c)) {
          forall d | d !in todo && IsCandidate(rule, before, s, key, d) ensures AtLeastAsGood(rule, before, c, d) {
            BetterThanTheBest(before, keeper.value, c, d);
          }
          keeper := Some(c);
        }
        todo := todo - {c};
      }
    }

    lemma BetterThanTheBest(before: Db, best: nat, c: nat, d: nat)
      requires best in before.categories && c in before.categories && d in before.categories
      requires !AtLeastAsGood(rule, before, best, c) && AtLeastAsGood(rule, before, best, d)
      ensures AtLeastAsGood(rule, before, c, d)
    {
    }

    /** Puts the k-th entry's row in place: the keeper rewritten, or a new row. */
    method PlaceEntry(before: Db, s: nat, k: nat) returns (id: nat)
      requires k < |CATALOG| && Intact(before, s, db)
      modifies this`db
      ensures IsKeeper(rule, before, s, KeyAt(k), id) || (IsNew(rule, before, s, KeyAt(k), id) && id == old(db.nextId))
      ensures db == old(db).(categories := old(db.categories)[id := CatalogRow(s, k)], nextId := db.nextId)
      ensures db.nextId == old(db.nextId) + if id == old(db.nextId) then 1 else 0
      ensures Intact(before, s, db)
    {
      var e := CATALOG[k];
      var keeper := FindKeeper(before, s, KeyAt(k));
      if keeper.Some? {
        id := keeper.value;
        assert KeyOf(rule, before.categories[id]).kind == e.kind;
        var row := db.categories[id].(name := e.name, icon := e.icon, color := e.color, active := true,
                                      archivedAt := None, sort := SortOf(k));
        db := db.(categories := db.categories[id := row]);
      } else {
        id := db.nextId;
        var row := Category(s, e.name, e.kind, e.icon, e.color, true, None, SortOf(k), false);
        db := db.(categories := db.categories[id := row], nextId := db.nextId + 1);
      }
    }

    /** Gives every entry its row. */
    method PlaceCatalog(before: Db, s: nat) returns (t: map<Key, nat>)
      requires WellFormed(before) && Intact(before, s, db)
      modifies this`db
      ensures Placed(rule, before, old(db), s, |CATALOG|, t, db) && Intact(before, s, db)
    {
      t := map[];
      RuleFindsPlaces(norm);
      for k := 0 to |CATALOG|
        invariant Placed(rule, before, old(db), s, k, t, db) && Intact(before, s, db)
      {
        ghost var mid := db;
        var id := PlaceEntry(before, s, k);
        OneMoreEntry(rule, before, old(db), s, k, t, mid, id, db);
        t := t[KeyAt(k) := id];
      }
    }

    // ---------------------------------------------------------------- statements

    /** UPDATE transactions: the new category has to exist. */
    method UpdateTransactions(c: nat, target: nat)
      requires target in db.categories
      modifies this`db
      ensures db == old(db).(transactions := UpdateCategory(old(db.transactions), c, target))
    {
      db := db.(transactions := UpdateCategory(db.transactions, c, target));
    }

    /** INSERT INTO limit_categories: a pair is never inserted twice. */
    method InsertLink(l: nat, c: nat)
      requires l in db.limits && c in db.categories && (l, c) !in db.links
      modifies this`db
      ensures db == old(db).(links := old(db.links) + {(l, c)})
    {
      db := db.(links := db.links + {(l, c)});
    }

    /** DELETE FROM categories: refused while anything refers to one of them. */
    method DeleteCategories(ids: set<nat>)
      requires Unreferenced(db, ids)
      modifies this`db
      ensures db == old(db).(categories := old(db.categories) - ids)
    {
      db := db.(categories := db.categories - ids);
    }

    // ---------------------------------------------------------------- the steps of one space

    /** Moves the transactions of one category, unless it is its entry's row. */
    method MoveFrom(before: Db, s: nat, t: map<Key, nat>, c: nat, ghost done: set<nat>, replacement: map<nat, nat>,
        ghost from: map<nat, Transaction>)
      returns (grown: map<nat, nat>)
      requires WellFormed(before) && TargetsOk(rule, before, s, t) && forall key :: key in t ==> t[key] in db.categories
      requires IsReplacement(rule, before, s, t, done, replacement) && Ordinary(before, {s}, c) && c !in done
      requires db.transactions == Repoint(replacement, from)
      modifies this`db
      ensures db == old(db).(transactions := db.transactions)
      ensures IsReplacement(rule, before, s, t, done + {c}, grown)
      ensures db.transactions == Repoint(grown, from)
    {
      OrdinaryHasAKey(rule, before, s, t, c);
      var key := KeyOf(rule, before.categories[c]);
      grown := replacement;
      if t[key] != c {
        NoTargetSoFar(rule, before, s, t, done, replacement, c);
        grown := replacement[c := t[key]];
        UpdateTransactions(c, t[key]);
        OneMoreReplacement(replacement, from, c, t[key]);
      }
      GrownReplacement(rule, before, s, t, c, done, replacement, grown);
    }

    /** Moves the transactions of every category that is not its entry's row. */
    method MoveTransactions(before: Db, s: nat, t: map<Key, nat>) returns (replacement: map<nat, nat>)
      requires WellFormed(before) && TargetsOk(rule, before, s, t) && forall key :: key in t ==> t[key] in db.categories
      modifies this`db
      ensures IsReplacement(rule, before, s, t, before.categories.Keys, replacement)
      ensures db == old(db).(transactions := Repoint(replacement, old(db.transactions)))
    {
      replacement := map[];
      var all := OrdinaryOf(before, s);
      var todo := all;
      NothingIsReplacedYet(rule, before, s, t, all - todo, replacement, db.transactions);
      while todo != {}
        invariant todo <= all
        invariant IsReplacement(rule, before, s, t, all - todo, replacement)
        invariant db == old(db).(transactions := db.transactions)
        invariant db.transactions == Repoint(replacement, old(db.transactions))
        decreases todo
      {
        var c :| c in todo;
        OneFewerLeft(all, todo, c);
        replacement := MoveFrom(before, s, t, c, all - todo, replacement, old(db.transactions));
        todo := todo - {c};
      }
      assert all - todo == all;
      AllOrdinaryDone(rule, before, s, t, replacement);
    }

    /** Makes one limit cover what its categories became. */
    method MoveLimitLinks(l: nat, current: set<nat>, replacement: map<nat, nat>)
      requires l in db.limits && current == Covered(db.links, l)
      requires forall c :: c in replacement ==> replacement[c] in db.categories
      modifies this`db
      ensures db == old(db).(links := db.links)
      ensures Covered(db.links, l) == Image(replacement, current)
      ensures forall m :: m != l ==> Covered(db.links, m) == Covered(old(db.links), m)
    {
      var wanted := Image(replacement, current);
      var removed, added := current - wanted, wanted - current;
      var kept := set link | link in db.links && !(link.0 == l && link.1 in removed);
      assert Covered(kept, l) == current - removed;
      assert forall m :: m != l ==> Covered(kept, m) == Covered(db.links, m);
      db := db.(links := kept);
      while added != {}
        invariant added <= wanted - current
        invariant db == old(db).(links := db.links)
        invariant Covered(db.links, l) == wanted - added
        invariant forall m :: m != l ==> Covered(db.links, m) == Covered(old(db.links), m)
        decreases added
      {
        var c :| c in added;
        CoveredTells(db.links, l, c);
        ghost var links := db.links;
        InsertLink(l, c);
        CoveredGrows(links, l, c);
        added := added - {c};
      }
    }

    lemma CoveredGrows(links: set<(nat, nat)>, l: nat, c: nat)
      ensures Covered(links + {(l, c)}, l) == Covered(links, l) + {c}
      ensures forall m :: m != l ==> Covered(links + {(l, c)}, m) == Covered(links, m)
    {
      forall d ensures d in Covered(links + {(l, c)}, l) <==> d in Covered(links, l) + {c} {
        CoveredTells(links + {(l, c)}, l, d);
        CoveredTells(links, l, d);
      }
    }

    /** Makes every limit of the space cover what its categories became. */
    method MoveLinks(before: Db, s: nat, replacement: map<nat, nat>)
      requires db.limits == before.limits
      requires forall l :: l in LimitsOf(before, s) ==> Covered(db.links, l) == Covered(before.links, l)
      requires forall c :: c in replacement ==> replacement[c] in db.categories
      modifies this`db
      ensures db == old(db).(links := db.links)
      ensures LinksFollow(replacement, LimitsOf(before, s), old(db.links), db.links)
    {
      var todo := LimitsOf(before, s);
      while todo != {}
        invariant todo <= LimitsOf(before, s)
        invariant db == old(db).(links := db.links)
        invariant LinksFollow(replacement, LimitsOf(before, s) - todo, old(db.links), db.links)
        decreases todo
      {
        var l :| l in todo;
        ghost var links := db.links;
        MoveLimitLinks(l, Covered(before.links, l), replacement);
        OneFewerLeft(LimitsOf(before, s), todo, l);
        OneMoreFollows(replacement, LimitsOf(before, s) - todo, l, old(db.links), links, db.links);
        todo := todo - {l};
      }
    }

    /** Replaces the ordinary categories of one space by the catalog. */
    method ReplaceInSpace(before: Db, ghost targets: Targets, ghost eligible: set<nat>, s: nat)
      returns (t: map<Key, nat>)
      requires WellFormed(before) && StaysInSpace(before, eligible) && s in eligible && s !in targets
      requires IsMigrated(rule, before, targets, db)
      modifies this`db
      ensures IsMigrated(rule, before, targets[s := t], db)
    {
      ghost var start := db;
      OthersAreIntact(rule, before, targets, start, s);
      t := PlaceCatalog(before, s);
      ghost var mid := db;
      PlacedAreTargets(rule, before, start, s, t, mid);
      var replacement := MoveTransactions(before, s, t);
      forall l | l in LimitsOf(before, s) ensures Covered(db.links, l) == Covered(before.links, l) {
        LinksNotYetMoved(rule, before, targets, eligible, s, l);
      }
      MoveLinks(before, s, replacement);
      TransactionsStep(rule, before, targets, s, t, replacement);
      LinksStep(rule, before, targets, eligible, s, t, replacement, db.links);
      ReplacedAreUnreferenced(rule, before, targets, s, t, replacement, db);
      DeleteCategories(replacement.Keys);
      SpaceIsDone(rule, before, targets, eligible, start, s, t, mid, replacement, db);
    }

    // ---------------------------------------------------------------- the migration

    /** Reads the links that lead to or from an eligible space. */
    method ReadLinks(eligible: set<nat>) returns (links: seq<Link>)
      ensures NoRepeats(links) && forall link :: link in links <==> IsConcerned(db, eligible, link)
    {
      links := [];
      var todo := db.links;
      while todo != {}
        invariant todo <= db.links
        invariant NoRepeats(links) && forall link :: link in links <==> link !in todo && IsConcerned(db, eligible, link)
        decreases todo
      {
        var link :| link in todo;
        if IsConcerned(db, eligible, link) {
          links := links + [link];
        }
        todo := todo - {link};
      }
    }

    method ReplaceNext(before: Db, targets: Targets, ghost eligible: set<nat>, s: nat) returns (more: Targets)
      requires WellFormed(before) && StaysInSpace(before, eligible) && s in eligible && s !in targets
      requires IsMigrated(rule, before, targets, db)
      modifies this`db
      ensures more.Keys == targets.Keys + {s} && IsMigrated(rule, before, more, db)
    {
      var t := ReplaceInSpace(before, targets, eligible, s);
      more := targets[s := t];
    }

    /** Replaces the categories of one eligible space after another. */
    method ReplaceAll(eligible: set<nat>) returns (targets: Targets)
      requires WellFormed(db) && StaysInSpace(db, eligible)
      modifies this`db
      ensures targets.Keys == eligible && IsMigrated(rule, old(db), targets, db)
    {
      targets := map[];
      var before := db;
      NothingIsMigratedYet(rule, before, targets);
      var todo := eligible;
      while todo != {}
        invariant todo <= eligible && targets.Keys == eligible - todo
        invariant IsMigrated(rule, before, targets, db)
        decreases todo
      {
        var s :| s in todo;
        OneFewerLeft(eligible, todo, s);
        targets := ReplaceNext(before, targets, eligible, s);
        todo := todo - {s};
      }
    }

    method FindConflicts(eligible: set<nat>) returns (conflicts: seq<Conflict>)
      requires WellFormed(db)
      ensures conflicts == [] <==> NoConflicts(rule, db, eligible)
    {
      var links := ReadLinks(eligible);
      var search := new ConflictSearch(rule, db, eligible, links);
      conflicts := search.Find();
    }

    lemma NothingConflicts(before: Db)
      ensures NoConflicts(rule, before, {})
    {
    }

    /** Runs exactly when no limit would be merged, collapsed or moved; otherwise nothing is written. */
    method Up(eligible: set<nat>) returns (ok: bool, targets: Targets)
      requires WellFormed(db)
      modifies this`db
      ensures ok <==> NoConflicts(rule, old(db), eligible)
      ensures !ok ==> db == old(db)
      ensures ok ==> targets.Keys == eligible && IsMigrated(rule, old(db), targets, db)
    {
      if eligible == {} {
        targets := map[];
        NothingConflicts(db);
        NothingIsMigratedYet(rule, db, targets);
        return true, targets;
      }
      var conflicts := FindConflicts(eligible);
      ok, targets := conflicts == [], map[];
      if ok {
        targets := ReplaceAll(eligible);
      }
    }
  }
}
