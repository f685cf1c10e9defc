/** The search for limits that the migration would merge or collapse, made before anything is written. */
module CatalogConflicts {
  import opened Basics
  import opened CatalogMigration

  type Link = (nat, nat)

  datatype Conflict =
    | Foreign(limit: nat, category: nat)
    | Collapses(limit: nat, place: Place)
    | Shared(space: nat, place: Place, limits: set<nat>)

  /** The links of one limit, in their order. */
  function OfLimit(links: seq<Link>, l: nat): (own: seq<Link>)
    ensures forall link :: link in own <==> link in links && link.0 == l
  {
    if links == [] then []
    else
      var rest := OfLimit(links[..|links| - 1], l);
      assert links == links[..|links| - 1] + [links[|links| - 1]];
      if links[|links| - 1].0 == l then rest + [links[|links| - 1]] else rest
  }

  ghost predicate NoRepeats(links: seq<Link>) {
    forall j, k :: 0 <= j < k < |links| ==> links[j] != links[k]
  }

  ghost predicate IsGrouping(groups: map<nat, seq<Link>>, links: seq<Link>) {
    && (forall l :: l in groups <==> exists link :: link in links && link.0 == l)
    && (forall l :: l in groups ==> groups[l] == OfLimit(links, l))
  }

  lemma OneMoreLink(groups: map<nat, seq<Link>>, links: seq<Link>, link: Link)
    requires IsGrouping(groups, links)
    ensures IsGrouping(groups[link.0 := (if link.0 in groups then groups[link.0] else []) + [link]], links + [link])
  {
    assert (links + [link])[..|links|] == links;
    if link.0 !in groups {
      NoneOfLimit(links, link.0);
    }
  }

  /** Groups the links by their limit. */
  method GroupByLimit(links: seq<Link>) returns (groups: map<nat, seq<Link>>)
    ensures forall l :: l in groups <==> exists link :: link in links && link.0 == l
    ensures forall l :: l in groups ==> groups[l] == OfLimit(links, l)
  {
    groups := map[];
    for k := 0 to |links|
      invariant IsGrouping(groups, links[..k])
    {
      var link := links[k];
      assert links[..k + 1] == links[..k] + [link];
      OneMoreLink(groups, links[..k], link);
      if link.0 in groups {
        groups := groups[link.0 := groups[link.0] + [link]];
      } else {
        groups := groups[link.0 := [link]];
      }
    }
    assert links[..|links|] == links;
  }

  lemma {:induction false} NoneOfLimit(links: seq<Link>, l: nat)
    requires forall link :: link in links ==> link.0 != l
    ensures OfLimit(links, l) == []
  {
    if OfLimit(links, l) != [] {
      assert OfLimit(links, l)[0] in OfLimit(links, l);
    }
  }

  lemma {:induction false} OwnLinksDoNotRepeat(links: seq<Link>, l: nat)
    requires NoRepeats(links)
    ensures NoRepeats(OfLimit(links, l))
  {
    if links != [] {
      OwnLinksDoNotRepeat(links[..|links| - 1], l);
    }
  }

  lemma SingleElement(s: set<Place>, p: Place)
    requires p in s
    ensures |s| == 1 <==> forall q :: q in s ==> q == p
  {
    assert s == (s - {p}) + {p};
    if forall q :: q in s ==> q == p {
      assert s == {p};
    }
  }

  lemma AtMostOneLimit(s: set<nat>)
    ensures |s| > 1 <==> exists l, m :: l in s && m in s && l != m
  {
    if |s| > 1 {
      var l :| l in s;
      assert s == (s - {l}) + {l};
      var m :| m in s - {l};
    }
    if l, m :| l in s && m in s && l != m {
      assert s == (s - {l, m}) + {l, m};
    }
  }

  /** The limits that claim a place of a space. */
  type ClaimTable = map<(nat, Place), set<nat>>

  predicate HasClaim(claims: ClaimTable, space: nat, place: Place, l: nat) {
    (space, place) in claims && l in claims[(space, place)]
  }

  class ConflictSearch {
    const rule: Rule
    const db: Db
    const eligible: set<nat>
    const links: seq<Link>

    /** The links read from the tables: every concerned one, once. */
    constructor (rule: Rule, db: Db, eligible: set<nat>, links: seq<Link>)
      requires NoRepeats(links) && forall link :: link in links <==> IsConcerned(db, eligible, link)
      ensures this.rule == rule && this.db == db && this.eligible == eligible && this.links == links && Reads()
    {
      this.rule, this.db, this.eligible, this.links := rule, db, eligible, links;
    }

    ghost predicate Reads() {
      NoRepeats(links) && forall link :: link in links <==> IsConcerned(db, eligible, link)
    }

    function Place(link: Link): CatalogMigration.Place
      requires link.0 in db.limits
    {
      PlaceOf(rule, db, eligible, link)
    }

    ghost predicate LimitIsFine(l: nat)
      requires Reads()
    {
      && (forall link :: link in links && link.0 == l ==> db.limits[l].space == db.categories[link.1].space)
      && (forall a, b :: a in links && b in links && a.0 == l && b.0 == l && a != b ==>
                           exists d :: d in links && d.0 == l && Place(d) != Place(a))
    }

    /** The categories of other spaces that a limit covers. */
    method FindForeign(l: nat, own: seq<Link>) returns (conflicts: seq<Conflict>)
      requires Reads() && own == OfLimit(links, l) && own != []
      ensures conflicts == [] <==> forall link :: link in own ==> db.limits[l].space == db.categories[link.1].space
    {
      conflicts := [];
      assert own[0] in own;
      var space := db.limits[own[0].0].space;
      for k := 0 to |own|
        invariant conflicts == [] <==> forall j :: 0 <= j < k ==> db.categories[own[j].1].space == space
      {
        assert own[k] in own;
        if db.categories[own[k].1].space != space {
          conflicts := conflicts + [Foreign(l, own[k].1)];
        }
      }
    }

    /** A group whose categories all go to one place. */
    method FindCollapse(l: nat, own: seq<Link>) returns (conflicts: seq<Conflict>)
      requires Reads() && own == OfLimit(links, l) && own != []
      ensures conflicts == [] <==>
              forall a, b :: a in own && b in own && a != b ==> exists d :: d in own && Place(d) != Place(a)
    {
      OwnLinksDoNotRepeat(links, l);
      conflicts := [];
      assert own[0] in own;
      var places := set link | link in own :: Place(link);
      SingleElement(places, Place(own[0]));
      if |own| > 1 && |places| == 1 {
        conflicts := [Collapses(l, Place(own[0]))];
        assert own[1] in own && own[0] != own[1];
        assert forall d :: d in own ==> Place(d) in places;
      } else {
        forall a, b | a in own && b in own && a != b ensures exists d :: d in own && Place(d) != Place(a) {
          SingleElement(places, Place(a));
          var p :| p in places && p != Place(a);
          var d :| d in own && Place(d) == p;
        }
      }
    }

    /** The conflicts of one limit by itself. */
    method CheckLimit(l: nat, own: seq<Link>) returns (conflicts: seq<Conflict>)
      requires Reads() && own == OfLimit(links, l) && own != []
      ensures conflicts == [] <==> LimitIsFine(l)
    {
      var foreign := FindForeign(l, own);
      var collapse := FindCollapse(l, own);
      conflicts := foreign + collapse;
      OwnMeansOfLimit(l, own);
    }

    lemma OwnMeansOfLimit(l: nat, own: seq<Link>)
      requires Reads() && own == OfLimit(links, l)
      ensures LimitIsFine(l) <==>
              && (forall link :: link in own ==> db.limits[l].space == db.categories[link.1].space)
              && (forall a, b :: a in own && b in own && a != b ==> exists d :: d in own && Place(d) != Place(a))
    {
      assert forall link :: link in own <==> link in links && link.0 == l;
    }

    ghost predicate Claims(space: nat, place: CatalogMigration.Place, l: nat, done: set<nat>)
      requires Reads()
    {
      l in done && exists link :: link in links && link.0 == l && db.limits[l].space == space && Place(link) == place
    }

    /** One of the first k links of a limit puts it on a place of a space. */
    ghost predicate Noted(own: seq<Link>, k: nat, space: nat, place: CatalogMigration.Place)
      requires k <= |own| && forall link :: link in own ==> link.0 in db.limits
    {
      exists j :: 0 <= j < k && db.limits[own[j].0].space == space && Place(own[j]) == place
    }

    ghost predicate ClaimsAndNotes(
      claims: ClaimTable, done: set<nat>, l: nat, own: seq<Link>, k: nat)
      requires Reads() && k <= |own| && forall link :: link in own ==> link.0 in db.limits
    {
      forall s: nat, p: CatalogMigration.Place, m: nat ::
        HasClaim(claims, s, p, m) <==> Claims(s, p, m, done) || (m == l && Noted(own, k, s, p))
    }

    lemma NothingNotedYet(claims: ClaimTable, done: set<nat>, l: nat, own: seq<Link>)
      requires Reads() && ClaimsOf(claims, done) && forall link :: link in own ==> link.0 in db.limits
      ensures ClaimsAndNotes(claims, done, l, own, 0)
    {
      forall s: nat, p: CatalogMigration.Place, m: nat
        ensures HasClaim(claims, s, p, m) <==> Claims(s, p, m, done) || (m == l && Noted(own, 0, s, p))
      {
        assert HasClaim(claims, s, p, m) <==> Claims(s, p, m, done);
      }
    }

    /** Notes which places a limit claims in its space. */
    method AddClaims(l: nat, own: seq<Link>, claims: ClaimTable, ghost done: set<nat>)
      returns (grown: ClaimTable)
      requires Reads() && own == OfLimit(links, l) && own != [] && l !in done
      requires ClaimsOf(claims, done)
      ensures ClaimsOf(grown, done + {l})
    {
      grown := claims;
      NothingNotedYet(claims, done, l, own);
      for k := 0 to |own|
        invariant ClaimsAndNotes(grown, done, l, own, k)
      {
        var key := (db.limits[own[k].0].space, Place(own[k]));
        var others := if key in grown then grown[key] else {};
        OneMoreNote(grown, grown[key := others + {l}], done, l, own, k);
        grown := grown[key := others + {l}];
      }
      NotesAreClaims(grown, done, l, own);
    }

    lemma OneMoreNote(before: ClaimTable, after: ClaimTable, done: set<nat>, l: nat, own: seq<Link>, k: nat)
      requires Reads() && k < |own| && (forall link :: link in own ==> link.0 in db.limits)
               && ClaimsAndNotes(before, done, l, own, k)
      requires var key := (db.limits[own[k].0].space, Place(own[k]));
               after == before[key := (if key in before then before[key] else {}) + {l}]
      ensures ClaimsAndNotes(after, done, l, own, k + 1)
    {
      forall s: nat, p: CatalogMigration.Place, m: nat
        ensures HasClaim(after, s, p, m) <==> Claims(s, p, m, done) || (m == l && Noted(own, k + 1, s, p))
      {
        assert Noted(own, k + 1, s, p) <==> Noted(own, k, s, p) || (s, p) == (db.limits[own[k].0].space, Place(own[k]));
        assert HasClaim(before, s, p, m) <==> Claims(s, p, m, done) || (m == l && Noted(own, k, s, p));
      }
    }

    /** All of the limit's links noted: the limit is done. */
    lemma NotesAreClaims(claims: ClaimTable, done: set<nat>, l: nat, own: seq<Link>)
      requires Reads() && own == OfLimit(links, l) && l !in done && ClaimsAndNotes(claims, done, l, own, |own|)
      ensures ClaimsOf(claims, done + {l})
    {
      forall s: nat, p: CatalogMigration.Place, m: nat
        ensures HasClaim(claims, s, p, m) <==> Claims(s, p, m, done + {l})
      {
        if Claims(s, p, m, done + {l}) && m == l {
          var link :| link in links && link.0 == l && db.limits[l].space == s && Place(link) == p;
          assert link in own;
          var j :| 0 <= j < |own| && own[j] == link;
          assert Noted(own, |own|, s, p);
        }
        if m == l && Noted(own, |own|, s, p) {
          var j :| 0 <= j < |own| && db.limits[own[j].0].space == s && Place(own[j]) == p;
          assert own[j] in own;
        }
      }
    }

    ghost predicate ClaimsOf(claims: ClaimTable, done: set<nat>)
      requires Reads()
    {
      forall s: nat, p: CatalogMigration.Place, m: nat :: HasClaim(claims, s, p, m) <==> Claims(s, p, m, done)
    }

    ghost predicate AreLimits(limits: set<nat>) {
      forall l :: l in limits <==> exists link :: link in links && link.0 == l
    }

    ghost predicate AllFine(limits: set<nat>)
      requires Reads()
    {
      forall l :: l in limits ==> LimitIsFine(l)
    }

    lemma OneMoreLimit(done: set<nat>, l: nat)
      requires Reads()
      ensures AllFine(done + {l}) <==> AllFine(done) && LimitIsFine(l)
    {
      if AllFine(done + {l}) {
        forall m | m in done ensures LimitIsFine(m) {
          assert m in done + {l};
        }
        assert l in done + {l};
      }
    }

    lemma OwnIsNotEmpty(groups: map<nat, seq<Link>>, l: nat)
      requires AreLimits(groups.Keys) && l in groups && groups[l] == OfLimit(links, l)
      ensures groups[l] != []
    {
      var link :| link in links && link.0 == l;
      assert link in groups[l];
    }

    /** Each limit checked by itself. */
    method CheckEach(groups: map<nat, seq<Link>>) returns (conflicts: seq<Conflict>)
      requires Reads() && AreLimits(groups.Keys) && forall l :: l in groups ==> groups[l] == OfLimit(links, l)
      ensures conflicts == [] <==> AllFine(groups.Keys)
    {
      conflicts := [];
      var todo := groups.Keys;
      while todo != {}
        invariant todo <= groups.Keys
        invariant conflicts == [] <==> AllFine(groups.Keys - todo)
        decreases todo
      {
        var l :| l in todo;
        OwnIsNotEmpty(groups, l);
        var own := CheckLimit(l, groups[l]);
        conflicts := conflicts + own;
        OneMoreLimit(groups.Keys - todo, l);
        OneFewerLeft(groups.Keys, todo, l);
        todo := todo - {l};
      }
    }

    /** Everything that the limits claim. */
    method CollectClaims(groups: map<nat, seq<Link>>) returns (claims: ClaimTable)
      requires Reads() && AreLimits(groups.Keys) && forall l :: l in groups ==> groups[l] == OfLimit(links, l)
      ensures ClaimsOf(claims, groups.Keys)
    {
      claims := map[];
      var todo := groups.Keys;
      assert groups.Keys - todo == {};
      while todo != {}
        invariant todo <= groups.Keys
        invariant ClaimsOf(claims, groups.Keys - todo)
        decreases todo
      {
        var l :| l in todo;
        OwnIsNotEmpty(groups, l);
        claims := AddClaims(l, groups[l], claims, groups.Keys - todo);
        OneFewerLeft(groups.Keys, todo, l);
        todo := todo - {l};
      }
      assert groups.Keys - todo == groups.Keys;
    }

    method FindShared(claims: ClaimTable) returns (conflicts: seq<Conflict>)
      ensures conflicts == [] <==> forall key :: key in claims ==> |claims[key]| <= 1
    {
      conflicts := [];
      var keys := claims.Keys;
      while keys != {}
        invariant keys <= claims.Keys
        invariant conflicts == [] <==> forall key :: key in claims.Keys - keys ==> |claims[key]| <= 1
        decreases keys
      {
        var key :| key in keys;
        if |claims[key]| > 1 {
          conflicts := conflicts + [Shared(key.0, key.1, claims[key])];
        }
        keys := keys - {key};
      }
    }

    /** Finds a conflict exactly when the migration would merge, collapse or move a limit across spaces. */
    method Find() returns (conflicts: seq<Conflict>)
      requires Reads()
      ensures conflicts == [] <==> NoConflicts(rule, db, eligible)
    {
      var groups := GroupByLimit(links);
      var alone := CheckEach(groups);
      var claims := CollectClaims(groups);
      var shared := FindShared(claims);
      conflicts := alone + shared;
      FineAloneMeans(groups.Keys);
      NoneSharedMeans(groups.Keys, claims);
    }

    lemma FineAloneMeans(limits: set<nat>)
      requires Reads() && AreLimits(limits)
      ensures AllFine(limits) <==> StaysInSpace(db, eligible) && NoneCollapses(rule, db, eligible)
    {
      if AllFine(limits) {
        forall link | IsConcerned(db, eligible, link) ensures db.limits[link.0].space == db.categories[link.1].space {
          assert link in links && LimitIsFine(link.0);
        }
        forall a, b | IsConcerned(db, eligible, a) && IsConcerned(db, eligible, b) && a.0 == b.0 && a != b
          ensures exists d :: IsConcerned(db, eligible, d) && d.0 == a.0
                              && PlaceOf(rule, db, eligible, d) != PlaceOf(rule, db, eligible, a)
        {
          assert a in links && b in links && LimitIsFine(a.0);
          var d :| d in links && d.0 == a.0 && Place(d) != Place(a);
        }
      }
      if StaysInSpace(db, eligible) && NoneCollapses(rule, db, eligible) {
        forall l | l in limits ensures LimitIsFine(l) {
          forall a, b | a in links && b in links && a.0 == l && b.0 == l && a != b
            ensures exists d :: d in links && d.0 == l && Place(d) != Place(a)
          {
            var d :| IsConcerned(db, eligible, d) && d.0 == a.0
                     && PlaceOf(rule, db, eligible, d) != PlaceOf(rule, db, eligible, a);
            assert d in links;
          }
        }
      }
    }

    lemma NoneSharedMeans(limits: set<nat>, claims: ClaimTable)
      requires Reads() && AreLimits(limits)
      requires ClaimsOf(claims, limits)
      ensures (forall key :: key in claims ==> |claims[key]| <= 1) <==> NoneShared(rule, db, eligible)
    {
      if forall key :: key in claims ==> |claims[key]| <= 1 {
        forall a, b | && IsConcerned(db, eligible, a) && IsConcerned(db, eligible, b)
                      && db.limits[a.0].space == db.limits[b.0].space
                      && PlaceOf(rule, db, eligible, a) == PlaceOf(rule, db, eligible, b)
          ensures a.0 == b.0
        {
          assert a in links && b in links;
          var key := (db.limits[a.0].space, Place(a));
          assert Claims(key.0, key.1, a.0, limits) && Claims(key.0, key.1, b.0, limits);
          assert HasClaim(claims, key.0, key.1, a.0) && HasClaim(claims, key.0, key.1, b.0);
          AtMostOneLimit(claims[key]);
        }
      }
      if NoneShared(rule, db, eligible) {
        forall key | key in claims ensures |claims[key]| <= 1 {
          AtMostOneLimit(claims[key]);
          forall l, m | l in claims[key] && m in claims[key] ensures l == m {
            assert HasClaim(claims, key.0, key.1, l) && HasClaim(claims, key.0, key.1, m);
            assert Claims(key.0, key.1, l, limits) && Claims(key.0, key.1, m, limits);
          }
        }
      }
    }
  }
}
