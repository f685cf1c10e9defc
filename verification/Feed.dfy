/**
 The transaction feed: pages read from per-wallet heads, cursors, and a window around one record.

 A selection is the finite set of records that the filters let through on one snapshot; the filters
 themselves and the text search stay outside. Records are told apart by id and shown newest first.
 */
module Feed {
  import opened Basics

  datatype Position = Position(timestamp: int, id: nat)

  datatype Record = Record(wallet: nat, position: Position)

  predicate Newer(p: Position, q: Position) {
    p.timestamp > q.timestamp || (p.timestamp == q.timestamp && p.id > q.id)
  }

  datatype Direction = Asc | Desc

  /** ORDER BY timestamp, id in a direction. */
  predicate Precedes(d: Direction, a: Record, b: Record) {
    if d == Asc then Newer(b.position, a.position) else Newer(a.position, b.position)
  }

  /** Ids are unique. */
  ghost predicate Keyed(rows: set<Record>) {
    forall a, b :: a in rows && b in rows && a.position.id == b.position.id ==> a == b
  }

  // ------------------------------------------------------------------ ORDER BY and LIMIT

  ghost predicate IsFirst(d: Direction, rows: set<Record>, r: Record) {
    r in rows && forall q :: q in rows && q != r ==> Precedes(d, r, q)
  }

  lemma FirstOfOneMore(d: Direction, rows: set<Record>, x: Record, y: Record)
    requires Keyed(rows) && x in rows && IsFirst(d, rows - {x}, y)
    ensures IsFirst(d, rows, if Precedes(d, x, y) then x else y)
  {
    assert x.position.id != y.position.id;
    var r := if Precedes(d, x, y) then x else y;
    forall q | q in rows && q != r ensures Precedes(d, r, q) {
      assert q == x || q in rows - {x};
    }
  }

  lemma SomeIsFirst(d: Direction, rows: set<Record>)
    requires Keyed(rows) && rows != {}
    ensures exists r :: IsFirst(d, rows, r)
    decreases |rows|
  {
    var x :| x in rows;
    var rest := rows - {x};
    if rest == {} {
      assert forall q :: q in rows && q != x ==> q in rest;
      assert IsFirst(d, rows, x);
    } else {
      SomeIsFirst(d, rest);
      var y :| IsFirst(d, rest, y);
      FirstOfOneMore(d, rows, x, y);
    }
  }

  function First(d: Direction, rows: set<Record>): (r: Record)
    requires Keyed(rows) && rows != {}
    ensures IsFirst(d, rows, r)
  {
    SomeIsFirst(d, rows);
    var r :| r in rows && forall q :: q in rows && q != r ==> Precedes(d, r, q);
    assert IsFirst(d, rows, r);
    r
  }

  function Sort(d: Direction, rows: set<Record>): (s: seq<Record>)
    requires Keyed(rows)
    ensures |s| == |rows| && forall r :: r in s <==> r in rows
    decreases |rows|
  {
    if rows == {} then [] else [First(d, rows)] + Sort(d, rows - {First(d, rows)})
  }

  function Take(s: seq<Record>, n: nat): seq<Record> {
    if |s| <= n then s else s[..n]
  }

  /** SELECT ... ORDER BY ... LIMIT n. */
  function Head(d: Direction, rows: set<Record>, n: nat): seq<Record>
    requires Keyed(rows)
  {
    Take(Sort(d, rows), n)
  }

  ghost predicate Ordered(d: Direction, s: seq<Record>) {
    forall i, j :: 0 <= i < j < |s| ==> Precedes(d, s[i], s[j])
  }

  lemma OneMoreIsOrdered(d: Direction, f: Record, rest: seq<Record>)
    requires Ordered(d, rest) && forall r :: r in rest ==> Precedes(d, f, r)
    ensures Ordered(d, [f] + rest)
  {
    var s := [f] + rest;
    forall i, j | 0 <= i < j < |s| ensures Precedes(d, s[i], s[j]) {
      assert s[j] == rest[j - 1] && (i > 0 ==> s[i] == rest[i - 1]);
    }
  }

  lemma {:induction false} SortIsOrdered(d: Direction, rows: set<Record>)
    requires Keyed(rows)
    ensures Ordered(d, Sort(d, rows))
    decreases |rows|
  {
    if rows != {} {
      var f := First(d, rows);
      SortIsOrdered(d, rows - {f});
      OneMoreIsOrdered(d, f, Sort(d, rows - {f}));
    }
  }

  lemma FirstOfOrdered(d: Direction, s: seq<Record>, rows: set<Record>)
    requires Keyed(rows) && Ordered(d, s) && s != [] && forall r :: r in s <==> r in rows
    ensures s[0] in rows && First(d, rows) == s[0]
  {
    assert s[0] in s;
    var f := First(d, rows);
    assert f in s;
    var j :| 0 <= j < |s| && s[j] == f;
  }

  lemma RestOfOrdered(d: Direction, s: seq<Record>, rows: set<Record>)
    requires Ordered(d, s) && s != [] && forall r :: r in s <==> r in rows
    ensures Ordered(d, s[1..]) && forall r :: r in s[1..] <==> r in rows - {s[0]}
  {
    forall r ensures r in s[1..] <==> r in rows - {s[0]} {
      if r in s[1..] {
        var i :| 0 <= i < |s[1..]| && s[1..][i] == r;
        assert Precedes(d, s[0], s[i + 1]) && s[i + 1] == r;
      }
    }
  }

  /** There is one way to list a selection in an order. */
  lemma {:induction false} OrderedIsSort(d: Direction, s: seq<Record>, rows: set<Record>)
    requires Keyed(rows) && Ordered(d, s) && forall r :: r in s <==> r in rows
    ensures s == Sort(d, rows)
    decreases |s|
  {
    if s == [] {
      assert rows == {};
    } else {
      FirstOfOrdered(d, s, rows);
      RestOfOrdered(d, s, rows);
      SomeAreKeyed(rows, rows - {s[0]});
      OrderedIsSort(d, s[1..], rows - {s[0]});
    }
  }

  /** What ORDER BY means: each row once, in the order. */
  ghost predicate Lists(d: Direction, s: seq<Record>, rows: set<Record>) {
    Ordered(d, s) && forall r :: r in s <==> r in rows
  }

  ghost function Sorted(d: Direction, rows: set<Record>): (s: seq<Record>)
    requires Keyed(rows)
    ensures |s| == |rows| && forall r :: r in s <==> r in rows
  {
    SortIsOrdered(d, rows);
    assert Lists(d, Sort(d, rows), rows);
    var s :| Lists(d, s, rows);
    OrderedIsSort(d, s, rows);
    s
  }

  lemma SortedIsOrdered(d: Direction, rows: set<Record>)
    requires Keyed(rows)
    ensures Ordered(d, Sorted(d, rows))
  {
  }

  lemma SortedIsSort(d: Direction, rows: set<Record>)
    requires Keyed(rows)
    ensures Sorted(d, rows) == Sort(d, rows)
  {
    OrderedIsSort(d, Sorted(d, rows), rows);
  }

  lemma OrderedIsSorted(d: Direction, s: seq<Record>, rows: set<Record>)
    requires Keyed(rows) && Ordered(d, s) && forall r :: r in s <==> r in rows
    ensures s == Sorted(d, rows)
  {
    OrderedIsSort(d, s, rows);
    SortedIsSort(d, rows);
  }

  function Reverse(s: seq<Record>): seq<Record> {
    if s == [] then [] else Reverse(s[1..]) + [s[0]]
  }

  lemma {:induction false} ReverseKeepsLength(s: seq<Record>)
    ensures |Reverse(s)| == |s|
  {
    if s != [] { ReverseKeepsLength(s[1..]); }
  }

  // ------------------------------------------------------------------ pages

  /** `before` a position reads newer records, `after` it older ones. */
  datatype PageFrom = Start | After(position: Position) | Before(position: Position)

  datatype Page = Page(items: seq<Record>, hasMore: bool)

  predicate IsBeyond(from: PageFrom, r: Record) {
    match from
    case Start => true
    case After(p) => Newer(p, r.position)
    case Before(p) => Newer(r.position, p)
  }

  function Beyond(rows: set<Record>, from: PageFrom): set<Record> {
    set r | r in rows && IsBeyond(from, r)
  }

  function DirectionOf(from: PageFrom): Direction {
    if from.Before? then Asc else Desc
  }

  lemma BeyondIsKeyed(rows: set<Record>, from: PageFrom)
    requires Keyed(rows)
    ensures Keyed(Beyond(rows, from))
  {
  }

  /** The simple form: sort everything beyond the position, and cut. */
  ghost function PageOf(rows: set<Record>, from: PageFrom, limit: nat): Page
    requires Keyed(rows)
  {
    BeyondIsKeyed(rows, from);
    var sorted := Sorted(DirectionOf(from), Beyond(rows, from));
    var items := Take(sorted, limit);
    Page(if from.Before? then Reverse(items) else items, |sorted| > limit)
  }

  function OfWallet(rows: set<Record>, wallet: nat): set<Record> {
    set r | r in rows && r.wallet == wallet
  }

  /** One wallet's branch of the query, cut at n rows. */
  function Branch(d: Direction, rows: set<Record>, wallet: nat, from: PageFrom, n: nat): seq<Record>
    requires Keyed(rows)
  {
    Head(d, Beyond(OfWallet(rows, wallet), from), n)
  }

  /** The branches' heads together. */
  method CollectHeads(d: Direction, rows: set<Record>, wallets: set<nat>, from: PageFrom,
      n: nat) returns (heads: set<Record>)
    requires Keyed(rows)
    ensures heads <= Beyond(rows, from)
    ensures forall w, r :: w in wallets && r in Branch(d, rows, w, from, n) ==> r in heads
  {
    heads := {};
    var todo := wallets;
    while todo != {}
      invariant todo <= wallets
      invariant heads <= Beyond(rows, from)
      invariant forall w, r :: w in wallets - todo && r in Branch(d, rows, w, from, n) ==> r in heads
      decreases todo
    {
      var w :| w in todo;
      var branch := Branch(d, rows, w, from, n);
      assert forall r :: r in branch ==> r in Beyond(OfWallet(rows, w), from);
      heads := heads + set r | r in branch;
      todo := todo - {w};
    }
  }

  /** The fast form: one branch per wallet, each cut at limit + 1, and the heads sorted together. */
  method GetFeedPage(rows: set<Record>, wallets: set<nat>, from: PageFrom, limit: nat) returns (page: Page)
    requires Keyed(rows) && forall r :: r in rows ==> r.wallet in wallets
    ensures page == PageOf(rows, from, limit)
  {
    BeyondIsKeyed(rows, from);
    if wallets == {} {
      NothingToRead(rows, from, limit);
      return Page([], false);
    }
    var d := DirectionOf(from);
    var heads := CollectHeads(d, rows, wallets, from, limit + 1);
    HeadsSuffice(d, rows, wallets, from, heads, limit + 1);
    CutOfHead(rows, from, limit);
    page := Cut(from, Head(d, heads, limit + 1), limit);
  }

  /** The rows read, without the one read only to tell whether there are more. */
  function Cut(from: PageFrom, read: seq<Record>, limit: nat): Page {
    var items := Take(read, limit);
    Page(if from.Before? then Reverse(items) else items, |read| > limit)
  }

  lemma CutOfHead(rows: set<Record>, from: PageFrom, limit: nat)
    requires Keyed(rows) && Keyed(Beyond(rows, from))
    ensures Cut(from, Head(DirectionOf(from), Beyond(rows, from), limit + 1), limit) == PageOf(rows, from, limit)
  {
    SortedIsSort(DirectionOf(from), Beyond(rows, from));
    CutIsPage(Sorted(DirectionOf(from), Beyond(rows, from)), limit);
  }

  lemma NothingToRead(rows: set<Record>, from: PageFrom, limit: nat)
    requires rows == {}
    ensures PageOf(rows, from, limit) == Page([], false)
  {
    assert Beyond(rows, from) == {};
  }

  lemma CutIsPage(s: seq<Record>, limit: nat)
    ensures Take(Take(s, limit + 1), limit) == Take(s, limit)
    ensures |Take(s, limit + 1)| > limit <==> |s| > limit
  {
  }

  lemma SomeAreKeyed(rows: set<Record>, some: set<Record>)
    requires Keyed(rows) && some <= rows
    ensures Keyed(some)
  {
  }

  lemma HeadSplits(d: Direction, rows: set<Record>, n: nat)
    requires Keyed(rows)
    ensures n == 0 || rows == {} ==> Head(d, rows, n) == []
    ensures n > 0 && rows != {} ==> Head(d, rows, n) == [First(d, rows)] + Head(d, rows - {First(d, rows)}, n - 1)
  {
  }

  lemma FirstOfSome(d: Direction, rows: set<Record>, some: set<Record>)
    requires Keyed(rows) && Keyed(some) && some <= rows && rows != {} && First(d, rows) in some
    ensures First(d, some) == First(d, rows)
  {
  }

  /** A row is in the head when it is the first, or in the head of the rest. */
  predicate InTheHead(d: Direction, rows: set<Record>, r: Record, n: nat)
    requires Keyed(rows)
  {
    && n > 0 && rows != {}
    && (r == First(d, rows) || InTheHead(d, rows - {First(d, rows)}, r, n - 1))
  }

  lemma {:induction false} HeadHasThem(d: Direction, rows: set<Record>, r: Record, n: nat)
    requires Keyed(rows)
    ensures r in Head(d, rows, n) <==> InTheHead(d, rows, r, n)
    decreases n
  {
    HeadSplits(d, rows, n);
    if n > 0 && rows != {} {
      SomeAreKeyed(rows, rows - {First(d, rows)});
      HeadHasThem(d, rows - {First(d, rows)}, r, n - 1);
    }
  }

  lemma {:induction false} LongerHead(d: Direction, rows: set<Record>, r: Record, n: nat)
    requires Keyed(rows) && InTheHead(d, rows, r, n)
    ensures r in rows && InTheHead(d, rows, r, n + 1)
    decreases n
  {
    if r != First(d, rows) {
      LongerHead(d, rows - {First(d, rows)}, r, n - 1);
    }
  }

  lemma {:induction false} StaysInTheHead(d: Direction, rows: set<Record>, some: set<Record>, r: Record, n: nat)
    requires Keyed(rows) && Keyed(some) && some <= rows && r in some && InTheHead(d, rows, r, n)
    ensures InTheHead(d, some, r, n)
    decreases n
  {
    var f := First(d, rows);
    if r == f {
      FirstOfSome(d, rows, some);
    } else {
      SomeAreKeyed(rows, rows - {f});
      SomeAreKeyed(rows, some - {f});
      StaysInTheHead(d, rows - {f}, some - {f}, r, n - 1);
      if f in some {
        FirstOfSome(d, rows, some);
      } else {
        assert some - {f} == some;
        LongerHead(d, some, r, n - 1);
      }
    }
  }

  lemma RestIsHeld(d: Direction, rows: set<Record>, some: set<Record>, n: nat, r: Record)
    requires Keyed(rows) && rows != {} && n > 0 && Keyed(rows - {First(d, rows)})
    requires InTheHead(d, rows, r, n) ==> r in some
    requires InTheHead(d, rows - {First(d, rows)}, r, n - 1)
    ensures r in some - {First(d, rows)}
  {
    LongerHead(d, rows - {First(d, rows)}, r, n - 1);
  }

  lemma OneMoreInBothHeads(d: Direction, rows: set<Record>, some: set<Record>, n: nat)
    requires Keyed(rows) && Keyed(some) && n > 0 && rows != {} && some != {} && First(d, some) == First(d, rows)
    requires var f := First(d, rows);
             && Keyed(rows - {f}) && Keyed(some - {f})
             && Head(d, some - {f}, n - 1) == Head(d, rows - {f}, n - 1)
    ensures Head(d, some, n) == Head(d, rows, n)
  {
    HeadSplits(d, rows, n);
    HeadSplits(d, some, n);
  }

  lemma NothingInTheHead(d: Direction, rows: set<Record>, n: nat)
    requires Keyed(rows) && (n == 0 || rows == {})
    ensures Head(d, rows, n) == []
  {
  }

  lemma {:induction false} SameHead(d: Direction, rows: set<Record>, some: set<Record>, n: nat)
    requires Keyed(rows) && Keyed(some) && some <= rows
    requires forall r :: InTheHead(d, rows, r, n) ==> r in some
    ensures Head(d, some, n) == Head(d, rows, n)
    decreases n
  {
    if n == 0 || rows == {} {
      NothingInTheHead(d, rows, n);
      NothingInTheHead(d, some, n);
    } else {
      var f := First(d, rows);
      assert InTheHead(d, rows, f, n);
      FirstOfSome(d, rows, some);
      SomeAreKeyed(rows, rows - {f});
      SomeAreKeyed(some, some - {f});
      forall r | InTheHead(d, rows - {f}, r, n - 1) ensures r in some - {f} {
        RestIsHeld(d, rows, some, n, r);
      }
      SameHead(d, rows - {f}, some - {f}, n - 1);
      OneMoreInBothHeads(d, rows, some, n);
    }
  }

  /** Whatever is first in the whole selection is first in its own wallet's branch. */
  lemma HeadsSuffice(d: Direction, rows: set<Record>, wallets: set<nat>, from: PageFrom, heads: set<Record>, n: nat)
    requires Keyed(rows) && Keyed(Beyond(rows, from)) && heads <= Beyond(rows, from)
    requires forall r :: r in rows ==> r.wallet in wallets
    requires forall w, r :: w in wallets && r in Branch(d, rows, w, from, n) ==> r in heads
    ensures Keyed(heads) && Head(d, heads, n) == Head(d, Beyond(rows, from), n)
  {
    SomeAreKeyed(Beyond(rows, from), heads);
    forall r | InTheHead(d, Beyond(rows, from), r, n) ensures r in heads {
      HeadIsInItsBranch(d, rows, from, r, n);
    }
    SameHead(d, Beyond(rows, from), heads, n);
  }

  lemma HeadIsInItsBranch(d: Direction, rows: set<Record>, from: PageFrom, r: Record, n: nat)
    requires Keyed(rows) && Keyed(Beyond(rows, from)) && InTheHead(d, Beyond(rows, from), r, n)
    ensures r in rows && r in Branch(d, rows, r.wallet, from, n)
  {
    LongerHead(d, Beyond(rows, from), r, n);
    var branch := Beyond(OfWallet(rows, r.wallet), from);
    SomeAreKeyed(Beyond(rows, from), branch);
    StaysInTheHead(d, Beyond(rows, from), branch, r, n);
    HeadHasThem(d, branch, r, n);
  }

  // ------------------------------------------------------------------ windows

  datatype Cursor = Older(position: Position) | NewerThan(position: Position)

  datatype FeedWindow = FeedWindow(items: seq<Record>, hasOlder: bool, hasNewer: bool)

  const NOTHING := FeedWindow([], false, false)

  function FromOf(cursor: Option<Cursor>): PageFrom {
    match cursor
    case None => Start
    case Some(Older(p)) => After(p)
    case Some(NewerThan(p)) => Before(p)
  }

  /** A page from the start or a cursor; the direction not read is probed with one row. */
  method ReadFeedPage(rows: set<Record>, wallets: set<nat>, limit: nat,
      cursor: Option<Cursor>) returns (window: FeedWindow)
    requires Keyed(rows) && forall r :: r in rows ==> r.wallet in wallets
    ensures window == WindowAt(rows, limit, cursor)
  {
    var page := GetFeedPage(rows, wallets, FromOf(cursor), limit);
    if page.items == [] {
      return NOTHING;
    }
    if cursor.None? {
      return FeedWindow(page.items, page.hasMore, false);
    }
    var newer := cursor.value.NewerThan?;
    var edge := if newer then After(page.items[|page.items| - 1].position) else Before(page.items[0].position);
    var probe := GetFeedPage(rows, wallets, edge, 0);
    window := if newer
              then FeedWindow(page.items, probe.hasMore, page.hasMore)
              else FeedWindow(page.items, page.hasMore, probe.hasMore);
  }

  ghost function WindowAt(rows: set<Record>, limit: nat, cursor: Option<Cursor>): FeedWindow
    requires Keyed(rows)
  {
    var page := PageOf(rows, FromOf(cursor), limit);
    if page.items == [] then NOTHING
    else if cursor.None? then FeedWindow(page.items, page.hasMore, false)
    else if cursor.value.NewerThan?
    then FeedWindow(page.items, PageOf(rows, After(page.items[|page.items| - 1].position), 0).hasMore, page.hasMore)
    else FeedWindow(page.items, page.hasMore, PageOf(rows, Before(page.items[0].position), 0).hasMore)
  }

  function NextCursor(w: FeedWindow): Option<Cursor> {
    if w.hasOlder && w.items != [] then Some(Older(w.items[|w.items| - 1].position)) else None
  }

  function PreviousCursor(w: FeedWindow): Option<Cursor> {
    if w.hasNewer && w.items != [] then Some(NewerThan(w.items[0].position)) else None
  }
}
