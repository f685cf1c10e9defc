/** Every window is a slice of the one newest-first list, with exact flags; cursors walk all of it and back. */
module FeedProofs {
  import opened Basics
  import opened Feed

  /** The whole selection, newest first. */
  ghost function Listing(rows: set<Record>): seq<Record>
    requires Keyed(rows)
  {
    Sorted(Desc, rows)
  }

  // ------------------------------------------------------------------ reversing and cutting

  lemma {:induction false} ReverseAt(s: seq<Record>, k: nat)
    requires k < |s|
    ensures |Reverse(s)| == |s| && Reverse(s)[k] == s[|s| - 1 - k]
  {
    ReverseKeepsLength(s);
    ReverseKeepsLength(s[1..]);
    if k < |s| - 1 {
      ReverseAt(s[1..], k);
    }
  }

  lemma ReverseFacts(s: seq<Record>)
    ensures |Reverse(s)| == |s|
    ensures forall k :: 0 <= k < |s| ==> Reverse(s)[k] == s[|s| - 1 - k]
    ensures forall r :: r in Reverse(s) <==> r in s
  {
    ReverseKeepsLength(s);
    forall k | 0 <= k < |s| ensures Reverse(s)[k] == s[|s| - 1 - k] {
      ReverseAt(s, k);
    }
    forall r | r in s ensures r in Reverse(s) {
      var i :| 0 <= i < |s| && s[i] == r;
      assert Reverse(s)[|s| - 1 - i] == r;
    }
  }

  lemma ReverseIsOrdered(s: seq<Record>)
    requires Ordered(Desc, s)
    ensures Ordered(Asc, Reverse(s))
  {
    ReverseFacts(s);
  }

  lemma {:induction false} ReverseOfConcat(a: seq<Record>, b: seq<Record>)
    ensures Reverse(a + b) == Reverse(b) + Reverse(a)
  {
    if a == [] {
      assert a + b == b;
    } else {
      ReverseOfConcat(a[1..], b);
      assert (a + b)[1..] == a[1..] + b;
    }
  }

  lemma {:induction false} ReverseTwice(s: seq<Record>)
    ensures Reverse(Reverse(s)) == s
  {
    if s != [] {
      ReverseTwice(s[1..]);
      ReverseOfConcat(Reverse(s[1..]), [s[0]]);
    }
  }

  /** Cutting a reversed list and reversing it back keeps the end. */
  lemma LastOnes(s: seq<Record>, n: nat, m: nat)
    requires m == if n < |s| then |s| - n else 0
    ensures Reverse(Take(Reverse(s), n)) == s[m..]
  {
    Rejoined(s, m);
    LastOfConcat(s, s[..m], s[m..], n);
  }

  lemma Rejoined(s: seq<Record>, m: nat)
    requires m <= |s|
    ensures s == s[..m] + s[m..]
  {
  }

  lemma LastOfConcat(s: seq<Record>, front: seq<Record>, tail: seq<Record>, n: nat)
    requires s == front + tail && (|tail| == n || (|tail| <= n && front == []))
    ensures Reverse(Take(Reverse(s), n)) == tail
  {
    ReverseOfConcat(front, tail);
    ReverseKeepsLength(tail);
    TakeOfFront(Reverse(tail), Reverse(front), n);
    ReverseTwice(tail);
  }

  lemma TakeOfFront(a: seq<Record>, b: seq<Record>, n: nat)
    requires |a| == n || (|a| <= n && b == [])
    ensures Take(a + b, n) == a
  {
  }

  lemma TakeOfRest(s: seq<Record>, k: nat, n: nat)
    requires k <= |s|
    ensures Take(s[k..], n) == s[k..Min(k + n, |s|)]
    ensures |s[k..]| > n <==> k + n < |s|
  {
  }

  /** The list itself holds each record once, newest first. */
  lemma ListingIsEverythingOnce(rows: set<Record>)
    requires Keyed(rows)
    ensures forall r :: r in rows <==> r in Listing(rows)
    ensures forall i, j :: 0 <= i < j < |Listing(rows)| ==>
                             var (p, q) := (Listing(rows)[i].position, Listing(rows)[j].position);
                             p.timestamp > q.timestamp || (p.timestamp == q.timestamp && p.id > q.id)
    ensures Ordered(Desc, Listing(rows))
  {
    SortedIsOrdered(Desc, rows);
    forall i, j | 0 <= i < j < |Listing(rows)| ensures Newer(Listing(rows)[i].position, Listing(rows)[j].position) {
      assert Precedes(Desc, Listing(rows)[i], Listing(rows)[j]);
    }
  }

  // ------------------------------------------------------------------ what lies beyond a position

  /** In the list, the first k records are not older than the position, all others are. */
  ghost predicate OlderFrom(s: seq<Record>, p: Position, k: nat) {
    && k <= |s|
    && (forall i :: 0 <= i < k ==> !Newer(p, s[i].position))
    && (forall i :: k <= i < |s| ==> Newer(p, s[i].position))
  }

  ghost predicate NewerUpTo(s: seq<Record>, p: Position, k: nat) {
    && k <= |s|
    && (forall i :: 0 <= i < k ==> Newer(s[i].position, p))
    && (forall i :: k <= i < |s| ==> !Newer(s[i].position, p))
  }

  lemma {:induction false} OlderSplit(s: seq<Record>, p: Position) returns (k: nat)
    requires Ordered(Desc, s)
    ensures OlderFrom(s, p, k)
  {
    if s == [] || Newer(p, s[0].position) {
      k := 0;
    } else {
      forall i, j | 0 <= i < j < |s[1..]| ensures Precedes(Desc, s[1..][i], s[1..][j]) {
        assert Precedes(Desc, s[i + 1], s[j + 1]);
      }
      var l := OlderSplit(s[1..], p);
      forall i | 1 <= i < |s| ensures Newer(p, s[i].position) <==> l + 1 <= i {
        assert s[1..][i - 1] == s[i];
      }
      k := l + 1;
    }
  }

  lemma {:induction false} NewerSplit(s: seq<Record>, p: Position) returns (k: nat)
    requires Ordered(Desc, s)
    ensures NewerUpTo(s, p, k)
  {
    if s == [] || !Newer(s[0].position, p) {
      k := 0;
    } else {
      forall i, j | 0 <= i < j < |s[1..]| ensures Precedes(Desc, s[1..][i], s[1..][j]) {
        assert Precedes(Desc, s[i + 1], s[j + 1]);
      }
      var l := NewerSplit(s[1..], p);
      forall i | 1 <= i < |s| ensures Newer(s[i].position, p) <==> i < l + 1 {
        assert s[1..][i - 1] == s[i];
      }
      k := l + 1;
    }
  }

  lemma SuffixIsOrdered(s: seq<Record>, k: nat)
    requires Ordered(Desc, s) && k <= |s|
    ensures Ordered(Desc, s[k..])
  {
    forall i, j | 0 <= i < j < |s[k..]| ensures Precedes(Desc, s[k..][i], s[k..][j]) {
      assert Precedes(Desc, s[k + i], s[k + j]);
    }
  }

  lemma SuffixIsTheOlder(s: seq<Record>, p: Position, k: nat, r: Record)
    requires OlderFrom(s, p, k)
    ensures r in s[k..] <==> r in s && Newer(p, r.position)
  {
    if r in s {
      var i :| 0 <= i < |s| && s[i] == r;
      assert i >= k ==> s[k..][i - k] == r;
    }
    if r in s[k..] {
      var i :| 0 <= i < |s[k..]| && s[k..][i] == r;
      assert s[i + k] == r;
    }
  }

  lemma OlderOnes(rows: set<Record>, p: Position, k: nat)
    requires Keyed(rows) && OlderFrom(Listing(rows), p, k)
    ensures Keyed(Beyond(rows, After(p))) && Sorted(Desc, Beyond(rows, After(p))) == Listing(rows)[k..]
  {
    var s := Listing(rows);
    SortedIsOrdered(Desc, rows);
    BeyondIsKeyed(rows, After(p));
    SuffixIsOrdered(s, k);
    forall r ensures r in s[k..] <==> r in Beyond(rows, After(p)) {
      SuffixIsTheOlder(s, p, k, r);
    }
    OrderedIsSorted(Desc, s[k..], Beyond(rows, After(p)));
  }

  lemma NewerOnes(rows: set<Record>, p: Position, k: nat)
    requires Keyed(rows) && NewerUpTo(Listing(rows), p, k)
    ensures Keyed(Beyond(rows, Before(p))) && Sorted(Asc, Beyond(rows, Before(p))) == Reverse(Listing(rows)[..k])
  {
    var s := Listing(rows);
    SortedIsOrdered(Desc, rows);
    BeyondIsKeyed(rows, Before(p));
    ReverseFacts(s[..k]);
    ReverseIsOrdered(s[..k]);
    forall r ensures r in s[..k] <==> r in Beyond(rows, Before(p)) {
      if r in Beyond(rows, Before(p)) {
        var i :| 0 <= i < |s| && s[i] == r;
        assert s[..k][i] == r;
      }
      if r in s[..k] {
        var i :| 0 <= i < k && s[..k][i] == r;
        assert r in s;
      }
    }
    OrderedIsSorted(Asc, Reverse(s[..k]), Beyond(rows, Before(p)));
  }

  /** At the position of the i-th record the split is at the record itself. */
  lemma SplitAtRecord(rows: set<Record>, i: nat)
    requires Keyed(rows) && i < |Listing(rows)|
    ensures OlderFrom(Listing(rows), Listing(rows)[i].position, i + 1)
    ensures NewerUpTo(Listing(rows), Listing(rows)[i].position, i)
  {
    SortedIsOrdered(Desc, rows);
    var s := Listing(rows);
    forall j | 0 <= j < |s| && j != i ensures if j < i then Precedes(Desc, s[j], s[i]) else Precedes(Desc, s[i], s[j]) {
    }
  }

  // ------------------------------------------------------------------ pages are slices

  lemma AllRecords(rows: set<Record>)
    requires Keyed(rows)
    ensures Beyond(rows, Start) == rows
  {
  }

  lemma PageAfter(rows: set<Record>, p: Position, limit: nat, k: nat)
    requires Keyed(rows) && OlderFrom(Listing(rows), p, k)
    ensures PageOf(rows, After(p), limit)
            == Page(Listing(rows)[k..Min(k + limit, |Listing(rows)|)], k + limit < |Listing(rows)|)
  {
    OlderOnes(rows, p, k);
    TakeOfRest(Listing(rows), k, limit);
  }

  lemma PageBefore(rows: set<Record>, p: Position, limit: nat, k: nat)
    requires Keyed(rows) && NewerUpTo(Listing(rows), p, k)
    ensures PageOf(rows, Before(p), limit) == Page(Listing(rows)[Max(0, k - limit)..k], limit < k)
  {
    NewerOnes(rows, p, k);
    LastOnes(Listing(rows)[..k], limit, Max(0, k - limit));
    ReverseKeepsLength(Listing(rows)[..k]);
    assert Listing(rows)[..k][Max(0, k - limit)..] == Listing(rows)[Max(0, k - limit)..k];
  }

  /** The window shows records i to j of the list and tells exactly whether there are others. */
  ghost predicate IsSlice(s: seq<Record>, w: FeedWindow, i: nat, j: nat) {
    && i <= j <= |s| && w.items == s[i..j]
    && (w.hasOlder <==> j < |s|) && (w.hasNewer <==> i > 0)
  }

  /** A slice as long as asked for, or as long as the list goes in one direction. */
  ghost predicate IsPage(s: seq<Record>, limit: nat, w: FeedWindow, i: nat, j: nat) {
    IsSlice(s, w, i, j) && i < j <= i + limit && (j == i + limit || i == 0 || j == |s|)
  }

  lemma SamePage(s: seq<Record>, v: FeedWindow, w: FeedWindow, i: nat, j: nat)
    requires IsSlice(s, v, i, j) && IsSlice(s, w, i, j)
    ensures v == w
  {
  }

  lemma FirstPage(rows: set<Record>, limit: nat)
    requires Keyed(rows) && limit >= 1
    ensures var w := WindowAt(rows, limit, None);
            if rows == {} then w == NOTHING else IsPage(Listing(rows), limit, w, 0, Min(limit, |rows|))
  {
    AllRecords(rows);
  }

  /** One row read in the other direction tells whether there are others. */
  lemma ProbeBefore(rows: set<Record>, k: nat)
    requires Keyed(rows) && k < |rows|
    ensures PageOf(rows, Before(Listing(rows)[k].position), 0).hasMore <==> 0 < k
  {
    SplitAtRecord(rows, k);
    PageBefore(rows, Listing(rows)[k].position, 0, k);
  }

  lemma ProbeAfter(rows: set<Record>, k: nat)
    requires Keyed(rows) && k < |rows|
    ensures PageOf(rows, After(Listing(rows)[k].position), 0).hasMore <==> k + 1 < |rows|
  {
    SplitAtRecord(rows, k);
    PageAfter(rows, Listing(rows)[k].position, 0, k + 1);
  }

  lemma EndsOfSlice(s: seq<Record>, i: nat, j: nat)
    requires i < j <= |s|
    ensures s[i..j] != [] && s[i..j][0] == s[i] && s[i..j][|s[i..j]| - 1] == s[j - 1]
  {
  }

  /** A window read from a page and a probe. */
  lemma OlderWindow(rows: set<Record>, limit: nat, p: Position, s: seq<Record>, k: nat, j: nat)
    requires Keyed(rows) && k < j <= |s| && PageOf(rows, After(p), limit) == Page(s[k..j], j < |s|)
    requires PageOf(rows, Before(s[k].position), 0).hasMore <==> 0 < k
    ensures WindowAt(rows, limit, Some(Older(p))) == FeedWindow(s[k..j], j < |s|, 0 < k)
  {
    EndsOfSlice(s, k, j);
  }

  lemma NewerWindow(rows: set<Record>, limit: nat, p: Position, s: seq<Record>, i: nat, k: nat)
    requires Keyed(rows) && i < k <= |s| && PageOf(rows, Before(p), limit) == Page(s[i..k], 0 < i)
    requires PageOf(rows, After(s[k - 1].position), 0).hasMore <==> k < |s|
    ensures WindowAt(rows, limit, Some(NewerThan(p))) == FeedWindow(s[i..k], k < |s|, 0 < i)
  {
    EndsOfSlice(s, i, k);
  }

  lemma OlderPage(rows: set<Record>, limit: nat, p: Position, k: nat)
    requires Keyed(rows) && limit >= 1 && OlderFrom(Listing(rows), p, k)
    ensures var (s, w) := (Listing(rows), WindowAt(rows, limit, Some(Older(p))));
            if k < |s| then IsPage(s, limit, w, k, Min(k + limit, |s|)) else w == NOTHING
  {
    PageAfter(rows, p, limit, k);
    if k < |rows| {
      ProbeBefore(rows, k);
      OlderWindow(rows, limit, p, Listing(rows), k, Min(k + limit, |rows|));
    }
  }

  lemma NothingNewer(rows: set<Record>, limit: nat, p: Position)
    requires Keyed(rows) && NewerUpTo(Listing(rows), p, 0)
    ensures WindowAt(rows, limit, Some(NewerThan(p))) == NOTHING
  {
    PageBefore(rows, p, limit, 0);
  }

  lemma SomeNewer(rows: set<Record>, limit: nat, p: Position, i: nat, k: nat)
    requires Keyed(rows) && limit >= 1 && NewerUpTo(Listing(rows), p, k) && k > 0 && i == Max(0, k - limit)
    ensures WindowAt(rows, limit, Some(NewerThan(p))) == FeedWindow(Listing(rows)[i..k], k < |rows|, 0 < i)
  {
    PageBefore(rows, p, limit, k);
    ProbeAfter(rows, k - 1);
    NewerWindow(rows, limit, p, Listing(rows), i, k);
  }

  lemma NewerPage(rows: set<Record>, limit: nat, p: Position, k: nat)
    requires Keyed(rows) && limit >= 1 && NewerUpTo(Listing(rows), p, k)
    ensures var (s, w) := (Listing(rows), WindowAt(rows, limit, Some(NewerThan(p))));
            if k > 0 then IsPage(s, limit, w, Max(0, k - limit), k) else w == NOTHING
  {
    if k == 0 {
      NothingNewer(rows, limit, p);
    } else {
      SomeNewer(rows, limit, p, Max(0, k - limit), k);
    }
  }

  /**
   Whatever the cursor, even of a record that is gone, a page with records is a slice with exact flags, and it
   begins or ends right beyond the cursor.
   */
  lemma EveryPageIsASlice(rows: set<Record>, limit: nat, cursor: Option<Cursor>) returns (i: nat, j: nat)
    requires Keyed(rows) && limit >= 1 && WindowAt(rows, limit, cursor).items != []
    ensures IsPage(Listing(rows), limit, WindowAt(rows, limit, cursor), i, j)
    ensures match cursor
            case None => i == 0
            case Some(Older(p)) => OlderFrom(Listing(rows), p, i)
            case Some(NewerThan(p)) => NewerUpTo(Listing(rows), p, j)
  {
    SortedIsOrdered(Desc, rows);
    match cursor {
      case None =>
        FirstPage(rows, limit);
        i, j := 0, Min(limit, |rows|);
      case Some(Older(p)) =>
        i := OlderSplit(Listing(rows), p);
        OlderPage(rows, limit, p, i);
        j := Min(i + limit, |rows|);
      case Some(NewerThan(p)) =>
        j := NewerSplit(Listing(rows), p);
        NewerPage(rows, limit, p, j);
        i := Max(0, j - limit);
    }
  }

  // ------------------------------------------------------------------ moving between pages

  lemma NextPage(rows: set<Record>, limit: nat, w: FeedWindow, i: nat, j: nat)
    requires Keyed(rows) && limit >= 1 && IsPage(Listing(rows), limit, w, i, j)
    ensures NextCursor(w).Some? <==> j < |Listing(rows)|
    ensures j < |Listing(rows)| ==>
              IsPage(Listing(rows), limit, WindowAt(rows, limit, NextCursor(w)), j, Min(j + limit, |Listing(rows)|))
  {
    if j < |Listing(rows)| {
      SplitAtRecord(rows, j - 1);
      OlderPage(rows, limit, Listing(rows)[j - 1].position, j);
    }
  }

  lemma PreviousPage(rows: set<Record>, limit: nat, w: FeedWindow, i: nat, j: nat)
    requires Keyed(rows) && limit >= 1 && IsPage(Listing(rows), limit, w, i, j)
    ensures PreviousCursor(w).Some? <==> i > 0
    ensures i > 0 ==> IsPage(Listing(rows), limit, WindowAt(rows, limit, PreviousCursor(w)), Max(0, i - limit), i)
  {
    if i > 0 {
      SplitAtRecord(rows, i);
      NewerPage(rows, limit, Listing(rows)[i].position, i);
    }
  }

  /** A cursor is null exactly when nothing lies beyond that end. */
  lemma CursorsAreExact(rows: set<Record>, limit: nat, cursor: Option<Cursor>)
    requires Keyed(rows) && limit >= 1 && WindowAt(rows, limit, cursor).items != []
    ensures var w := WindowAt(rows, limit, cursor);
            && (NextCursor(w).None? <==> forall r :: r in rows ==> !Newer(w.items[|w.items| - 1].position, r.position))
            && (PreviousCursor(w).None? <==> forall r :: r in rows ==> !Newer(r.position, w.items[0].position))
  {
    var i, j := EveryPageIsASlice(rows, limit, cursor);
    ListingIsEverythingOnce(rows);
    EndsAreExact(rows, Listing(rows), WindowAt(rows, limit, cursor), i, j);
  }

  lemma EndsAreExact(rows: set<Record>, s: seq<Record>, w: FeedWindow, i: nat, j: nat)
    requires IsSlice(s, w, i, j) && i < j && Ordered(Desc, s) && forall r :: r in rows <==> r in s
    ensures NextCursor(w).None? <==> forall r :: r in rows ==> !Newer(w.items[|w.items| - 1].position, r.position)
    ensures PreviousCursor(w).None? <==> forall r :: r in rows ==> !Newer(r.position, w.items[0].position)
  {
    assert w.items[|w.items| - 1] == s[j - 1] && w.items[0] == s[i];
    if j < |s| {
      assert Precedes(Desc, s[j - 1], s[j]) && s[j] in rows;
    }
    if i > 0 {
      assert Precedes(Desc, s[0], s[i]) && s[0] in rows;
    }
    forall r | r in rows
      ensures (j == |s| ==> !Newer(s[j - 1].position, r.position)) && (i == 0 ==> !Newer(r.position, s[i].position))
    {
      var k :| 0 <= k < |s| && s[k] == r;
      if k < j - 1 {
        assert Precedes(Desc, s[k], s[j - 1]);
      }
      if i < k {
        assert Precedes(Desc, s[i], s[k]);
      }
    }
  }

  lemma PageEnds(s: seq<Record>, limit: nat, w: FeedWindow, i: nat, j: nat)
    requires IsPage(s, limit, w, i, j)
    ensures i > 0 ==> j == Min(i + limit, |s|)
    ensures j < |s| ==> i == Max(0, j - limit)
  {
  }

  lemma BackFromNext(rows: set<Record>, limit: nat, w: FeedWindow, i: nat, j: nat, next: FeedWindow)
    requires Keyed(rows) && limit >= 1 && IsPage(Listing(rows), limit, w, i, j)
    requires NextCursor(w).Some? && next == WindowAt(rows, limit, NextCursor(w))
    ensures PreviousCursor(next).Some? && WindowAt(rows, limit, PreviousCursor(next)) == w
  {
    NextPage(rows, limit, w, i, j);
    PageEnds(Listing(rows), limit, w, i, j);
    PreviousPage(rows, limit, next, j, Min(j + limit, |Listing(rows)|));
    SamePage(Listing(rows), w, WindowAt(rows, limit, PreviousCursor(next)), i, j);
  }

  lemma BackFromPrevious(rows: set<Record>, limit: nat, w: FeedWindow, i: nat, j: nat, previous: FeedWindow)
    requires Keyed(rows) && limit >= 1 && IsPage(Listing(rows), limit, w, i, j)
    requires PreviousCursor(w).Some? && previous == WindowAt(rows, limit, PreviousCursor(w))
    ensures NextCursor(previous).Some? && WindowAt(rows, limit, NextCursor(previous)) == w
  {
    PreviousPage(rows, limit, w, i, j);
    PageEnds(Listing(rows), limit, w, i, j);
    NextPage(rows, limit, previous, Max(0, i - limit), i);
    SamePage(Listing(rows), w, WindowAt(rows, limit, NextCursor(previous)), i, j);
  }

  /** Going on and back again shows the page one left. */
  lemma PreviousUndoesNext(rows: set<Record>, limit: nat, cursor: Option<Cursor>)
    requires Keyed(rows) && limit >= 1 && NextCursor(WindowAt(rows, limit, cursor)).Some?
    ensures var next := WindowAt(rows, limit, NextCursor(WindowAt(rows, limit, cursor)));
            PreviousCursor(next).Some? && WindowAt(rows, limit, PreviousCursor(next)) == WindowAt(rows, limit, cursor)
  {
    var i, j := EveryPageIsASlice(rows, limit, cursor);
    BackFromNext(rows, limit, WindowAt(rows, limit, cursor), i, j,
                 WindowAt(rows, limit, NextCursor(WindowAt(rows, limit, cursor))));
  }

  /** And the other way round. */
  lemma NextUndoesPrevious(rows: set<Record>, limit: nat, cursor: Option<Cursor>)
    requires Keyed(rows) && limit >= 1 && PreviousCursor(WindowAt(rows, limit, cursor)).Some?
    ensures var previous := WindowAt(rows, limit, PreviousCursor(WindowAt(rows, limit, cursor)));
            NextCursor(previous).Some? && WindowAt(rows, limit, NextCursor(previous)) == WindowAt(rows, limit, cursor)
  {
    var i, j := EveryPageIsASlice(rows, limit, cursor);
    BackFromPrevious(rows, limit, WindowAt(rows, limit, cursor), i, j,
                     WindowAt(rows, limit, PreviousCursor(WindowAt(rows, limit, cursor))));
  }

  /** Pages read one after the other by their next cursors, from the first. */
  ghost predicate IsScroll(rows: set<Record>, limit: nat, pages: seq<FeedWindow>)
    requires Keyed(rows)
  {
    && pages != [] && pages[0] == WindowAt(rows, limit, None)
    && (forall n :: 0 <= n < |pages| - 1 ==>
                      NextCursor(pages[n]).Some? && pages[n + 1] == WindowAt(rows, limit, NextCursor(pages[n])))
  }

  function ItemsOf(pages: seq<FeedWindow>): seq<Record> {
    if pages == [] then [] else ItemsOf(pages[..|pages| - 1]) + pages[|pages| - 1].items
  }

  /** After n pages the first n * limit records have been listed. */
  lemma {:induction false} ScrollListsAPrefix(rows: set<Record>, limit: nat, pages: seq<FeedWindow>) returns (i: nat,
      j: nat)
    requires Keyed(rows) && limit >= 1 && rows != {} && IsScroll(rows, limit, pages)
    ensures IsPage(Listing(rows), limit, pages[|pages| - 1], i, j)
    ensures ItemsOf(pages) == Listing(rows)[..j] && |pages| <= j
    ensures NextCursor(pages[|pages| - 1]).None? <==> j == |Listing(rows)|
  {
    var s := Listing(rows);
    if |pages| == 1 {
      FirstPage(rows, limit);
      i, j := 0, Min(limit, |rows|);
      assert ItemsOf(pages[..0]) == [] && ItemsOf(pages) == pages[0].items;
    } else {
      var m, n := ScrollListsAPrefix(rows, limit, pages[..|pages| - 1]);
      NextPage(rows, limit, pages[|pages| - 2], m, n);
      i, j := n, Min(n + limit, |s|);
      OneMorePage(s, ItemsOf(pages[..|pages| - 1]), pages[|pages| - 1], i, j);
    }
    NextPage(rows, limit, pages[|pages| - 1], i, j);
  }

  lemma OneMorePage(s: seq<Record>, all: seq<Record>, w: FeedWindow, i: nat, j: nat)
    requires IsSlice(s, w, i, j) && all == s[..i]
    ensures all + w.items == s[..j]
  {
  }

  lemma IsAPrefix(s: seq<Record>, j: nat)
    requires j <= |s|
    ensures s[..j] <= s && (j == |s| ==> s[..j] == s)
  {
  }

  /** Following next cursors ends, within as many pages as there are records, having listed each record once. */
  lemma ScrollEnds(rows: set<Record>, limit: nat, pages: seq<FeedWindow>)
    requires Keyed(rows) && limit >= 1 && rows != {} && IsScroll(rows, limit, pages)
    ensures |pages| <= |rows|
    ensures ItemsOf(pages) <= Listing(rows)
    ensures NextCursor(pages[|pages| - 1]).None? ==> ItemsOf(pages) == Listing(rows)
  {
    var i, j := ScrollListsAPrefix(rows, limit, pages);
    IsAPrefix(Listing(rows), j);
  }

  /** A client that reads to the end. */
  method ReadToTheEnd(rows: set<Record>, wallets: set<nat>, limit: nat) returns (all: seq<Record>)
    requires Keyed(rows) && limit >= 1 && forall r :: r in rows ==> r.wallet in wallets
    ensures all == Listing(rows)
  {
    var w := ReadFeedPage(rows, wallets, limit, None);
    FirstPage(rows, limit);
    all := w.items;
    if w.items == [] {
      return;
    }
    ghost var i: nat, j: nat := 0, Min(limit, |rows|);
    ghost var s := Listing(rows);
    while NextCursor(w).Some?
      invariant IsPage(s, limit, w, i, j) && all == s[..j]
      decreases |s| - j
    {
      NextPage(rows, limit, w, i, j);
      w := ReadFeedPage(rows, wallets, limit, NextCursor(w));
      OneMorePage(s, all, w, j, Min(j + limit, |s|));
      i, j := j, Min(j + limit, |s|);
      all := all + w.items;
    }
    NextPage(rows, limit, w, i, j);
    assert s[..j] == s;
  }
}
