/** The window opened around one record: its neighbours, read outward from its position. */
module FeedAround {
  import opened Basics
  import opened Feed
  import opened FeedProofs

  datatype AroundError = NotInFeed

  /** Half of the places to each side, and what one side leaves to the other. */
  function NewerCount(newer: nat, older: nat, side: nat): (n: nat)
    requires newer <= side && older <= side
    ensures n <= newer
  {
    Min(newer, Max(side / 2, side - older))
  }

  function OlderCount(newer: nat, older: nat, side: nat): (n: nat)
    requires newer <= side && older <= side
    ensures n <= older
  {
    Min(older, side - NewerCount(newer, older, side))
  }

  /** All places are used when there are records for them, and the flags tell what is left out. */
  lemma PlacesAreShared(n: nat, k: nat, side: nat, newer: nat, older: nat)
    requires k < n && newer == Min(k, side) && older == Min(n - k - 1, side)
    ensures var (newerCount, olderCount) := (NewerCount(newer, older, side), OlderCount(newer, older, side));
            && newerCount + 1 + olderCount == Min(side + 1, n)
            && (newerCount + olderCount == side || (newerCount == k && k + 1 + olderCount == n))
            && (newerCount < side / 2 ==> newerCount == k) && (olderCount < side - side / 2 ==> k + 1 + olderCount == n)
            && (side < k || newer > newerCount <==> k - newerCount > 0)
            && (k + 1 + side < n || older > olderCount <==> k + 1 + olderCount < n)
  {
  }

  /** The record is in the middle: a side has less than its half only when it has no more records. */
  predicate IsCentred(n: nat, k: nat, i: nat, j: nat, limit: nat) {
    && i <= k < j <= n && j - i == Min(limit, n)
    && (k - i < (limit - 1) / 2 ==> i == 0)
    && (j - k - 1 < limit - 1 - (limit - 1) / 2 ==> j == n)
  }

  /** The first index of the window around the k-th of n records. */
  function StartOf(n: nat, k: nat, limit: nat): (i: nat)
    requires k < n && limit >= 1
    ensures IsCentred(n, k, i, i + Min(limit, n), limit)
  {
    PlacesAreShared(n, k, limit - 1, Min(k, limit - 1), Min(n - k - 1, limit - 1));
    k - NewerCount(Min(k, limit - 1), Min(n - k - 1, limit - 1), limit - 1)
  }

  ghost function IndexOf(rows: set<Record>, target: Record): (k: nat)
    requires Keyed(rows) && target in rows
    ensures k < |Listing(rows)| && Listing(rows)[k] == target
  {
    assert target in Listing(rows);
    var k :| 0 <= k < |Listing(rows)| && Listing(rows)[k] == target;
    k
  }

  // ------------------------------------------------------------------ the two sides

  ghost predicate IsNewerSide(s: seq<Record>, k: nat, side: nat, page: Page) {
    && k < |s| && |page.items| == Min(k, side) && page.hasMore == (side < k)
    && page.items == s[k - |page.items|..k]
  }

  ghost predicate IsOlderSide(s: seq<Record>, k: nat, side: nat, page: Page) {
    && k < |s| && |page.items| == Min(|s| - k - 1, side) && page.hasMore == (k + 1 + side < |s|)
    && page.items == s[k + 1..k + 1 + |page.items|]
  }

  lemma NewerSideIsRead(s: seq<Record>, k: nat, side: nat, page: Page)
    requires k < |s| && page == Page(s[Max(0, k - side)..k], side < k)
    ensures IsNewerSide(s, k, side, page)
  {
  }

  lemma OlderSideIsRead(s: seq<Record>, k: nat, side: nat, page: Page)
    requires k < |s| && page == Page(s[k + 1..Min(k + 1 + side, |s|)], k + 1 + side < |s|)
    ensures IsOlderSide(s, k, side, page)
  {
  }

  method ReadNewerSide(rows: set<Record>, wallets: set<nat>, target: Record, side: nat) returns (page: Page)
    requires Keyed(rows) && target in rows && forall r :: r in rows ==> r.wallet in wallets
    ensures IsNewerSide(Listing(rows), IndexOf(rows, target), side, page)
  {
    ghost var k := IndexOf(rows, target);
    SplitAtRecord(rows, k);
    PageBefore(rows, target.position, side, k);
    page := GetFeedPage(rows, wallets, Before(target.position), side);
    NewerSideIsRead(Listing(rows), k, side, page);
  }

  lemma OlderSideOf(rows: set<Record>, target: Record, side: nat)
    requires Keyed(rows) && target in rows
    ensures IsOlderSide(Listing(rows), IndexOf(rows, target), side, PageOf(rows, After(target.position), side))
  {
    var k := IndexOf(rows, target);
    SplitAtRecord(rows, k);
    PageAfter(rows, target.position, side, k + 1);
    OlderSideIsRead(Listing(rows), k, side, PageOf(rows, After(target.position), side));
  }

  method ReadOlderSide(rows: set<Record>, wallets: set<nat>, target: Record, side: nat) returns (page: Page)
    requires Keyed(rows) && target in rows && forall r :: r in rows ==> r.wallet in wallets
    ensures IsOlderSide(Listing(rows), IndexOf(rows, target), side, page)
  {
    OlderSideOf(rows, target, side);
    page := GetFeedPage(rows, wallets, After(target.position), side);
  }

  lemma EndOfSlice(s: seq<Record>, from: nat, to: nat, n: nat)
    requires from <= to <= |s| && n <= to - from
    ensures s[from..to][to - from - n..] == s[to - n..to]
  {
  }

  lemma StartOfSlice(s: seq<Record>, from: nat, to: nat, n: nat)
    requires from <= to <= |s| && n <= to - from
    ensures s[from..to][..n] == s[from..from + n]
  {
  }

  lemma ThreeSlices(s: seq<Record>, i: nat, k: nat, j: nat)
    requires i <= k < j <= |s|
    ensures s[i..k] + [s[k]] + s[k + 1..j] == s[i..j]
  {
  }

  method LastItems(page: Page, n: nat, ghost s: seq<Record>, ghost k: nat, ghost side: nat) returns (items: seq<Record>)
    requires IsNewerSide(s, k, side, page) && n <= |page.items|
    ensures items == s[k - n..k]
  {
    EndOfSlice(s, k - |page.items|, k, n);
    items := page.items[|page.items| - n..];
  }

  method FirstItems(page: Page, n: nat, ghost s: seq<Record>, ghost k: nat, ghost side: nat)
    returns (items: seq<Record>)
    requires IsOlderSide(s, k, side, page) && n <= |page.items|
    ensures items == s[k + 1..k + 1 + n]
  {
    StartOfSlice(s, k + 1, k + 1 + |page.items|, n);
    items := page.items[..n];
  }

  lemma WindowBounds(n: nat, k: nat, side: nat, newer: nat, older: nat)
    requires k < n && newer == Min(k, side) && older == Min(n - k - 1, side)
    ensures StartOf(n, k, side + 1) == k - NewerCount(newer, older, side)
    ensures StartOf(n, k, side + 1) + Min(side + 1, n) == k + 1 + OlderCount(newer, older, side)
  {
    PlacesAreShared(n, k, side, newer, older);
  }

  lemma IsWholePage(s: seq<Record>, w: FeedWindow, i: nat, j: nat, limit: nat)
    requires IsSlice(s, w, i, j) && j == i + Min(limit, |s|) && i < j
    ensures IsPage(s, limit, w, i, j)
  {
  }

  /** Puts the record between its neighbours. */
  method Join(newer: Page, older: Page, target: Record, newerCount: nat, olderCount: nat,
              ghost s: seq<Record>, ghost k: nat, ghost side: nat) returns (items: seq<Record>)
    requires IsNewerSide(s, k, side, newer) && IsOlderSide(s, k, side, older) && s[k] == target
    requires newerCount <= |newer.items| && olderCount <= |older.items|
    ensures newerCount <= k && k + 1 + olderCount <= |s| && items == s[k - newerCount..k + 1 + olderCount]
  {
    var newerItems := LastItems(newer, newerCount, s, k, side);
    var olderItems := FirstItems(older, olderCount, s, k, side);
    ThreeSlices(s, k - newerCount, k, k + 1 + olderCount);
    items := newerItems + [target] + olderItems;
  }

  lemma SidesAre(s: seq<Record>, k: nat, side: nat, newer: Page, older: Page)
    requires IsNewerSide(s, k, side, newer) && IsOlderSide(s, k, side, older)
    ensures k < |s| && |newer.items| == Min(k, side) && |older.items| == Min(|s| - k - 1, side)
    ensures newer.hasMore == (side < k) && older.hasMore == (k + 1 + side < |s|)
  {
  }

  lemma FlagsAreExact(s: seq<Record>, k: nat, side: nat, newer: Page, older: Page, w: FeedWindow, newerCount: nat,
      olderCount: nat)
    requires k < |s| && |newer.items| == Min(k, side) && |older.items| == Min(|s| - k - 1, side)
    requires newer.hasMore == (side < k) && older.hasMore == (k + 1 + side < |s|)
    requires newerCount == NewerCount(|newer.items|, |older.items|, side)
             && olderCount == OlderCount(|newer.items|, |older.items|, side)
    requires newerCount <= k && k + 1 + olderCount <= |s| && w.items == s[k - newerCount..k + 1 + olderCount]
    requires w.hasOlder == (older.hasMore || |older.items| > olderCount)
             && w.hasNewer == (newer.hasMore || |newer.items| > newerCount)
    ensures IsSlice(s, w, k - newerCount, k + 1 + olderCount)
  {
    PlacesAreShared(|s|, k, side, |newer.items|, |older.items|);
  }

  method Assemble(newer: Page, older: Page, target: Record, side: nat, ghost s: seq<Record>, ghost k: nat)
    returns (w: FeedWindow, ghost i: nat, ghost j: nat)
    requires IsNewerSide(s, k, side, newer) && IsOlderSide(s, k, side, older) && s[k] == target
    ensures i == k - NewerCount(|newer.items|, |older.items|, side)
            && j == k + 1 + OlderCount(|newer.items|, |older.items|, side)
    ensures IsSlice(s, w, i, j)
  {
    var newerCount := NewerCount(|newer.items|, |older.items|, side);
    var olderCount := OlderCount(|newer.items|, |older.items|, side);
    var items := Join(newer, older, target, newerCount, olderCount, s, k, side);
    SidesAre(s, k, side, newer, older);
    w := FeedWindow(items, older.hasMore || |older.items| > olderCount, newer.hasMore || |newer.items| > newerCount);
    FlagsAreExact(s, k, side, newer, older, w, newerCount, olderCount);
    i, j := k - newerCount, k + 1 + olderCount;
  }

  method AssembleWindow(newer: Page, older: Page, target: Record, side: nat, ghost s: seq<Record>,
      ghost k: nat) returns (w: FeedWindow)
    requires IsNewerSide(s, k, side, newer) && IsOlderSide(s, k, side, older) && s[k] == target
    ensures var i := StartOf(|s|, k, side + 1);
            IsPage(s, side + 1, w, i, i + Min(side + 1, |s|))
            && IsCentred(|s|, k, i, i + Min(side + 1, |s|), side + 1)
    ensures target in w.items
  {
    ghost var i, j;
    w, i, j := Assemble(newer, older, target, side, s, k);
    WindowBounds(|s|, k, side, |newer.items|, |older.items|);
    IsWholePage(s, w, i, j, side + 1);
    IsInSlice(s, w, i, k, j);
  }

  lemma IsInSlice(s: seq<Record>, w: FeedWindow, i: nat, k: nat, j: nat)
    requires IsSlice(s, w, i, j) && i <= k < j
    ensures s[k] in w.items
  {
    assert w.items[k - i] == s[k];
  }

  /** The window holds the record, is as large as it can be, and tells exactly whether there are others. */
  method ReadFeedAround(rows: set<Record>, wallets: set<nat>, limit: nat,
      target: Record) returns (r: Result<FeedWindow, AroundError>)
    requires Keyed(rows) && limit >= 1 && forall r :: r in rows ==> r.wallet in wallets
    ensures r.Ok? <==> target in rows
    ensures r.Ok? ==>
              var i := StartOf(|rows|, IndexOf(rows, target), limit);
              && IsPage(Listing(rows), limit, r.value, i, i + Min(limit, |rows|))
              && IsCentred(|rows|, IndexOf(rows, target), i, i + Min(limit, |rows|), limit)
              && target in r.value.items
  {
    if target !in rows {
      return Err(NotInFeed);
    }
    var side := limit - 1;
    var newer := ReadNewerSide(rows, wallets, target, side);
    var older := ReadOlderSide(rows, wallets, target, side);
    var window := AssembleWindow(newer, older, target, side, Listing(rows), IndexOf(rows, target));
    assert |Listing(rows)| == |rows| && side + 1 == limit;
    r := Ok(window);
  }
}
