/** The limits in plain numbers: which requests are refused, and how many emails every run schedules. */
module InviteLimitsInNumbers {
  import opened Basics
  import opened InviteLimits
  import opened InviteLimitsProofs

  /** The positions of the entries that match. */
  ghost function Logged(rows: seq<Entry>, matches: Entry -> bool): set<nat> {
    set k: nat | k < |rows| && matches(rows[k])
  }

  lemma {:induction false} LoggedGrows(rows: seq<Entry>, matches: Entry -> bool)
    requires rows != []
    ensures var (before, last) := (rows[..|rows| - 1], |rows| - 1);
            |Logged(rows, matches)| == |Logged(before, matches)| + if matches(rows[last]) then 1 else 0
  {
    var (before, last) := (rows[..|rows| - 1], |rows| - 1);
    if matches(rows[last]) {
      assert Logged(rows, matches) == Logged(before, matches) + {last};
    } else {
      assert Logged(rows, matches) == Logged(before, matches);
    }
  }

  lemma {:induction false} SinceIsACount(rows: seq<Entry>, scope: Scope, lo: int, matches: Entry -> bool)
    requires forall e :: matches(e) <==> Counts(scope, e) && lo < e.at
    ensures Since(rows, scope, lo) == |Logged(rows, matches)|
  {
    if rows == [] {
      assert Logged(rows, matches) == {};
    } else {
      SinceIsACount(rows[..|rows| - 1], scope, lo, matches);
      LoggedGrows(rows, matches);
    }
  }

  lemma {:induction false} WithinIsACount(rows: seq<Entry>, scope: Scope, lo: int, hi: int, matches: Entry -> bool)
    requires forall e :: matches(e) <==> Counts(scope, e) && lo < e.at <= hi
    ensures Within(rows, scope, lo, hi) == |Logged(rows, matches)|
  {
    if rows == [] {
      assert Logged(rows, matches) == {};
    } else {
      WithinIsACount(rows[..|rows| - 1], scope, lo, hi, matches);
      LoggedGrows(rows, matches);
    }
  }

  function InviteSince(i: nat, lo: int): Entry -> bool {
    (e: Entry) => e.invite == i && lo < e.at
  }

  function SpaceSince(space: nat, lo: int): Entry -> bool {
    (e: Entry) => e.space == space && lo < e.at
  }

  function SenderSince(sender: nat, lo: int): Entry -> bool {
    (e: Entry) => e.sender == sender && lo < e.at
  }

  function AddressSince(email: string, lo: int): Entry -> bool {
    (e: Entry) => e.email == email && lo < e.at
  }

  /** A day back, five emails of one invitation, thirty of a space, fifty of a sender and ten to an address. */
  lemma RefusalInNumbers(rows: seq<Entry>, r: Request, now: int)
    ensures var day := now - 86_400_000;
            Refuses(rows, r, now) <==>
              || (r.invite.Some? && |Logged(rows, InviteSince(r.invite.value, now - 60_000))| > 0)
              || (r.invite.Some? && |Logged(rows, InviteSince(r.invite.value, day))| >= 5)
              || (r.space.Some? && |Logged(rows, SpaceSince(r.space.value, day))| + |r.emails| > 30)
              || |Logged(rows, SenderSince(r.sender, day))| + |r.emails| > 50
              || exists email :: email in r.emails && |Logged(rows, AddressSince(email, day))| >= 10
  {
    var day := now - 86_400_000;
    if r.invite.Some? {
      SinceIsACount(rows, ByInvite(r.invite.value), now - 60_000, InviteSince(r.invite.value, now - 60_000));
      SinceIsACount(rows, ByInvite(r.invite.value), day, InviteSince(r.invite.value, day));
    }
    if r.space.Some? {
      SinceIsACount(rows, BySpace(r.space.value), day, SpaceSince(r.space.value, day));
    }
    SinceIsACount(rows, BySender(r.sender), day, SenderSince(r.sender, day));
    forall email ensures Since(rows, ByEmail(email), day) == |Logged(rows, AddressSince(email, day))| {
      SinceIsACount(rows, ByEmail(email), day, AddressSince(email, day));
    }
  }

  function InviteWithin(i: nat, lo: int, hi: int): Entry -> bool {
    (e: Entry) => e.invite == i && lo < e.at <= hi
  }

  function SpaceWithin(space: nat, lo: int, hi: int): Entry -> bool {
    (e: Entry) => e.space == space && lo < e.at <= hi
  }

  function SenderWithin(sender: nat, lo: int, hi: int): Entry -> bool {
    (e: Entry) => e.sender == sender && lo < e.at <= hi
  }

  function AddressWithin(email: string, lo: int, hi: int): Entry -> bool {
    (e: Entry) => e.email == email && lo < e.at <= hi
  }

  lemma ScopeInNumbers(init: Ledger, events: seq<Event>, lag: nat, lo: int, scope: Scope, matches: Entry -> bool)
    requires Init(init) && LagAtMost(init, events, lag)
    requires scope.BySender? || scope.ByEmail? ==> OverlapAtMost(init, events, scope, 0)
    requires forall e :: matches(e) <==> Counts(scope, e) && lo < e.at <= lo + 86_400_000 - lag
    ensures |Logged(After(init, events).history, matches)| <= LimitOf(scope)
  {
    WithinIsACount(After(init, events).history, scope, lo, lo + 86_400_000 - lag, matches);
    if scope.ByInvite? {
      InviteAndSpaceLimitsAreExact(init, events, scope.invite, 0, lag, lo);
    } else if scope.BySpace? {
      InviteAndSpaceLimitsAreExact(init, events, 0, scope.space, lag, lo);
    } else {
      LimitHoldsWithoutOverlap(init, events, scope, lag, lo);
    }
  }

  /** What every run schedules in any day, less the lag of its clocks. */
  lemma RunsInNumbers(init: Ledger, events: seq<Event>, lag: nat, lo: int, i: nat, space: nat, sender: nat,
      email: string)
    requires Init(init) && LagAtMost(init, events, lag)
    ensures var (rows, hi) := (After(init, events).history, lo + 86_400_000 - lag);
            && |Logged(rows, InviteWithin(i, lo, hi))| <= 5
            && |Logged(rows, SpaceWithin(space, lo, hi))| <= 30
            && (OverlapAtMost(init, events, BySender(sender), 0) ==> |Logged(rows, SenderWithin(sender, lo, hi))| <= 50)
            && (OverlapAtMost(init, events, ByEmail(email), 0) ==> |Logged(rows, AddressWithin(email, lo, hi))| <= 10)
  {
    var hi := lo + 86_400_000 - lag;
    ScopeInNumbers(init, events, lag, lo, ByInvite(i), InviteWithin(i, lo, hi));
    ScopeInNumbers(init, events, lag, lo, BySpace(space), SpaceWithin(space, lo, hi));
    if OverlapAtMost(init, events, BySender(sender), 0) {
      ScopeInNumbers(init, events, lag, lo, BySender(sender), SenderWithin(sender, lo, hi));
    }
    if OverlapAtMost(init, events, ByEmail(email), 0) {
      ScopeInNumbers(init, events, lag, lo, ByEmail(email), AddressWithin(email, lo, hi));
    }
  }
}
