/** The limits hold in every window of every run, as far as clocks and overlaps let them. */
module InviteLimitsProofs {
  import opened Basics
  import opened InviteLimits

  type Open = map<nat, seq<Entry>>

  // ------------------------------------------------------------------ counting

  lemma {:induction false} SinceAppends(a: seq<Entry>, b: seq<Entry>, scope: Scope, lo: int)
    ensures Since(a + b, scope, lo) == Since(a, scope, lo) + Since(b, scope, lo)
  {
    if b == [] {
      assert a + b == a;
    } else {
      assert (a + b)[..|a + b| - 1] == a + b[..|b| - 1];
      SinceAppends(a, b[..|b| - 1], scope, lo);
    }
  }

  lemma {:induction false} WithinAppends(a: seq<Entry>, b: seq<Entry>, scope: Scope, lo: int, hi: int)
    ensures Within(a + b, scope, lo, hi) == Within(a, scope, lo, hi) + Within(b, scope, lo, hi)
  {
    if b == [] {
      assert a + b == a;
    } else {
      assert (a + b)[..|a + b| - 1] == a + b[..|b| - 1];
      WithinAppends(a, b[..|b| - 1], scope, lo, hi);
    }
  }

  lemma SinceGrowsBackwards(rows: seq<Entry>, scope: Scope, lo: int, lo': int)
    requires lo' <= lo
    ensures Since(rows, scope, lo) <= Since(rows, scope, lo')
  {
  }

  lemma WithinIsPartOfSince(rows: seq<Entry>, scope: Scope, lo: int, hi: int)
    ensures Within(rows, scope, lo, hi) <= Since(rows, scope, lo)
  {
  }

  lemma NothingWithin(rows: seq<Entry>, scope: Scope, lo: int, hi: int)
    requires forall e :: e in rows ==> !(Counts(scope, e) && lo < e.at <= hi)
    ensures Within(rows, scope, lo, hi) == 0
  {
  }

  lemma NoneCounted(rows: seq<Entry>, scope: Scope, lo: int)
    requires forall e :: e in rows ==> !(Counts(scope, e) && lo < e.at)
    ensures Since(rows, scope, lo) == 0
  {
  }

  lemma AllWithin(rows: seq<Entry>, scope: Scope, lo: int, hi: int)
    requires forall e :: e in rows ==> Counts(scope, e) && lo < e.at <= hi
    ensures Within(rows, scope, lo, hi) == |rows|
  {
  }

  lemma {:induction false} CountedEntryIsCounted(rows: seq<Entry>, scope: Scope, lo: int, e: Entry)
    requires e in rows && Counts(scope, e) && lo < e.at
    ensures Since(rows, scope, lo) > 0
  {
    if e != rows[|rows| - 1] {
      CountedEntryIsCounted(rows[..|rows| - 1], scope, lo, e);
    }
  }

  lemma SinceAtMostAll(rows: seq<Entry>, scope: Scope, lo: int)
    ensures Since(rows, scope, lo) <= |rows|
  {
  }

  lemma RemovingAnEntry(rows: seq<Entry>, k: nat, scope: Scope, lo: int)
    requires k < |rows|
    ensures Since(Without(rows, k), scope, lo) <= Since(rows, scope, lo)
    ensures rows[k].at <= lo ==> Since(Without(rows, k), scope, lo) == Since(rows, scope, lo)
  {
    assert rows == rows[..k] + [rows[k]] + rows[k + 1..];
    SinceAppends(rows[..k] + [rows[k]], rows[k + 1..], scope, lo);
    SinceAppends(rows[..k], [rows[k]], scope, lo);
    SinceAppends(rows[..k], rows[k + 1..], scope, lo);
  }

  // ------------------------------------------------------------------ what every run keeps

  ghost predicate EntryOk(s: Ledger, e: Entry) {
    e.at <= s.now && e.invite in s.invites && s.invites[e.invite] == e.space
  }

  /** The log never has more than the history, and after the last purge's cutoff it has lost nothing. */
  ghost predicate LogOk(s: Ledger) {
    && (forall scope, lo :: Since(s.log, scope, lo) <= Since(s.history, scope, lo))
    && (forall scope, lo :: lo >= s.purgedTo - LIMIT_WINDOW_MS ==>
                              Since(s.log, scope, lo) == Since(s.history, scope, lo))
  }

  ghost predicate FewOfEachScope(entries: seq<Entry>) {
    forall scope, lo :: Since(entries, scope, lo) <= PerTransaction(scope)
  }

  ghost predicate OpenOk(s: Ledger, p: nat)
    requires p in s.open
  {
    && (forall e :: e in s.open[p] ==> EntryOk(s, e) && e.space == p)
    && FewOfEachScope(s.open[p])
  }

  ghost predicate IdsOk(s: Ledger) {
    forall i :: i in s.invites ==> i < s.nextInvite && s.invites[i] < s.nextSpace
  }

  ghost predicate HistoryOk(s: Ledger) {
    forall e :: e in s.history ==> EntryOk(s, e)
  }

  ghost predicate OpensOk(s: Ledger) {
    forall p :: p in s.open ==> p < s.nextSpace && OpenOk(s, p)
  }

  ghost predicate Inv(s: Ledger) {
    IdsOk(s) && HistoryOk(s) && OpensOk(s) && LogOk(s) && s.purgedTo <= s.now
  }

  lemma CommitKeepsLog(s: Ledger, p: nat)
    requires LogOk(s) && p in s.open
    ensures LogOk(Apply(s, Commit(p)))
  {
    forall scope, lo
      ensures Since(s.log + s.open[p], scope, lo) == Since(s.log, scope, lo) + Since(s.open[p], scope, lo)
      ensures Since(s.history + s.open[p], scope, lo) == Since(s.history, scope, lo) + Since(s.open[p], scope, lo)
    {
      SinceAppends(s.log, s.open[p], scope, lo);
      SinceAppends(s.history, s.open[p], scope, lo);
    }
  }

  lemma PurgeKeepsLog(s: Ledger, t: int, k: nat)
    requires LogOk(s) && s.purgedTo <= s.now
    ensures LogOk(Apply(s, Purge(t, k))) && Apply(s, Purge(t, k)).purgedTo <= s.now
  {
    var s' := Apply(s, Purge(t, k));
    if s' != s {
      forall scope, lo
        ensures Since(s'.log, scope, lo) <= Since(s.log, scope, lo)
        ensures s.log[k].at <= lo ==> Since(s'.log, scope, lo) == Since(s.log, scope, lo)
      {
        RemovingAnEntry(s.log, k, scope, lo);
      }
    }
  }

  // ------------------------------------------------------------------ what a transaction writes

  lemma OneEntryIsFew(e: Entry)
    ensures FewOfEachScope([e])
  {
    forall scope, lo ensures Since([e], scope, lo) <= PerTransaction(scope) {
      SinceAtMostAll([e], scope, lo);
    }
  }

  lemma {:induction false} DistinctAddressCountsOnce(s: Ledger, t: int, sender: nat, emails: seq<string>,
      email: string, lo: int, n: nat)
    requires Distinct(emails) && n <= |emails|
    ensures Since(NewEntries(s, t, sender, emails)[..n], ByEmail(email), lo) <= if email in emails[..n] then 1 else 0
  {
    var entries := NewEntries(s, t, sender, emails);
    if n > 0 {
      assert entries[..n][..n - 1] == entries[..n - 1];
      DistinctAddressCountsOnce(s, t, sender, emails, email, lo, n - 1);
      assert emails[..n] == emails[..n - 1] + [emails[n - 1]];
    }
  }

  lemma {:induction false} NewInvitationCountsOnce(s: Ledger, t: int, sender: nat, emails: seq<string>, i: nat,
      lo: int, n: nat)
    requires n <= |emails|
    ensures Since(NewEntries(s, t, sender, emails)[..n], ByInvite(i), lo) <= if i < s.nextInvite + n then 1 else 0
  {
    var entries := NewEntries(s, t, sender, emails);
    if n > 0 {
      assert entries[..n][..n - 1] == entries[..n - 1];
      NewInvitationCountsOnce(s, t, sender, emails, i, lo, n - 1);
      if i == s.nextInvite + n - 1 {
        NoneCounted(entries[..n - 1], ByInvite(i), lo);
      }
    }
  }

  lemma NewEntriesAreFew(s: Ledger, t: int, sender: nat, emails: seq<string>)
    requires Distinct(emails) && |emails| <= MAX_PENDING_INVITES_PER_SPACE
    ensures FewOfEachScope(NewEntries(s, t, sender, emails))
  {
    var entries := NewEntries(s, t, sender, emails);
    assert entries[..|emails|] == entries;
    forall scope, lo ensures Since(entries, scope, lo) <= PerTransaction(scope) {
      SinceAtMostAll(entries, scope, lo);
      match scope {
        case ByInvite(i) => NewInvitationCountsOnce(s, t, sender, emails, i, lo, |emails|);
        case ByEmail(m) => DistinctAddressCountsOnce(s, t, sender, emails, m, lo, |emails|);
        case _ =>
      }
    }
  }

  lemma OpensGrow(s: Ledger, s': Ledger, p: nat, entries: seq<Entry>)
    requires OpensOk(s) && s'.open == s.open[p := entries] && s.now == s'.now && p < s'.nextSpace
    requires s.nextSpace <= s'.nextSpace
    requires forall i :: i in s.invites ==> i in s'.invites && s'.invites[i] == s.invites[i]
    requires FewOfEachScope(entries) && forall e :: e in entries ==> EntryOk(s', e) && e.space == p
    ensures OpensOk(s')
  {
    forall q | q in s'.open ensures q < s'.nextSpace && OpenOk(s', q) {
      if q != p {
        assert OpenOk(s, q);
      }
    }
  }

  lemma SchedulingKeepsOpens(s: Ledger, e: Event)
    requires IdsOk(s) && OpensOk(s) && Schedules(e)
    ensures OpensOk(Apply(s, e))
  {
    var s' := Apply(s, e);
    if s' != s {
      match e {
        case NewSpace(t, sender, emails) =>
          NewEntriesAreFew(s, t, sender, emails);
          OpensGrow(s, s', s.nextSpace, NewEntries(s, t, sender, emails));
        case NewInvite(t, space, sender, email) =>
          var entry := Entry(s.nextInvite, space, email, sender, t);
          OneEntryIsFew(entry);
          OpensGrow(s, s', space, [entry]);
        case Resend(t, i, sender, email) =>
          var entry := Entry(i, s.invites[i], email, sender, t);
          OneEntryIsFew(entry);
          OpensGrow(s, s', s.invites[i], [entry]);
      }
    }
  }

  lemma OtherStepsKeepOpens(s: Ledger, e: Event)
    requires OpensOk(s) && !Schedules(e)
    ensures OpensOk(Apply(s, e))
  {
    var s' := Apply(s, e);
    forall p | p in s'.open ensures p < s'.nextSpace && OpenOk(s', p) {
      assert OpenOk(s, p);
    }
  }

  lemma ApplyKeepsIds(s: Ledger, e: Event)
    requires IdsOk(s)
    ensures IdsOk(Apply(s, e))
    ensures forall i :: i in s.invites ==> i in Apply(s, e).invites && Apply(s, e).invites[i] == s.invites[i]
  {
  }

  lemma ApplyKeepsHistory(s: Ledger, e: Event)
    requires IdsOk(s) && HistoryOk(s) && OpensOk(s)
    ensures HistoryOk(Apply(s, e))
  {
    ApplyKeepsIds(s, e);
    var s' := Apply(s, e);
    if e.Commit? && e.space in s.open {
      assert OpenOk(s, e.space);
      forall h | h in s'.history ensures EntryOk(s', h) {
        assert h in s.history || h in s.open[e.space];
      }
    } else {
      forall h | h in s'.history ensures EntryOk(s', h) {
        assert EntryOk(s, h);
      }
    }
  }

  lemma ApplyKeepsLog(s: Ledger, e: Event)
    requires LogOk(s) && s.purgedTo <= s.now
    ensures LogOk(Apply(s, e)) && Apply(s, e).purgedTo <= Apply(s, e).now
  {
    match e
    case Commit(p) => if p in s.open { CommitKeepsLog(s, p); }
    case Purge(t, k) => PurgeKeepsLog(s, t, k);
    case _ =>
      assert Apply(s, e).log == s.log && Apply(s, e).history == s.history && Apply(s, e).purgedTo == s.purgedTo;
  }

  lemma ApplyKeepsInv(s: Ledger, e: Event)
    requires Inv(s)
    ensures Inv(Apply(s, e))
  {
    ApplyKeepsIds(s, e);
    ApplyKeepsHistory(s, e);
    ApplyKeepsLog(s, e);
    if Schedules(e) {
      SchedulingKeepsOpens(s, e);
    } else {
      OtherStepsKeepOpens(s, e);
    }
  }

  lemma {:induction false} EveryRunKeepsInv(s: Ledger, events: seq<Event>)
    requires Inv(s)
    ensures Inv(After(s, events))
  {
    if events != [] {
      EveryRunKeepsInv(s, events[..|events| - 1]);
      ApplyKeepsInv(After(s, events[..|events| - 1]), events[|events| - 1]);
    }
  }

  lemma InitKeepsInv(s: Ledger)
    requires Init(s)
    ensures Inv(s)
  {
  }

  // ------------------------------------------------------------------ open transactions

  /** The scope's entries in (lo, hi] that the open transactions of the first n spaces are about to commit. */
  ghost function OpenWithin(open: Open, n: nat, scope: Scope, lo: int, hi: int): nat {
    if n == 0 then 0
    else OpenWithin(open, n - 1, scope, lo, hi) + if n - 1 in open then Within(open[n - 1], scope, lo, hi) else 0
  }

  ghost predicate AgreeBelow(a: Open, b: Open, n: nat) {
    forall p :: 0 <= p < n ==> (p in a <==> p in b) && (p in a ==> a[p] == b[p])
  }

  lemma {:induction false} AgreeingCountTheSame(a: Open, b: Open, n: nat, scope: Scope, lo: int, hi: int)
    requires AgreeBelow(a, b, n)
    ensures OpenWithin(a, n, scope, lo, hi) == OpenWithin(b, n, scope, lo, hi)
    ensures Touching(a, n, scope) == Touching(b, n, scope)
  {
    if n > 0 {
      AgreeingCountTheSame(a, b, n - 1, scope, lo, hi);
    }
  }

  lemma {:induction false} OneTransactionLess(open: Open, p: nat, n: nat, scope: Scope, lo: int, hi: int)
    requires p in open && p < n
    ensures OpenWithin(open, n, scope, lo, hi)
            == OpenWithin(open - {p}, n, scope, lo, hi) + Within(open[p], scope, lo, hi)
    ensures Touching(open, n, scope) == Touching(open - {p}, n, scope) + if Touches(open[p], scope) then 1 else 0
  {
    if p == n - 1 {
      AgreeingCountTheSame(open, open - {p}, n - 1, scope, lo, hi);
    } else {
      OneTransactionLess(open, p, n - 1, scope, lo, hi);
    }
  }

  lemma {:induction false} EachTransactionWritesFew(open: Open, n: nat, scope: Scope, lo: int, hi: int)
    requires forall p :: p in open ==> FewOfEachScope(open[p])
    ensures OpenWithin(open, n, scope, lo, hi) <= Touching(open, n, scope) * PerTransaction(scope)
  {
    if n > 0 {
      EachTransactionWritesFew(open, n - 1, scope, lo, hi);
      if n - 1 in open {
        WithinIsPartOfSince(open[n - 1], scope, lo, hi);
        if !Touches(open[n - 1], scope) {
          NothingWithin(open[n - 1], scope, lo, hi);
        }
      }
    }
  }

  lemma {:induction false} NobodyTouches(open: Open, n: nat, scope: Scope)
    requires forall p :: p in open && p < n ==> !Touches(open[p], scope)
    ensures Touching(open, n, scope) == 0
  {
    if n > 0 {
      NobodyTouches(open, n - 1, scope);
    }
  }

  lemma {:induction false} OnlyOneTouches(open: Open, n: nat, scope: Scope, only: nat)
    requires forall p :: p in open && Touches(open[p], scope) ==> p == only
    ensures Touching(open, n, scope) <= 1
  {
    if n > 0 {
      if n - 1 == only {
        NobodyTouches(open, n - 1, scope);
      } else {
        OnlyOneTouches(open, n - 1, scope, only);
      }
    }
  }

  // ------------------------------------------------------------------ committed and open entries together

  /** The limit, and what the transactions that overlap another one may add to it. */
  function Bound(scope: Scope, d: nat): nat {
    LimitOf(scope) + d * PerTransaction(scope)
  }

  /** Committed and open entries of the scope in the span. */
  ghost function Total(s: Ledger, scope: Scope, lo: int, hi: int): nat {
    Within(s.history, scope, lo, hi) + OpenWithin(s.open, s.nextSpace, scope, lo, hi)
  }

  ghost predicate BoundHolds(s: Ledger, scope: Scope, d: nat, lag: nat) {
    forall lo, hi :: hi <= lo + LIMIT_WINDOW_MS - lag ==> Total(s, scope, lo, hi) <= Bound(scope, d)
  }

  lemma CommitKeepsTotal(s: Ledger, p: nat, scope: Scope, lo: int, hi: int)
    requires OpensOk(s)
    ensures Total(Apply(s, Commit(p)), scope, lo, hi) == Total(s, scope, lo, hi)
  {
    if p in s.open {
      OneTransactionLess(s.open, p, s.nextSpace, scope, lo, hi);
      WithinAppends(s.history, s.open[p], scope, lo, hi);
    }
  }

  lemma AbortLowersTotal(s: Ledger, p: nat, scope: Scope, lo: int, hi: int)
    requires OpensOk(s)
    ensures Total(Apply(s, Abort(p)), scope, lo, hi) <= Total(s, scope, lo, hi)
  {
    if p in s.open {
      OneTransactionLess(s.open, p, s.nextSpace, scope, lo, hi);
    } else {
      assert s.open - {p} == s.open;
    }
  }

  lemma OtherStepsKeepBound(s: Ledger, e: Event, scope: Scope, d: nat, lag: nat)
    requires OpensOk(s) && BoundHolds(s, scope, d, lag) && !Schedules(e)
    ensures BoundHolds(Apply(s, e), scope, d, lag)
  {
    var s' := Apply(s, e);
    forall lo, hi | hi <= lo + LIMIT_WINDOW_MS - lag ensures Total(s', scope, lo, hi) <= Bound(scope, d) {
      assert Total(s, scope, lo, hi) <= Bound(scope, d);
      match e {
        case Commit(p) => CommitKeepsTotal(s, p, scope, lo, hi);
        case Abort(p) => AbortLowersTotal(s, p, scope, lo, hi);
        case _ =>
      }
    }
  }

  /** The log shows a check everything in a span that the lag leaves of its window. */
  lemma CheckSeesTheSpan(s: Ledger, scope: Scope, t: int, lag: nat, lo: int, hi: int)
    requires LogOk(s) && t + lag >= s.purgedTo && lo < t <= hi <= lo + LIMIT_WINDOW_MS - lag
    ensures Within(s.history, scope, lo, hi) <= Since(s.log, scope, t - LIMIT_WINDOW_MS)
  {
    WithinIsPartOfSince(s.history, scope, lo, hi);
    SinceGrowsBackwards(s.log, scope, lo, t - LIMIT_WINDOW_MS);
  }

  /** Entries that were checked at t and fill a free slot p. */
  ghost predicate Joins(s: Ledger, s': Ledger, p: nat, entries: seq<Entry>, t: int) {
    && p !in s.open && s'.open == s.open[p := entries]
    && p <= s.nextSpace && s'.nextSpace == (if p < s.nextSpace then s.nextSpace else p + 1)
    && s'.history == s.history && (forall e :: e in entries ==> e.at == t)
  }

  ghost predicate Fits(s: Ledger, scope: Scope, entries: seq<Entry>, t: int) {
    Since(s.log, scope, t - LIMIT_WINDOW_MS) + Since(entries, scope, t - LIMIT_WINDOW_MS) <= LimitOf(scope)
  }

  lemma JoiningCounts(s: Ledger, s': Ledger, p: nat, entries: seq<Entry>, t: int, scope: Scope, lo: int, hi: int)
    requires OpensOk(s) && Joins(s, s', p, entries, t)
    ensures Total(s', scope, lo, hi) == Total(s, scope, lo, hi) + Within(entries, scope, lo, hi)
    ensures Touching(s'.open, s'.nextSpace, scope)
            == Touching(s.open, s.nextSpace, scope) + if Touches(entries, scope) then 1 else 0
  {
    OneTransactionLess(s'.open, p, s'.nextSpace, scope, lo, hi);
    assert s'.open - {p} == s.open;
  }

  lemma JoiningKeepsSpan(s: Ledger, s': Ledger, p: nat, entries: seq<Entry>, t: int, scope: Scope, d: nat, lag: nat,
      lo: int, hi: int)
    requires LogOk(s) && OpensOk(s) && Joins(s, s', p, entries, t) && hi <= lo + LIMIT_WINDOW_MS - lag
    requires Total(s, scope, lo, hi) <= Bound(scope, d) && t + lag >= s.purgedTo
    requires Touching(s'.open, s'.nextSpace, scope) <= d + 1
    requires Touches(entries, scope) ==> Fits(s, scope, entries, t)
    ensures Total(s', scope, lo, hi) <= Bound(scope, d)
  {
    JoiningCounts(s, s', p, entries, t, scope, lo, hi);
    if Touches(entries, scope) && lo < t <= hi {
      CheckSeesTheSpan(s, scope, t, lag, lo, hi);
      WithinIsPartOfSince(entries, scope, lo, hi);
      SinceGrowsBackwards(entries, scope, lo, t - LIMIT_WINDOW_MS);
      forall q | q in s.open ensures FewOfEachScope(s.open[q]) {
        assert OpenOk(s, q);
      }
      EachTransactionWritesFew(s.open, s.nextSpace, scope, lo, hi);
      ProductGrows(Touching(s.open, s.nextSpace, scope), d, PerTransaction(scope));
    } else {
      NothingWithin(entries, scope, lo, hi);
    }
  }

  lemma ProductGrows(a: nat, b: nat, m: nat)
    requires a <= b
    ensures a * m <= b * m
  {
  }

  lemma JoiningKeepsBound(s: Ledger, s': Ledger, p: nat, entries: seq<Entry>, t: int, scope: Scope, d: nat, lag: nat)
    requires LogOk(s) && OpensOk(s) && BoundHolds(s, scope, d, lag) && Joins(s, s', p, entries, t)
    requires t + lag >= s.purgedTo && Touching(s'.open, s'.nextSpace, scope) <= d + 1
    requires Touches(entries, scope) ==> Fits(s, scope, entries, t)
    ensures BoundHolds(s', scope, d, lag)
  {
    forall lo, hi | hi <= lo + LIMIT_WINDOW_MS - lag ensures Total(s', scope, lo, hi) <= Bound(scope, d) {
      assert Total(s, scope, lo, hi) <= Bound(scope, d);
      JoiningKeepsSpan(s, s', p, entries, t, scope, d, lag, lo, hi);
    }
  }

  // ------------------------------------------------------------------ what a check promises

  /** An invitation or a space that does not exist yet has no entries. */
  lemma NothingLoggedYet(s: Ledger, scope: Scope, lo: int)
    requires LogOk(s) && HistoryOk(s) && IdsOk(s)
    requires (scope.ByInvite? && scope.invite >= s.nextInvite) || (scope.BySpace? && scope.space >= s.nextSpace)
    ensures Since(s.log, scope, lo) == 0
  {
    forall h | h in s.history ensures !Counts(scope, h) {
      assert EntryOk(s, h);
    }
    NoneCounted(s.history, scope, lo);
  }

  lemma NewSpaceEntriesFit(s: Ledger, scope: Scope, t: int, sender: nat, emails: seq<string>)
    requires Inv(s) && |emails| <= MAX_PENDING_INVITES_PER_SPACE && Distinct(emails)
    requires !Refuses(s.log, Request(sender, None, emails, None), t)
    requires Touches(NewEntries(s, t, sender, emails), scope)
    ensures Fits(s, scope, NewEntries(s, t, sender, emails), t)
  {
    var entries := NewEntries(s, t, sender, emails);
    NewEntriesAreFew(s, t, sender, emails);
    SinceAtMostAll(entries, scope, t - LIMIT_WINDOW_MS);
    match scope {
      case ByInvite(_) => NothingLoggedYet(s, scope, t - LIMIT_WINDOW_MS);
      case BySpace(_) => NothingLoggedYet(s, scope, t - LIMIT_WINDOW_MS);
      case BySender(_) =>
      case ByEmail(m) =>
        var k :| 0 <= k < |emails| && emails[k] == m;
        assert !Exceeds(s.log, ByEmail(emails[k]), 1, t);
    }
  }

  lemma OneEntryFits(s: Ledger, scope: Scope, e: Entry, invite: Option<nat>)
    requires Inv(s) && Counts(scope, e)
    requires !Refuses(s.log, Request(e.sender, Some(e.space), [e.email], invite), e.at)
    requires if invite.Some? then e.invite == invite.value else e.invite == s.nextInvite
    ensures Fits(s, scope, [e], e.at)
  {
    SinceAtMostAll([e], scope, e.at - LIMIT_WINDOW_MS);
    if scope.ByInvite? && invite.None? {
      NothingLoggedYet(s, scope, e.at - LIMIT_WINDOW_MS);
    }
    if scope.ByEmail? {
      assert !Exceeds(s.log, ByEmail([e.email][0]), 1, e.at);
    }
  }

  lemma TouchedByOne(e: Entry, scope: Scope)
    ensures Touches([e], scope) <==> Counts(scope, e)
  {
    assert e in [e];
  }

  lemma NewSpaceKeepsBound(s: Ledger, e: Event, scope: Scope, d: nat, lag: nat)
    requires Inv(s) && BoundHolds(s, scope, d, lag) && e.NewSpace? && e.t + lag >= s.purgedTo
    requires Touching(Apply(s, e).open, Apply(s, e).nextSpace, scope) <= d + 1
    ensures BoundHolds(Apply(s, e), scope, d, lag)
  {
    var s' := Apply(s, e);
    if s' != s {
      var entries := NewEntries(s, e.t, e.sender, e.emails);
      if Touches(entries, scope) {
        NewSpaceEntriesFit(s, scope, e.t, e.sender, e.emails);
      }
      JoiningKeepsBound(s, s', s.nextSpace, entries, e.t, scope, d, lag);
    }
  }

  lemma OneEmailKeepsBound(s: Ledger, e: Event, scope: Scope, d: nat, lag: nat)
    requires Inv(s) && BoundHolds(s, scope, d, lag) && (e.NewInvite? || e.Resend?) && e.t + lag >= s.purgedTo
    requires Touching(Apply(s, e).open, Apply(s, e).nextSpace, scope) <= d + 1
    ensures BoundHolds(Apply(s, e), scope, d, lag)
  {
    var s' := Apply(s, e);
    if s' != s {
      var (p, invite) := if e.NewInvite? then (e.space, None) else (s.invites[e.invite], Some(e.invite));
      var entry := Entry(if e.NewInvite? then s.nextInvite else e.invite, p, e.email, e.sender, e.t);
      TouchedByOne(entry, scope);
      if Counts(scope, entry) {
        OneEntryFits(s, scope, entry, invite);
      }
      JoiningKeepsBound(s, s', p, [entry], e.t, scope, d, lag);
    }
  }

  lemma ApplyKeepsBound(s: Ledger, e: Event, scope: Scope, d: nat, lag: nat)
    requires Inv(s) && BoundHolds(s, scope, d, lag) && (Schedules(e) ==> e.t + lag >= s.purgedTo)
    requires Touching(Apply(s, e).open, Apply(s, e).nextSpace, scope) <= d + 1
    ensures BoundHolds(Apply(s, e), scope, d, lag)
  {
    if e.NewSpace? {
      NewSpaceKeepsBound(s, e, scope, d, lag);
    } else if Schedules(e) {
      OneEmailKeepsBound(s, e, scope, d, lag);
    } else {
      OtherStepsKeepBound(s, e, scope, d, lag);
    }
  }

  lemma {:induction false} RunsKeepBound(init: Ledger, events: seq<Event>, scope: Scope, d: nat, lag: nat)
    requires Init(init) && OverlapAtMost(init, events, scope, d) && LagAtMost(init, events, lag)
    ensures BoundHolds(After(init, events), scope, d, lag)
  {
    if events == [] {
      NothingIsOpenYet(init, scope, d, lag);
    } else {
      var last := |events| - 1;
      RunsKeepBound(init, events[..last], scope, d, lag);
      InitKeepsInv(init);
      EveryRunKeepsInv(init, events[..last]);
      ApplyKeepsBound(After(init, events[..last]), events[last], scope, d, lag);
    }
  }

  lemma NothingIsOpenYet(init: Ledger, scope: Scope, d: nat, lag: nat)
    requires Init(init)
    ensures BoundHolds(init, scope, d, lag)
  {
    forall lo, hi ensures Total(init, scope, lo, hi) == 0 {
      NobodyTouches(init.open, init.nextSpace, scope);
      EachTransactionWritesFew(init.open, init.nextSpace, scope, lo, hi);
    }
  }

  // ------------------------------------------------------------------ the results

  /**
   In every run, and in any 24 hours less the greatest lag of a request's clock behind a purge's, a scope
   has at most its limit, and what the transactions that overlap another one of the scope can write.
   */
  lemma OverlapAddsAtMostItsEntries(init: Ledger, events: seq<Event>, scope: Scope, d: nat, lag: nat, lo: int)
    requires Init(init) && OverlapAtMost(init, events, scope, d) && LagAtMost(init, events, lag)
    ensures Within(After(init, events).history, scope, lo, lo + LIMIT_WINDOW_MS - lag)
            <= LimitOf(scope) + d * PerTransaction(scope)
  {
    RunsKeepBound(init, events, scope, d, lag);
    assert Total(After(init, events), scope, lo, lo + LIMIT_WINDOW_MS - lag) <= Bound(scope, d);
  }

  /** Without overlap any scope keeps its limit. */
  lemma LimitHoldsWithoutOverlap(init: Ledger, events: seq<Event>, scope: Scope, lag: nat, lo: int)
    requires Init(init) && OverlapAtMost(init, events, scope, 0) && LagAtMost(init, events, lag)
    ensures Within(After(init, events).history, scope, lo, lo + LIMIT_WINDOW_MS - lag) <= LimitOf(scope)
  {
    OverlapAddsAtMostItsEntries(init, events, scope, 0, lag, lo);
  }

  /** The space lock keeps the transactions of an invitation and of a space apart. */
  lemma SpaceLockExcludes(s: Ledger, scope: Scope)
    requires Inv(s) && (scope.ByInvite? || scope.BySpace?)
    ensures Touching(s.open, s.nextSpace, scope) <= 1
  {
    var only := if scope.BySpace? then scope.space
                else if scope.invite in s.invites then s.invites[scope.invite]
                else 0;
    forall p | p in s.open && Touches(s.open[p], scope) ensures p == only {
      assert OpenOk(s, p);
    }
    OnlyOneTouches(s.open, s.nextSpace, scope, only);
  }

  lemma {:induction false} SpaceLockedRunsDoNotOverlap(init: Ledger, events: seq<Event>, scope: Scope)
    requires Init(init) && (scope.ByInvite? || scope.BySpace?)
    ensures OverlapAtMost(init, events, scope, 0)
  {
    InitKeepsInv(init);
    EveryRunKeepsInv(init, events);
    SpaceLockExcludes(After(init, events), scope);
    if events != [] {
      SpaceLockedRunsDoNotOverlap(init, events[..|events| - 1], scope);
    }
  }

  /** The limits of an invitation and of a space hold in every interleaving. */
  lemma InviteAndSpaceLimitsAreExact(init: Ledger, events: seq<Event>, i: nat, space: nat, lag: nat, lo: int)
    requires Init(init) && LagAtMost(init, events, lag)
    ensures Within(After(init, events).history, ByInvite(i), lo, lo + LIMIT_WINDOW_MS - lag) <= PER_INVITE
    ensures Within(After(init, events).history, BySpace(space), lo, lo + LIMIT_WINDOW_MS - lag) <= PER_SPACE
  {
    SpaceLockedRunsDoNotOverlap(init, events, ByInvite(i));
    SpaceLockedRunsDoNotOverlap(init, events, BySpace(space));
    LimitHoldsWithoutOverlap(init, events, ByInvite(i), lag, lo);
    LimitHoldsWithoutOverlap(init, events, BySpace(space), lag, lo);
  }

  /**
   What was purged never refuses a request, and never admits one unless a purge with a later clock came
   between the request's two readings.
   */
  lemma PurgingNeverChangesADecision(init: Ledger, events: seq<Event>, r: Request, t: int)
    requires Init(init)
    ensures var s := After(init, events);
            && (Refuses(s.log, r, t) ==> Refuses(s.history, r, t))
            && (t >= s.purgedTo ==> (Refuses(s.log, r, t) <==> Refuses(s.history, r, t)))
  {
    InitKeepsInv(init);
    EveryRunKeepsInv(init, events);
    var s := After(init, events);
    assert forall scope, n: nat :: Exceeds(s.log, scope, n, t) ==> Exceeds(s.history, scope, n, t);
    if t >= s.purgedTo {
      assert forall scope, n: nat :: Exceeds(s.history, scope, n, t) ==> Exceeds(s.log, scope, n, t);
    }
  }

  // ------------------------------------------------------------------ what overlapping requests do

  lemma AfterOneMore(s: Ledger, events: seq<Event>, e: Event)
    ensures After(s, events + [e]) == Apply(After(s, events), e)
  {
    assert (events + [e])[..|events|] == events;
  }

  function Commits(spaces: seq<nat>): seq<Event> {
    if spaces == [] then [] else Commits(spaces[..|spaces| - 1]) + [Commit(spaces[|spaces| - 1])]
  }

  /** The scope's entries in (lo, hi] that these transactions are about to commit. */
  function Pending(s: Ledger, spaces: seq<nat>, scope: Scope, lo: int, hi: int): nat {
    if spaces == [] then 0
    else
      var p := spaces[|spaces| - 1];
      Pending(s, spaces[..|spaces| - 1], scope, lo, hi) + if p in s.open then Within(s.open[p], scope, lo, hi) else 0
  }

  ghost predicate NoRepeats(spaces: seq<nat>) {
    forall j, k :: 0 <= j < k < |spaces| ==> spaces[j] != spaces[k]
  }

  ghost predicate SameOpen(s: Ledger, s': Ledger, p: nat) {
    (p in s'.open <==> p in s.open) && (p in s.open ==> s'.open[p] == s.open[p])
  }

  ghost predicate AddsUp(s: Ledger, spaces: seq<nat>, s': Ledger, scope: Scope, lo: int, hi: int) {
    && Within(s'.history, scope, lo, hi) == Within(s.history, scope, lo, hi) + Pending(s, spaces, scope, lo, hi)
    && (forall p :: p !in spaces ==> SameOpen(s, s', p))
  }

  lemma {:induction false} CommitsAddUp(s: Ledger, spaces: seq<nat>, scope: Scope, lo: int, hi: int)
    requires NoRepeats(spaces)
    ensures AddsUp(s, spaces, After(s, Commits(spaces)), scope, lo, hi)
  {
    if spaces != [] {
      var (init, p) := (spaces[..|spaces| - 1], spaces[|spaces| - 1]);
      CommitsAddUp(s, init, scope, lo, hi);
      AfterOneMore(s, Commits(init), Commit(p));
      OneMoreAddsUp(s, spaces, After(s, Commits(init)), scope, lo, hi);
    }
  }

  lemma OneMoreAddsUp(s: Ledger, spaces: seq<nat>, before: Ledger, scope: Scope, lo: int, hi: int)
    requires spaces != [] && NoRepeats(spaces) && AddsUp(s, spaces[..|spaces| - 1], before, scope, lo, hi)
    ensures AddsUp(s, spaces, Apply(before, Commit(spaces[|spaces| - 1])), scope, lo, hi)
  {
    var (init, p) := (spaces[..|spaces| - 1], spaces[|spaces| - 1]);
    assert spaces == init + [p] && p !in init;
    OneMoreCommit(s, before, p, scope, lo, hi);
    var after := Apply(before, Commit(p));
    forall q | q !in spaces ensures SameOpen(s, after, q) {
      assert SameOpen(s, before, q) && SameOpen(before, after, q);
    }
  }

  lemma OneMoreCommit(s: Ledger, before: Ledger, p: nat, scope: Scope, lo: int, hi: int)
    requires SameOpen(s, before, p)
    ensures var after := Apply(before, Commit(p));
            && Within(after.history, scope, lo, hi)
               == Within(before.history, scope, lo, hi) + (if p in s.open then Within(s.open[p], scope, lo, hi) else 0)
            && forall q :: q != p ==> SameOpen(before, after, q)
  {
    if p in s.open {
      WithinAppends(before.history, s.open[p], scope, lo, hi);
    }
  }

  function InADay(s: Ledger, scope: Scope, lo: int): nat {
    Within(s.history, scope, lo, lo + LIMIT_WINDOW_MS)
  }

  ghost predicate WindowsOk(s: Ledger, scope: Scope) {
    forall lo :: InADay(s, scope, lo) <= LimitOf(scope)
  }

  /**
   Overlap alone breaks nothing: when transactions that are open commit, the scope's limit holds in every
   24 hours exactly if what is committed and what they commit stays within it.
   */
  lemma OverlapBreaksTheLimitExactly(s: Ledger, spaces: seq<nat>, scope: Scope)
    requires NoRepeats(spaces)
    ensures WindowsOk(After(s, Commits(spaces)), scope) <==>
            forall lo :: InADay(s, scope, lo) + Pending(s, spaces, scope, lo, lo + LIMIT_WINDOW_MS) <= LimitOf(scope)
  {
    var s' := After(s, Commits(spaces));
    if WindowsOk(s', scope) {
      forall lo
        ensures InADay(s, scope, lo) + Pending(s, spaces, scope, lo, lo + LIMIT_WINDOW_MS) <= LimitOf(scope)
      {
        CommitsAddUp(s, spaces, scope, lo, lo + LIMIT_WINDOW_MS);
        assert InADay(s', scope, lo) <= LimitOf(scope);
      }
    } else {
      var lo :| InADay(s', scope, lo) > LimitOf(scope);
      CommitsAddUp(s, spaces, scope, lo, lo + LIMIT_WINDOW_MS);
      assert InADay(s, scope, lo) + Pending(s, spaces, scope, lo, lo + LIMIT_WINDOW_MS) > LimitOf(scope);
    }
  }

  // ------------------------------------------------------------------ the cooldown

  ghost predicate HistorySpaced(rows: seq<Entry>, i: nat) {
    forall j, k :: 0 <= j < k < |rows| && rows[j].invite == i && rows[k].invite == i ==>
                     rows[j].at + RESEND_COOLDOWN_MS <= rows[k].at
  }

  ghost predicate CooledBy(rows: seq<Entry>, i: nat, at: int) {
    forall h :: h in rows && h.invite == i ==> h.at + RESEND_COOLDOWN_MS <= at
  }

  ghost predicate OpenSpaced(rows: seq<Entry>, entries: seq<Entry>, i: nat) {
    && (forall e :: e in entries && e.invite == i ==> CooledBy(rows, i, e.at))
    && (forall j, k :: 0 <= j < k < |entries| ==> entries[j].invite != entries[k].invite)
  }

  ghost predicate OpensSpaced(s: Ledger, i: nat) {
    forall p :: p in s.open ==> OpenSpaced(s.history, s.open[p], i)
  }

  /** Emails of one invitation are at least the cooldown apart, committed or about to be. */
  ghost predicate Spaced(s: Ledger, i: nat) {
    HistorySpaced(s.history, i) && OpensSpaced(s, i)
  }

  lemma CommittedIsSpaced(rows: seq<Entry>, entries: seq<Entry>, i: nat)
    requires HistorySpaced(rows, i) && OpenSpaced(rows, entries, i)
    ensures HistorySpaced(rows + entries, i)
  {
    var all := rows + entries;
    forall j, k | 0 <= j < k < |all| && all[j].invite == i && all[k].invite == i
      ensures all[j].at + RESEND_COOLDOWN_MS <= all[k].at
    {
      if k >= |rows| {
        assert all[k] in entries && CooledBy(rows, i, all[k].at);
        if j < |rows| {
          assert all[j] in rows;
        }
      }
    }
  }

  /** Only one open transaction writes an invitation's entries, that of its space. */
  lemma OthersStaySpaced(s: Ledger, p: nat, q: nat, i: nat)
    requires OpensOk(s) && OpensSpaced(s, i) && p in s.open && q in s.open && p != q
    ensures OpenSpaced(s.history + s.open[p], s.open[q], i)
  {
    assert OpenOk(s, p) && OpenOk(s, q) && OpenSpaced(s.history, s.open[q], i);
    forall e | e in s.open[q] && e.invite == i ensures CooledBy(s.history + s.open[p], i, e.at) {
      assert CooledBy(s.history, i, e.at) && s.invites[i] == q;
      forall h | h in s.open[p] ensures h.invite != i {
        assert EntryOk(s, h);
      }
    }
  }

  lemma CommitKeepsSpaced(s: Ledger, p: nat, i: nat)
    requires OpensOk(s) && Spaced(s, i) && p in s.open
    ensures Spaced(Apply(s, Commit(p)), i)
  {
    assert OpenSpaced(s.history, s.open[p], i);
    CommittedIsSpaced(s.history, s.open[p], i);
    forall q | q in s.open && q != p ensures OpenSpaced(s.history + s.open[p], s.open[q], i) {
      OthersStaySpaced(s, p, q, i);
    }
  }

  /** The most a check may lag for its cooldown to see the last email. */
  const COOLDOWN_LAG_MS := LIMIT_WINDOW_MS - RESEND_COOLDOWN_MS

  lemma ResendIsCooled(s: Ledger, i: nat, sender: nat, email: string, t: int)
    requires LogOk(s) && i in s.invites && t + COOLDOWN_LAG_MS >= s.purgedTo
    requires !Refuses(s.log, Request(sender, Some(s.invites[i]), [email], Some(i)), t)
    ensures CooledBy(s.history, i, t)
  {
    forall h | h in s.history && h.invite == i ensures h.at + RESEND_COOLDOWN_MS <= t {
      if h.at > t - RESEND_COOLDOWN_MS {
        CountedEntryIsCounted(s.history, ByInvite(i), t - RESEND_COOLDOWN_MS, h);
      }
    }
  }

  lemma NewInviteIsCooled(s: Ledger, i: nat, at: int)
    requires HistoryOk(s) && IdsOk(s) && i >= s.nextInvite
    ensures CooledBy(s.history, i, at)
  {
    forall h | h in s.history ensures h.invite != i {
      assert EntryOk(s, h);
    }
  }

  lemma SchedulingKeepsSpaced(s: Ledger, e: Event, i: nat)
    requires Inv(s) && Spaced(s, i) && Schedules(e) && e.t + COOLDOWN_LAG_MS >= s.purgedTo
    ensures Spaced(Apply(s, e), i)
  {
    var s' := Apply(s, e);
    forall p | p in s'.open ensures OpenSpaced(s.history, s'.open[p], i) {
      if p in s.open && s'.open[p] == s.open[p] {
        assert OpenSpaced(s.history, s.open[p], i);
      } else if e.Resend? {
        ResendIsCooled(s, e.invite, e.sender, e.email, e.t);
      } else if i >= s.nextInvite {
        NewInviteIsCooled(s, i, e.t);
      }
    }
  }

  lemma ApplyKeepsSpaced(s: Ledger, e: Event, i: nat)
    requires Inv(s) && Spaced(s, i) && (Schedules(e) ==> e.t + COOLDOWN_LAG_MS >= s.purgedTo)
    ensures Spaced(Apply(s, e), i)
  {
    if Schedules(e) {
      SchedulingKeepsSpaced(s, e, i);
    } else if e.Commit? && e.space in s.open {
      CommitKeepsSpaced(s, e.space, i);
    } else {
      forall p | p in Apply(s, e).open ensures OpenSpaced(s.history, s.open[p], i) {
      }
    }
  }

  lemma {:induction false} EmailsOfAnInvitationAreSpaced(init: Ledger, events: seq<Event>, i: nat)
    requires Init(init) && LagAtMost(init, events, COOLDOWN_LAG_MS)
    ensures Spaced(After(init, events), i)
  {
    InitKeepsInv(init);
    if events != [] {
      var last := |events| - 1;
      EmailsOfAnInvitationAreSpaced(init, events[..last], i);
      EveryRunKeepsInv(init, events[..last]);
      ApplyKeepsSpaced(After(init, events[..last]), events[last], i);
    }
  }
}
