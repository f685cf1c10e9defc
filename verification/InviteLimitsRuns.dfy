/** Runs that reach the bounds on the limits: the bound of overlap is tight, and so is that of the clocks' lag. */
module InviteLimitsRuns {
  import opened Basics
  import opened InviteLimits
  import opened InviteLimitsProofs

  const ADDRESS := "a@b.c"

  ghost function Quiet(spaces: nat): Ledger {
    Ledger(0, spaces, 0, map[], [], [], 0, map[])
  }

  /** One more step of a run that has led to s. */
  lemma StepOn(init: Ledger, events: seq<Event>, s: Ledger, e: Event, lag: nat)
    requires s == After(init, events) && LagAtMost(init, events, lag) && (Schedules(e) ==> e.t + lag >= s.purgedTo)
    ensures After(init, events + [e]) == Apply(s, e) && LagAtMost(init, events + [e], lag)
  {
    assert (events + [e])[..|events|] == events;
  }

  lemma OverlapGoesOn(init: Ledger, events: seq<Event>, e: Event, scope: Scope, d: nat)
    requires OverlapAtMost(init, events, scope, d)
    requires var s := Apply(After(init, events), e); Touching(s.open, s.nextSpace, scope) <= d + 1
    ensures OverlapAtMost(init, events + [e], scope, d)
  {
    AfterOneMore(init, events, e);
    assert (events + [e])[..|events|] == events;
  }

  // ------------------------------------------------------------------ overlapping requests to one address

  function Invitation(p: nat): Event {
    NewInvite(0, p, p, ADDRESS)
  }

  /** Spaces below j have committed their email to the address, those from j to n - 1 are about to. */
  ghost predicate Racing(s: Ledger, spaces: nat, j: nat, n: nat) {
    && s.now == 0 && s.purgedTo == 0 && s.nextSpace == spaces && s.nextInvite == n
    && s.history == s.log && |s.log| == j
    && (forall e :: e in s.log ==> e.email == ADDRESS && e.at == 0 && e.space < j && e.sender < j)
    && (forall p :: p in s.open <==> j <= p < n)
    && (forall p :: p in s.open ==> s.open[p] == [Entry(p, p, ADDRESS, p, 0)])
  }

  lemma OneMoreOpens(s: Ledger, spaces: nat, j: nat, n: nat)
    requires Racing(s, spaces, j, n) && n < spaces && j <= n && j < PER_RECIPIENT
    ensures Racing(Apply(s, Invitation(n)), spaces, j, n + 1)
  {
    NoneCounted(s.log, BySpace(n), -LIMIT_WINDOW_MS);
    NoneCounted(s.log, BySender(n), -LIMIT_WINDOW_MS);
    SinceAtMostAll(s.log, ByEmail(ADDRESS), -LIMIT_WINDOW_MS);
    assert !Refuses(s.log, Request(n, Some(n), [ADDRESS], None), 0);
  }

  lemma OneMoreCommits(s: Ledger, spaces: nat, j: nat, n: nat)
    requires Racing(s, spaces, j, n) && j < n
    ensures Racing(Apply(s, Commit(j)), spaces, j + 1, n)
  {
  }

  lemma {:induction false} AtMostThoseBetween(open: Open, m: nat, scope: Scope, j: nat, n: nat)
    requires forall p :: p in open ==> j <= p < n
    ensures Touching(open, m, scope) <= if m <= j then 0 else if m < n then m - j else if j <= n then n - j else 0
  {
    if m > 0 {
      AtMostThoseBetween(open, m - 1, scope, j, n);
    }
  }

  /** A run to this state overlaps no more than it may, with every clock in time. */
  ghost predicate LeadsTo(spaces: nat, events: seq<Event>, d: nat, s: Ledger) {
    && s == After(Quiet(spaces), events)
    && OverlapAtMost(Quiet(spaces), events, ByEmail(ADDRESS), d)
    && LagAtMost(Quiet(spaces), events, 0)
  }

  lemma RacingGoesOn(spaces: nat, events: seq<Event>, s: Ledger, e: Event, d: nat, j: nat, n: nat)
    requires LeadsTo(spaces, events, d, s) && s.purgedTo == 0 && (Schedules(e) ==> e.t == 0)
    requires Racing(Apply(s, e), spaces, j, n) && j <= n <= j + d + 1
    ensures LeadsTo(spaces, events + [e], d, Apply(s, e))
  {
    var s' := Apply(s, e);
    AtMostThoseBetween(s'.open, s'.nextSpace, ByEmail(ADDRESS), j, n);
    OverlapGoesOn(Quiet(spaces), events, e, ByEmail(ADDRESS), d);
    StepOn(Quiet(spaces), events, s, e, 0);
  }

  lemma RaceOpens(spaces: nat, events: seq<Event>, s: Ledger, d: nat, j: nat, n: nat)
    returns (more: seq<Event>, s': Ledger)
    requires LeadsTo(spaces, events, d, s) && Racing(s, spaces, j, n)
    requires j <= n <= j + d && n < spaces && j < PER_RECIPIENT
    ensures LeadsTo(spaces, more, d, s') && Racing(s', spaces, j, n + 1)
  {
    OneMoreOpens(s, spaces, j, n);
    RacingGoesOn(spaces, events, s, Invitation(n), d, j, n + 1);
    more, s' := events + [Invitation(n)], Apply(s, Invitation(n));
  }

  lemma RaceCommits(spaces: nat, events: seq<Event>, s: Ledger, d: nat, j: nat, n: nat)
    returns (more: seq<Event>, s': Ledger)
    requires LeadsTo(spaces, events, d, s) && Racing(s, spaces, j, n) && j < n <= j + d + 1
    ensures LeadsTo(spaces, more, d, s') && Racing(s', spaces, j + 1, n)
  {
    OneMoreCommits(s, spaces, j, n);
    RacingGoesOn(spaces, events, s, Commit(j), d, j + 1, n);
    more, s' := events + [Commit(j)], Apply(s, Commit(j));
  }

  /** One after the other, so that nothing overlaps. */
  lemma {:induction false} FillUp(spaces: nat, k: nat, d: nat) returns (events: seq<Event>, s: Ledger)
    requires k <= spaces && k < PER_RECIPIENT
    ensures LeadsTo(spaces, events, d, s) && Racing(s, spaces, k, k)
  {
    if k == 0 {
      events, s := [], Quiet(spaces);
      NobodyTouches(map[], spaces, ByEmail(ADDRESS));
    } else {
      events, s := FillUp(spaces, k - 1, d);
      events, s := RaceOpens(spaces, events, s, d, k - 1, k - 1);
      events, s := RaceCommits(spaces, events, s, d, k - 1, k);
    }
  }

  /** From the k-th on, all are checked before any of them commits. */
  lemma {:induction false} OpenAll(spaces: nat, k: nat, n: nat, d: nat) returns (events: seq<Event>, s: Ledger)
    requires k <= n <= spaces && k < PER_RECIPIENT && n <= k + d + 1
    ensures LeadsTo(spaces, events, d, s) && Racing(s, spaces, k, n)
  {
    if n == k {
      events, s := FillUp(spaces, k, d);
    } else {
      events, s := OpenAll(spaces, k, n - 1, d);
      events, s := RaceOpens(spaces, events, s, d, k, n - 1);
    }
  }

  lemma {:induction false} CommitAll(spaces: nat, k: nat, n: nat, j: nat, d: nat)
    returns (events: seq<Event>, s: Ledger)
    requires k <= j <= n <= spaces && k < PER_RECIPIENT && n <= k + d + 1
    ensures LeadsTo(spaces, events, d, s) && Racing(s, spaces, j, n)
  {
    if j == k {
      events, s := OpenAll(spaces, k, n, d);
    } else {
      events, s := CommitAll(spaces, k, n, j - 1, d);
      events, s := RaceCommits(spaces, events, s, d, j - 1, n);
    }
  }

  /**
   For every d the bound of `OverlapAddsAtMostItsEntries` is reached: a run in which at most d transactions
   overlap another one schedules d emails to an address beyond its limit.
   */
  lemma OverlappingRequestsPassTheAddressLimit(d: nat) returns (events: seq<Event>)
    ensures var init := Quiet(PER_RECIPIENT + d);
            && Init(init) && OverlapAtMost(init, events, ByEmail(ADDRESS), d) && LagAtMost(init, events, 0)
            && Within(After(init, events).history, ByEmail(ADDRESS), -1, LIMIT_WINDOW_MS - 1) == PER_RECIPIENT + d
  {
    var n := PER_RECIPIENT + d;
    var s;
    events, s := CommitAll(n, PER_RECIPIENT - 1, n, n, d);
    AllWithin(s.history, ByEmail(ADDRESS), -1, LIMIT_WINDOW_MS - 1);
  }

  // ------------------------------------------------------------------ a purge between two readings

  function MomentOf(k: nat): int {
    1 + RESEND_COOLDOWN_MS * k
  }

  function EmailAt(k: nat): Entry {
    Entry(0, 0, ADDRESS, 0, MomentOf(k))
  }

  /** The invitation's k-th email. */
  function Email(k: nat): Event {
    if k == 0 then NewInvite(MomentOf(0), 0, 0, ADDRESS) else Resend(MomentOf(k), 0, 0, ADDRESS)
  }

  ghost predicate HasSent(s: Ledger, k: nat) {
    && s.nextSpace == 1 && s.nextInvite == (if k == 0 then 0 else 1) && s.purgedTo == 0 && s.open == map[]
    && s.invites == (if k == 0 then map[] else map[0 := 0])
    && s.history == s.log && s.log == seq(k, j requires 0 <= j < k => EmailAt(j))
    && s.now <= MomentOf(k)
  }

  /** No limit is reached, and the last email was a cooldown ago. */
  lemma NotRefused(rows: seq<Entry>, t: int, invite: Option<nat>)
    requires |rows| < PER_INVITE
    requires invite.Some? ==> forall e :: e in rows ==> e.at + RESEND_COOLDOWN_MS <= t
    ensures !Refuses(rows, Request(0, Some(0), [ADDRESS], invite), t)
  {
    SinceAtMostAll(rows, ByInvite(if invite.Some? then invite.value else 0), t - LIMIT_WINDOW_MS);
    SinceAtMostAll(rows, BySpace(0), t - LIMIT_WINDOW_MS);
    SinceAtMostAll(rows, BySender(0), t - LIMIT_WINDOW_MS);
    SinceAtMostAll(rows, ByEmail(ADDRESS), t - LIMIT_WINDOW_MS);
    if invite.Some? {
      NoneCounted(rows, ByInvite(invite.value), t - RESEND_COOLDOWN_MS);
    }
  }

  lemma OneMoreEmail(s: Ledger, k: nat)
    requires HasSent(s, k) && k < PER_INVITE
    ensures HasSent(Apply(Apply(Apply(s, Tick(MomentOf(k))), Email(k)), Commit(0)), k + 1)
  {
    var ticked := Apply(s, Tick(MomentOf(k)));
    NotRefused(s.log, MomentOf(k), if k == 0 then None else Some(0));
    var begun := Apply(ticked, Email(k));
    assert begun.open == map[0 := [EmailAt(k)]];
    var sent := Apply(begun, Commit(0));
    assert sent.open == map[];
    assert sent.log == seq(k + 1, j requires 0 <= j < k + 1 => EmailAt(j));
  }

  /** A run to this state whose clocks lag a millisecond at most. */
  ghost predicate Reaches(events: seq<Event>, s: Ledger) {
    s == After(Quiet(1), events) && LagAtMost(Quiet(1), events, 1)
  }

  lemma ThreeSteps(events: seq<Event>, s: Ledger, x: Event, y: Event, z: Event) returns (s': Ledger)
    requires Reaches(events, s) && !Schedules(x) && !Schedules(z)
    requires Schedules(y) ==> y.t + 1 >= Apply(s, x).purgedTo
    ensures s' == Apply(Apply(Apply(s, x), y), z) && Reaches(events + [x] + [y] + [z], s')
  {
    StepOn(Quiet(1), events, s, x, 1);
    StepOn(Quiet(1), events + [x], Apply(s, x), y, 1);
    StepOn(Quiet(1), events + [x] + [y], Apply(Apply(s, x), y), z, 1);
    s' := Apply(Apply(Apply(s, x), y), z);
  }

  lemma EmailIsSent(events: seq<Event>, s: Ledger, k: nat) returns (more: seq<Event>, s': Ledger)
    requires Reaches(events, s) && HasSent(s, k) && k < PER_INVITE
    ensures Reaches(more, s') && HasSent(s', k + 1)
  {
    s' := ThreeSteps(events, s, Tick(MomentOf(k)), Email(k), Commit(0));
    OneMoreEmail(s, k);
    more := events + [Tick(MomentOf(k))] + [Email(k)] + [Commit(0)];
  }

  lemma {:induction false} EmailsAreSent(k: nat) returns (events: seq<Event>, s: Ledger)
    requires k <= PER_INVITE
    ensures Reaches(events, s) && HasSent(s, k)
  {
    if k == 0 {
      events, s := [], Quiet(1);
    } else {
      events, s := EmailsAreSent(k - 1);
      events, s := EmailIsSent(events, s, k - 1);
    }
  }

  const DAY_LATER: int := LIMIT_WINDOW_MS + 1

  /** The first email has left the window of the purge, a millisecond before it leaves that of the check. */
  lemma FirstEmailIsPurged(s: Ledger)
    requires HasSent(s, PER_INVITE)
    ensures Apply(Apply(s, Tick(DAY_LATER)), Purge(DAY_LATER, 0))
            == s.(now := DAY_LATER, log := s.log[1..], purgedTo := DAY_LATER)
  {
    assert s.log[0] == EmailAt(0);
    assert Without(s.log, 0) == s.log[1..];
  }

  lemma SixthEmail(s: Ledger, purged: Ledger)
    requires HasSent(s, PER_INVITE) && purged == s.(now := DAY_LATER, log := s.log[1..], purgedTo := DAY_LATER)
    ensures Apply(Apply(purged, Resend(LIMIT_WINDOW_MS, 0, 0, ADDRESS)), Commit(0)).history
            == s.history + [Entry(0, 0, ADDRESS, 0, LIMIT_WINDOW_MS)]
  {
    forall e | e in purged.log ensures e.at + RESEND_COOLDOWN_MS <= LIMIT_WINDOW_MS {
      var j :| 0 <= j < |s.log| && s.log[j] == e;
    }
    NotRefused(purged.log, LIMIT_WINDOW_MS, Some(0));
  }

  lemma FiveAreWithin(s: Ledger)
    requires HasSent(s, PER_INVITE)
    ensures Within(s.history, ByInvite(0), 0, LIMIT_WINDOW_MS) == PER_INVITE
  {
    AllWithin(s.history, ByInvite(0), 0, LIMIT_WINDOW_MS);
  }

  lemma LastEmailIsSent(events: seq<Event>, s: Ledger) returns (more: seq<Event>, s': Ledger)
    requires Reaches(events, s) && HasSent(s, PER_INVITE)
    ensures Reaches(more, s') && s'.history == s.history + [Entry(0, 0, ADDRESS, 0, LIMIT_WINDOW_MS)]
  {
    FirstEmailIsPurged(s);
    var (tick, purge, resend) := (Tick(DAY_LATER), Purge(DAY_LATER, 0), Resend(LIMIT_WINDOW_MS, 0, 0, ADDRESS));
    StepOn(Quiet(1), events, s, tick, 1);
    s' := ThreeSteps(events + [tick], Apply(s, tick), purge, resend, Commit(0));
    SixthEmail(s, Apply(Apply(s, tick), purge));
    more := events + [tick] + [purge] + [resend] + [Commit(0)];
  }

  /**
   A purge that falls between a request's reading of its clock and of the log lets one email too many
   through: with a lag of one millisecond a full 24 hours can hold six emails of an invitation.
   */
  lemma PurgeBetweenTheReadings() returns (events: seq<Event>)
    ensures Init(Quiet(1)) && LagAtMost(Quiet(1), events, 1)
    ensures Within(After(Quiet(1), events).history, ByInvite(0), 0, LIMIT_WINDOW_MS) == PER_INVITE + 1
  {
    var s;
    events, s := EmailsAreSent(PER_INVITE);
    FiveAreWithin(s);
    var five := s.history;
    events, s := LastEmailIsSent(events, s);
    WithinAppends(five, [Entry(0, 0, ADDRESS, 0, LIMIT_WINDOW_MS)], ByInvite(0), 0, LIMIT_WINDOW_MS);
  }

  lemma {:induction false} LagMayGrow(s: Ledger, events: seq<Event>, lag: nat, more: nat)
    requires LagAtMost(s, events, lag) && lag <= more
    ensures LagAtMost(s, events, more)
  {
    if events != [] {
      LagMayGrow(s, events[..|events| - 1], lag, more);
    }
  }

  ghost function EmailsInADay(init: Ledger, events: seq<Event>, i: nat, lo: int): nat {
    Within(After(init, events).history, ByInvite(i), lo, lo + LIMIT_WINDOW_MS)
  }

  /** Whatever happens within the lag, no 24 hours hold more than five emails of an invitation. */
  ghost predicate FullDaysKeepTheLimit(lag: nat) {
    forall init: Ledger, events: seq<Event>, i: nat, lo: int ::
      Init(init) && LagAtMost(init, events, lag) ==> EmailsInADay(init, events, i, lo) <= PER_INVITE
  }

  /** The limit holds in full days exactly when no check's clock is behind that of a purge before it. */
  lemma FullDaysNeedClocksInOrder(lag: nat)
    ensures FullDaysKeepTheLimit(lag) <==> lag == 0
  {
    if lag == 0 {
      forall init: Ledger, events: seq<Event>, i: nat, lo: int | Init(init) && LagAtMost(init, events, 0)
        ensures EmailsInADay(init, events, i, lo) <= PER_INVITE
      {
        InviteAndSpaceLimitsAreExact(init, events, i, 0, 0, lo);
      }
    } else {
      var events := PurgeBetweenTheReadings();
      LagMayGrow(Quiet(1), events, 1, lag);
      assert EmailsInADay(Quiet(1), events, 0, 0) > PER_INVITE;
    }
  }
}
