/**
 The sliding-window limits on invitation emails.

 The send log holds one entry for each scheduled email and is purged once an entry has left the
 window. A scheduling transaction holds its space's lock while it checks the log and inserts its
 entries, so transactions of different spaces overlap and those of one space do not.
 */
module InviteLimits {
  import opened Basics

  const LIMIT_WINDOW_MS := 86_400_000
  const RESEND_COOLDOWN_MS := 60_000
  const PER_INVITE := 5
  const PER_RECIPIENT := 10
  const PER_SPACE := 30
  const PER_SENDER := 50
  const MAX_PENDING_INVITES_PER_SPACE := 10

  datatype Entry = Entry(invite: nat, space: nat, email: string, sender: nat, at: int)

  datatype Scope = ByInvite(invite: nat) | BySpace(space: nat) | BySender(sender: nat) | ByEmail(email: string)

  predicate Counts(scope: Scope, e: Entry) {
    match scope
    case ByInvite(i) => e.invite == i
    case BySpace(s) => e.space == s
    case BySender(u) => e.sender == u
    case ByEmail(m) => e.email == m
  }

  function LimitOf(scope: Scope): nat {
    match scope
    case ByInvite(_) => PER_INVITE
    case BySpace(_) => PER_SPACE
    case BySender(_) => PER_SENDER
    case ByEmail(_) => PER_RECIPIENT
  }

  /** The entries of a scope scheduled after `lo`. */
  function Since(rows: seq<Entry>, scope: Scope, lo: int): nat {
    if rows == [] then 0
    else
      var e := rows[|rows| - 1];
      Since(rows[..|rows| - 1], scope, lo) + if Counts(scope, e) && lo < e.at then 1 else 0
  }

  /** The entries of a scope scheduled after `lo` and not after `hi`. */
  function Within(rows: seq<Entry>, scope: Scope, lo: int, hi: int): nat {
    if rows == [] then 0
    else
      var e := rows[|rows| - 1];
      Within(rows[..|rows| - 1], scope, lo, hi) + if Counts(scope, e) && lo < e.at <= hi then 1 else 0
  }

  /** What a caller wants to schedule; `space` is None for a space created in the same transaction. */
  datatype Request = Request(sender: nat, space: Option<nat>, emails: seq<string>, invite: Option<nat>)

  ghost predicate Exceeds(rows: seq<Entry>, scope: Scope, adding: nat, now: int) {
    Since(rows, scope, now - LIMIT_WINDOW_MS) + adding > LimitOf(scope)
  }

  /** The request would exceed a limit, or follows the invitation's last email too soon. */
  ghost predicate Refuses(rows: seq<Entry>, r: Request, now: int) {
    || (r.invite.Some? && (|| Since(rows, ByInvite(r.invite.value), now - RESEND_COOLDOWN_MS) > 0
                           || Exceeds(rows, ByInvite(r.invite.value), 1, now)))
    || (r.space.Some? && Exceeds(rows, BySpace(r.space.value), |r.emails|, now))
    || Exceeds(rows, BySender(r.sender), |r.emails|, now)
    || exists k :: 0 <= k < |r.emails| && Exceeds(rows, ByEmail(r.emails[k]), 1, now)
  }

  // ------------------------------------------------------------------ the ledger

  /**
   `history` is every entry ever inserted and `purgedTo` the latest clock of a purge; the program only has
   `log`. `open` holds each space's uncommitted entries.
   */
  datatype Ledger = Ledger(
    now: int,
    nextSpace: nat,
    nextInvite: nat,
    invites: map<nat, nat>,
    log: seq<Entry>,
    history: seq<Entry>,
    purgedTo: int,
    open: map<nat, seq<Entry>>)

  /** A request reads its clock, t, before it reads the log; a purge may come in between. */
  datatype Event =
    | Tick(t: int)
    | NewSpace(t: int, sender: nat, emails: seq<string>)
    | NewInvite(t: int, space: nat, sender: nat, email: string)
    | Resend(t: int, invite: nat, sender: nat, email: string)
    | Commit(space: nat)
    | Abort(space: nat)
    | Purge(t: int, k: nat)

  ghost predicate Distinct(emails: seq<string>) {
    forall j, k :: 0 <= j < k < |emails| ==> emails[j] != emails[k]
  }

  function NewEntries(s: Ledger, t: int, sender: nat, emails: seq<string>): seq<Entry> {
    seq(|emails|, k requires 0 <= k < |emails| => Entry(s.nextInvite + k, s.nextSpace, emails[k], sender, t))
  }

  function NewIds(s: Ledger, count: nat): (ids: map<nat, nat>)
    ensures forall i :: i in ids <==> i in s.invites || s.nextInvite <= i < s.nextInvite + count
    ensures forall i :: i in ids ==>
                          ids[i] == if s.nextInvite <= i < s.nextInvite + count then s.nextSpace else s.invites[i]
  {
    if count == 0 then s.invites else NewIds(s, count - 1)[s.nextInvite + count - 1 := s.nextSpace]
  }

  function Without<T>(rows: seq<T>, k: nat): seq<T>
    requires k < |rows|
  {
    rows[..k] + rows[k + 1..]
  }

  /** One step; a refused request and a transaction waiting for a held lock change nothing. */
  ghost function Apply(s: Ledger, e: Event): Ledger {
    match e
    case Tick(t) => if s.now <= t then s.(now := t) else s
    case NewSpace(t, sender, emails) =>
      if && t <= s.now && |emails| <= MAX_PENDING_INVITES_PER_SPACE && Distinct(emails)
         && !Refuses(s.log, Request(sender, None, emails, None), t)
      then
        s.(open := s.open[s.nextSpace := NewEntries(s, t, sender, emails)],
           invites := NewIds(s, |emails|),
           nextSpace := s.nextSpace + 1, nextInvite := s.nextInvite + |emails|)
      else s
    case NewInvite(t, space, sender, email) =>
      if && t <= s.now && space < s.nextSpace && space !in s.open
         && !Refuses(s.log, Request(sender, Some(space), [email], None), t)
      then
        s.(open := s.open[space := [Entry(s.nextInvite, space, email, sender, t)]],
           invites := s.invites[s.nextInvite := space], nextInvite := s.nextInvite + 1)
      else s
    case Resend(t, i, sender, email) =>
      if && t <= s.now && i in s.invites && s.invites[i] !in s.open
         && !Refuses(s.log, Request(sender, Some(s.invites[i]), [email], Some(i)), t)
      then s.(open := s.open[s.invites[i] := [Entry(i, s.invites[i], email, sender, t)]])
      else s
    case Commit(space) =>
      if space in s.open
      then s.(log := s.log + s.open[space], history := s.history + s.open[space], open := s.open - {space})
      else s
    case Abort(space) => s.(open := s.open - {space})
    case Purge(t, k) =>
      if t <= s.now && k < |s.log| && s.log[k].at <= t - LIMIT_WINDOW_MS
      then s.(log := Without(s.log, k), purgedTo := Max(s.purgedTo, t))
      else s
  }

  ghost function After(s: Ledger, events: seq<Event>): Ledger {
    if events == [] then s else Apply(After(s, events[..|events| - 1]), events[|events| - 1])
  }

  ghost predicate Init(s: Ledger) {
    && s.log == [] && s.history == [] && s.open == map[] && s.purgedTo <= s.now
    && (forall i :: i in s.invites ==> i < s.nextInvite && s.invites[i] < s.nextSpace)
  }

  // ------------------------------------------------------------------ how far a run goes astray

  predicate Schedules(e: Event) {
    e.NewSpace? || e.NewInvite? || e.Resend?
  }

  /** No request's clock is further than `lag` behind that of a purge before its check. */
  ghost predicate LagAtMost(s: Ledger, events: seq<Event>, lag: nat) {
    events == [] ||
    (var (before, e) := (After(s, events[..|events| - 1]), events[|events| - 1]);
     LagAtMost(s, events[..|events| - 1], lag) && (Schedules(e) ==> e.t + lag >= before.purgedTo))
  }

  ghost predicate Touches(entries: seq<Entry>, scope: Scope) {
    exists e :: e in entries && Counts(scope, e)
  }

  /** How many of the first n spaces have an open transaction with entries of the scope. */
  ghost function Touching(open: map<nat, seq<Entry>>, n: nat, scope: Scope): nat {
    if n == 0 then 0
    else Touching(open, n - 1, scope) + if n - 1 in open && Touches(open[n - 1], scope) then 1 else 0
  }

  /** At no time do more than `d` transactions of the scope overlap another one. */
  ghost predicate OverlapAtMost(s: Ledger, events: seq<Event>, scope: Scope, d: nat) {
    && Touching(After(s, events).open, After(s, events).nextSpace, scope) <= d + 1
    && (events != [] ==> OverlapAtMost(s, events[..|events| - 1], scope, d))
  }

  /** The most entries of a scope that one transaction writes. */
  function PerTransaction(scope: Scope): nat {
    if scope.ByInvite? || scope.ByEmail? then 1 else MAX_PENDING_INVITES_PER_SPACE
  }
}
