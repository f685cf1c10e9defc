/** Sign-ins racing resets: no accepted session was opened with a password since replaced. */
module PasswordResetSessions {
  import opened Basics
  import opened PasswordReset
  import opened PasswordResetProofs

  /** What the token strategy checks on every request. */
  predicate IsAccepted(users: map<nat, User>, x: Session) {
    x.user in users && x.version == users[x.user].authVersion
  }

  predicate SessionOk(users: map<nat, User>, x: Session) {
    && x.user in users && users[x.user].verified && x.version <= users[x.user].authVersion
    && (IsAccepted(users, x) && x.password.Some? ==> users[x.user].password.plain == x.password.value)
  }

  predicate LoginOk(users: map<nat, User>, login: Login) {
    login.user in users && users[login.user].verified && login.seen.password.plain == login.typed
  }

  ghost predicate VersionOk(log: seq<Entry>, u: nat, user: User) {
    user.authVersion == 1 + Count(log, UsesBy(u))
  }

  ghost predicate SessionsOk(users: map<nat, User>, sessions: set<Session>) {
    forall x :: x in sessions ==> SessionOk(users, x)
  }

  ghost predicate LoginsOk(users: map<nat, User>, logins: map<nat, Login>) {
    forall w :: w in logins ==> LoginOk(users, logins[w])
  }

  ghost predicate VersionsOk(log: seq<Entry>, users: map<nat, User>) {
    && (forall u :: u in users ==> VersionOk(log, u, users[u]))
    && (forall e :: e in log && e.Use? ==> e.user in users)
  }

  ghost predicate SessionInv(s: State) {
    SessionsOk(s.users, s.sessions) && LoginsOk(s.users, s.logins) && VersionsOk(s.log, s.users)
  }

  /** Users are never removed, stay verified, keep their version, and then their password too. */
  ghost predicate UsersAge(before: map<nat, User>, after: map<nat, User>) {
    forall u :: u in before ==>
                  && u in after && (before[u].verified ==> after[u].verified)
                  && before[u].authVersion <= after[u].authVersion
                  && (before[u].verified && before[u].authVersion == after[u].authVersion ==>
                        before[u].password == after[u].password)
  }

  lemma AgeingKeepsSessions(before: map<nat, User>, after: map<nat, User>, x: Session)
    requires UsersAge(before, after) && SessionOk(before, x)
    ensures SessionOk(after, x)
  {
  }

  lemma CommitAgesUsers(s: State, w: nat, password: Password, t: int)
    ensures UsersAge(s.users, Apply(s, CompleteCommit(w, password, t)).users)
  {
  }

  lemma StepsAgeUsers(s: State, e: Event)
    ensures UsersAge(s.users, Apply(s, e).users)
  {
    if e.CompleteCommit? {
      CommitAgesUsers(s, e.completion, e.password, e.t);
    }
  }

  /** A user begins unverified with a free address, keeps it, and is verified only by the confirmation code. */
  predicate UserMovesOn(s: State, e: Event, s': State, u: nat) {
    if u !in s'.users then u !in s.users
    else if u !in s.users then
      && e.Register? && s'.users[u] == User(e.address, e.password, false, 1) && AddressIsFree(s.users, e.address)
    else
      && s'.users[u].address == s.users[u].address
      && (s'.users[u].verified != s.users[u].verified ==> e == VerifyEmail(u) && s'.users[u].verified)
  }

  lemma StepMovesUser(s: State, e: Event, u: nat)
    ensures UserMovesOn(s, e, Apply(s, e), u)
  {
  }

  /** In every run an address belongs to one user. */
  lemma {:induction false} AddressesAreUnique(events: seq<Event>, u: nat, v: nat)
    requires var users := After(INIT, events).users; u in users && v in users && users[u].address == users[v].address
    ensures u == v
  {
    var (s, e) := (After(INIT, events[..|events| - 1]), events[|events| - 1]);
    StepMovesUser(s, e, u);
    StepMovesUser(s, e, v);
    if u in s.users && v in s.users {
      AddressesAreUnique(events[..|events| - 1], u, v);
    }
  }

  /** A verified account's password changes only by a completed reset, which raises its version. */
  lemma OnlyAResetReplacesAPassword(s: State, e: Event, u: nat)
    requires u in s.users && s.users[u].verified
    ensures u in Apply(s, e).users
    ensures Apply(s, e).users[u].password != s.users[u].password ==>
              && e.CompleteCommit? && Apply(s, e).users[u].authVersion == s.users[u].authVersion + 1
              && (forall x :: x in s.sessions && x.user == u && SessionOk(s.users, x) ==>
                                !IsAccepted(Apply(s, e).users, x))
  {
    if Apply(s, e).users[u].password != s.users[u].password {
      forall x | x in s.sessions && x.user == u && SessionOk(s.users, x) ensures !IsAccepted(Apply(s, e).users, x) {
        assert x.version <= s.users[u].authVersion;
      }
    }
  }

  lemma OthersKeepVersion(log: seq<Entry>, e: Entry, u: nat, user: User)
    requires VersionOk(log, u, user)
    requires !(e.Use? && e.user == u)
    ensures VersionOk(log + [e], u, user)
  {
    CountGrows(log, e, UsesBy(u));
  }

  lemma NoUseYet(log: seq<Entry>, users: map<nat, User>, u: nat)
    requires VersionsOk(log, users) && u !in users
    ensures Count(log, UsesBy(u)) == 0
  {
    NothingMatches(log, UsesBy(u));
  }

  lemma AgeingKeepsAll(before: map<nat, User>, after: map<nat, User>, sessions: set<Session>, logins: map<nat, Login>)
    requires UsersAge(before, after) && SessionsOk(before, sessions) && LoginsOk(before, logins)
    ensures SessionsOk(after, sessions) && LoginsOk(after, logins)
  {
    forall x | x in sessions ensures SessionOk(after, x) {
      AgeingKeepsSessions(before, after, x);
    }
    forall w | w in logins ensures LoginOk(after, logins[w]) {
      assert LoginOk(before, logins[w]);
    }
  }

  lemma RegisterKeepsSessions(s: State, u: nat, a: nat, p: Password)
    requires SessionInv(s)
    ensures SessionInv(Effect(s, Register(u, a, p)))
  {
    var s' := Effect(s, Register(u, a, p));
    if u !in s.users {
      StepsAgeUsers(s, Register(u, a, p));
      AgeingKeepsAll(s.users, s'.users, s.sessions, s.logins);
      NoUseYet(s.log, s.users, u);
      forall v | v in s'.users ensures VersionOk(s.log, v, s'.users[v]) {
        assert v in s.users ==> VersionOk(s.log, v, s.users[v]);
      }
    }
  }

  lemma OtherEntriesKeepVersions(log: seq<Entry>, e: Entry, users: map<nat, User>)
    requires VersionsOk(log, users) && !e.Use?
    ensures VersionsOk(log + [e], users)
  {
    forall u | u in users ensures VersionOk(log + [e], u, users[u]) {
      OthersKeepVersion(log, e, u, users[u]);
    }
  }

  lemma NotedStepKeepsSessions(s: State, s': State, e: Entry)
    requires SessionInv(s) && s'.users == s.users && s'.sessions == s.sessions && s'.logins == s.logins
    requires s'.log == s.log + [e] && !e.Use?
    ensures SessionInv(s')
  {
    OtherEntriesKeepVersions(s.log, e, s.users);
  }

  lemma RequestKeepsSessions(s: State, a: nat, account: Option<nat>, code: nat, t: int)
    requires SessionInv(s)
    ensures SessionInv(AfterRequest(s, a, account, code, t))
  {
    var s' := AfterRequest(s, a, account, code, t);
    if s'.log != s.log {
      NotedStepKeepsSessions(s, s', s'.log[|s.log|]);
    }
  }

  lemma VerifyKeepsSessions(s: State, a: nat, account: Option<nat>, code: nat, t: int)
    requires SessionInv(s)
    ensures SessionInv(AfterVerify(s, a, account, code, t))
  {
    var s' := AfterVerify(s, a, account, code, t);
    if s'.log != s.log {
      VerifyNotes(s, a, account, code, t);
      OtherEntriesKeepVersions(s.log, s'.log[|s.log|], s.users);
    }
  }

  lemma UseRaisesItsVersion(log: seq<Entry>, users: map<nat, User>, e: Entry, password: Password)
    requires VersionsOk(log, users) && e.Use? && e.user in users
    ensures VersionsOk(log + [e], users[e.user := WithNewPassword(users[e.user], password)])
  {
    var users' := users[e.user := WithNewPassword(users[e.user], password)];
    forall u | u in users' ensures VersionOk(log + [e], u, users'[u]) {
      CountGrows(log, e, UsesBy(u));
      assert VersionOk(log, u, users[u]);
    }
  }

  lemma CommitKeepsSessions(s: State, w: nat, password: Password, t: int)
    requires SessionInv(s)
    ensures SessionInv(AfterCompleteCommit(s, w, password, t))
  {
    if AfterCompleteCommit(s, w, password, t).log != s.log {
      CommitNotes(s, w, password, t);
      var p := s.completions[w];
      UseRaisesItsVersion(s.log, s.users, Use(p.address, p.userId, p.token, t), password);
      var users' := s.users[p.userId := WithNewPassword(s.users[p.userId], password)];
      CommitAgesUsers(s, w, password, t);
      AgeingKeepsAll(s.users, users', s.sessions, s.logins);
    }
  }

  lemma LoginCheckKeepsSessions(s: State, w: nat)
    requires SessionInv(s)
    ensures SessionInv(AfterLoginCheck(s, w))
  {
    var s' := AfterLoginCheck(s, w);
    if w in s.logins {
      assert LoginOk(s.users, s.logins[w]);
      forall x | x in s'.sessions ensures SessionOk(s'.users, x) {
        assert x in s.sessions ==> SessionOk(s.users, x);
      }
      forall v | v in s'.logins ensures LoginOk(s'.users, s'.logins[v]) {
        assert LoginOk(s.users, s.logins[v]);
      }
    }
  }

  lemma SameVersionsAreOk(log: seq<Entry>, users: map<nat, User>, u: nat, user: User)
    requires VersionsOk(log, users) && u in users && user.authVersion == users[u].authVersion
    ensures VersionsOk(log, users[u := user])
  {
    forall v | v in users ensures VersionOk(log, v, users[u := user][v]) {
      assert VersionOk(log, v, users[v]);
    }
  }

  lemma VerifyEmailKeepsSessions(s: State, u: nat)
    requires SessionInv(s)
    ensures SessionInv(AfterVerifyEmail(s, u))
  {
    var s' := AfterVerifyEmail(s, u);
    if u in s.users && !s.users[u].verified {
      SameVersionsAreOk(s.log, s.users, u, s'.users[u]);
      AgeingKeepsAll(s.users, s'.users, s.sessions, s.logins);
    }
  }

  lemma UpdateKeepsSessions(s: State, u: nat, p: Password)
    requires SessionInv(s)
    ensures SessionInv(Effect(s, UpdateUnverified(u, p)))
  {
    var s' := Effect(s, UpdateUnverified(u, p));
    if u in s.users && !s.users[u].verified {
      SameVersionsAreOk(s.log, s.users, u, s'.users[u]);
      AgeingKeepsAll(s.users, s'.users, s.sessions, s.logins);
    }
  }

  lemma LoginReadKeepsSessions(s: State, w: nat, u: nat, typed: nat)
    requires SessionInv(s)
    ensures SessionInv(AfterLoginRead(s, w, u, typed))
  {
  }

  lemma EffectKeepsSessions(s: State, e: Event)
    requires SessionInv(s)
    ensures SessionInv(Effect(s, e))
  {
    match e
    case Register(u, a, p) => RegisterKeepsSessions(s, u, a, p);
    case UpdateUnverified(u, p) => UpdateKeepsSessions(s, u, p);
    case VerifyEmail(u) => VerifyEmailKeepsSessions(s, u);
    case LoginRead(w, u, typed) => LoginReadKeepsSessions(s, w, u, typed);
    case LoginCheck(w) => LoginCheckKeepsSessions(s, w);
    case RequestCode(a, account, code, t) => RequestKeepsSessions(s, a, account, code, t);
    case VerifyCode(a, account, code, t) => VerifyKeepsSessions(s, a, account, code, t);
    case CompleteCommit(w, p, t) => CommitKeepsSessions(s, w, p, t);
    case CompleteRead(w, a, token, t) =>
    case Deliver(a, id, status, t) =>
  }

  lemma ApplyKeepsSessions(s: State, e: Event)
    requires SessionInv(s)
    ensures SessionInv(Apply(s, e))
  {
    EffectKeepsSessions(s, e);
  }

  lemma {:induction false} EveryRunKeepsSessions(events: seq<Event>)
    ensures SessionInv(After(INIT, events))
  {
    if events == [] {
    } else {
      EveryRunKeepsSessions(events[..|events| - 1]);
      ApplyKeepsSessions(After(INIT, events[..|events| - 1]), events[|events| - 1]);
    }
  }

  /** However sign-ins and resets interleave, a session that is accepted knows the present password. */
  lemma AcceptedSessionsKnowThePassword(events: seq<Event>, x: Session)
    requires x in After(INIT, events).sessions && IsAccepted(After(INIT, events).users, x) && x.password.Some?
    ensures After(INIT, events).users[x.user].password.plain == x.password.value
    ensures After(INIT, events).users[x.user].verified
  {
    EveryRunKeepsSessions(events);
    assert SessionOk(After(INIT, events).users, x);
  }

  /** The version of an account counts its completed resets. */
  lemma VersionCountsResets(events: seq<Event>, u: nat)
    requires u in After(INIT, events).users
    ensures After(INIT, events).users[u].authVersion == 1 + Count(After(INIT, events).log, UsesBy(u))
  {
    EveryRunKeepsSessions(events);
    assert VersionOk(After(INIT, events).log, u, After(INIT, events).users[u]);
  }
}
