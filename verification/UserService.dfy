/** Who may change a password or issue an access token: the user's row under its lock. */
module UserService {
  import opened Basics
  import opened PasswordReset

  const MAX_CONFIRMATION_CODE_ATTEMPTS := 5

  datatype UserError =
    | INVALID_CREDENTIALS
    | EMAIL_NOT_VERIFIED
    | EMAIL_ALREADY_EXISTS
    | EMAIL_ALREADY_VERIFIED
    | TOO_MANY_ATTEMPTS
    | NOT_FOUND

  /** A user's latest confirmation code. */
  datatype ConfirmationCode = ConfirmationCode(code: nat, attempts: nat, expiredAt: int)

  type Codes = map<nat, ConfirmationCode>

  /** The user waits for a code and has one that takes another attempt. */
  predicate TakesAttempt(users: map<nat, User>, codes: Codes, u: nat, now: int) {
    HasActiveCode(users, codes, u, now) && codes[u].attempts < 5
  }

  predicate HasActiveCode(users: map<nat, User>, codes: Codes, u: nat, now: int) {
    u in users && !users[u].verified && u in codes && codes[u].expiredAt >= now
  }

  /** The users as a state of the runs, with nothing else under way. */
  function At(users: map<nat, User>): State {
    State(users, map[], map[], map[], {}, [], 0)
  }

  lemma VerifyingIsAStep(users: map<nat, User>, u: nat)
    requires u in users && !users[u].verified
    ensures Apply(At(users), Event.VerifyEmail(u))
            == At(users[u := users[u].(verified := true)]).(sessions := {Session(u, users[u].authVersion, None)})
  {
  }

  class Users {
    var users: map<nat, User>
    var codes: Codes

    /** An address belongs to one user, and no code was tried more often than it may be. */
    ghost predicate Valid()
      reads this
    {
      && (forall u, v :: u in users && v in users && users[u].address == users[v].address ==> u == v)
      && (forall u :: u in codes ==> codes[u].attempts <= MAX_CONFIRMATION_CODE_ATTEMPTS)
    }

    constructor ()
      ensures Valid() && users == map[] && codes == map[]
    {
      users, codes := map[], map[];
    }

    method FindByEmail(address: nat) returns (found: Option<nat>)
      ensures found.Some? ==> found.value in users && users[found.value].address == address
      ensures found.None? ==> AddressIsFree(users, address)
    {
      var todo := users.Keys;
      while todo != {}
        invariant todo <= users.Keys
        invariant forall u :: u in users && u !in todo ==> users[u].address != address
        decreases todo
      {
        var u :| u in todo;
        if users[u].address == address {
          return Some(u);
        }
        todo := todo - {u};
      }
      return None;
    }

    /** Refreshing a registration replaces the password only while the address is unverified. */
    method UpdateUnverified(u: nat, password: Password) returns (r: Result<(), UserError>)
      requires Valid()
      modifies this`users
      ensures Valid()
      ensures r.Ok? <==> u in old(users) && !old(users)[u].verified
      ensures r.Err? ==> users == old(users)
      ensures r.Ok? ==> users == old(users)[u := old(users)[u].(password := password)]
      ensures Apply(At(old(users)), Event.UpdateUnverified(u, password)) == At(users)
    {
      if u !in users {
        return Err(NOT_FOUND);
      }
      if users[u].verified {
        return Err(EMAIL_ALREADY_EXISTS);
      }
      users := users[u := users[u].(password := password)];
      r := Ok(());
    }

    /**
     Verifies the address and signs the user in, exactly for the code of a user who still waits for it; a
     code is taken once and takes five wrong attempts at most.
     */
    method VerifyEmail(address: nat, typed: nat, now: int) returns (r: Result<Session, UserError>)
      requires Valid()
      modifies this
      ensures Valid()
      ensures r.Ok? ==> r.value.user in old(users) && old(users)[r.value.user].address == address
      ensures r.Err? ==> users == old(users)
      ensures r.Err? && r.error !in {INVALID_CREDENTIALS, TOO_MANY_ATTEMPTS} ==> codes == old(codes)
      ensures forall u :: u in old(users) && old(users)[u].address == address ==>
                            && (r.Ok? <==> old(TakesAttempt(users, codes, u, now)) && old(codes)[u].code == typed)
                            && (r.Ok? ==>
                                  && r.value == Session(u, old(users)[u].authVersion, None)
                                  && users == old(users)[u := old(users)[u].(verified := true)]
                                  && codes.Keys == old(codes).Keys && codes[u].expiredAt < now)
                            && (r == Err(INVALID_CREDENTIALS) <==>
                                  old(TakesAttempt(users, codes, u, now)) && old(codes)[u].code != typed)
                            && (r == Err(INVALID_CREDENTIALS) ==>
                                  codes == old(codes)[u := old(codes)[u].(attempts := old(codes)[u].attempts + 1)])
                            && (r == Err(TOO_MANY_ATTEMPTS) <==>
                                  old(HasActiveCode(users, codes, u, now) && !TakesAttempt(users, codes, u, now)))
                            && (r == Err(TOO_MANY_ATTEMPTS) ==>
                                  codes.Keys == old(codes).Keys && codes[u].expiredAt < now)
                            && (r == Err(EMAIL_ALREADY_VERIFIED) <==> old(users)[u].verified)
      ensures forall u :: u in old(codes) && !(u in old(users) && old(users)[u].address == address) ==>
                            u in codes && codes[u] == old(codes)[u]
      ensures old(AddressIsFree(users, address)) ==> r == Err(NOT_FOUND)
      ensures r.Ok? ==> Apply(At(old(users)), Event.VerifyEmail(r.value.user)) == At(users).(sessions := {r.value})
    {
      var found := FindByEmail(address);
      if found.None? {
        return Err(NOT_FOUND);
      }
      var u := found.value;
      var user := users[u];
      if user.verified {
        return Err(EMAIL_ALREADY_VERIFIED);
      }
      if u !in codes || codes[u].expiredAt < now {
        return Err(NOT_FOUND);
      }
      var code := codes[u];
      if code.attempts >= MAX_CONFIRMATION_CODE_ATTEMPTS {
        codes := codes[u := code.(expiredAt := now - 1000)];
        return Err(TOO_MANY_ATTEMPTS);
      }
      if code.code != typed {
        codes := codes[u := code.(attempts := code.attempts + 1)];
        return Err(INVALID_CREDENTIALS);
      }
      VerifyingIsAStep(users, u);
      codes := codes[u := code.(expiredAt := now - 1000)];
      users := users[u := user.(verified := true)];
      r := Ok(Session(u, user.authVersion, None));
    }

    /** The unlocked half of a sign-in: lets in exactly the password of a verified account. */
    method CheckPassword(address: nat, typed: nat) returns (r: Result<Login, UserError>)
      requires Valid()
      ensures forall u :: u in users && users[u].address == address ==>
                            && (r.Ok? <==> users[u].password.plain == typed && users[u].verified)
                            && (r.Ok? ==> r.value == Login(u, users[u], typed))
                            && (r == Err(EMAIL_NOT_VERIFIED) <==>
                                users[u].password.plain == typed && !users[u].verified)
                            && (r == Err(INVALID_CREDENTIALS) <==> users[u].password.plain != typed)
      ensures AddressIsFree(users, address) ==> r == Err(INVALID_CREDENTIALS)
      ensures r.Ok? ==> Apply(At(users), LoginRead(0, r.value.user, typed)) == At(users).(logins := map[0 := r.value])
    {
      var found := FindByEmail(address);
      if found.None? || users[found.value].password.plain != typed {
        return Err(INVALID_CREDENTIALS);
      }
      if !users[found.value].verified {
        return Err(EMAIL_NOT_VERIFIED);
      }
      r := Ok(Login(found.value, users[found.value], typed));
    }

    /** The locked half: signs only if the password and version that were checked are still the row's. */
    method Sign(login: Login) returns (r: Result<Session, UserError>)
      ensures r.Ok? <==>
              && login.user in users && users[login.user].password == login.seen.password
              && users[login.user].authVersion == login.seen.authVersion
      ensures r.Ok? ==> r.value == Session(login.user, users[login.user].authVersion, Some(login.typed))
      ensures Apply(At(users).(logins := map[0 := login]), LoginCheck(0))
              == At(users).(sessions := if r.Ok? then {r.value} else {})
    {
      if login.user !in users {
        return Err(INVALID_CREDENTIALS);
      }
      var current := users[login.user];
      if current.password != login.seen.password || current.authVersion != login.seen.authVersion {
        return Err(INVALID_CREDENTIALS);
      }
      r := Ok(Session(login.user, current.authVersion, Some(login.typed)));
    }
  }
}
