/** The reset service itself: each method is one locked transaction, or the unlocked read before one. */
module PasswordResetService {
  import opened Basics
  import opened PasswordReset

  /** An email to send once the transaction has committed. */
  datatype Delivery = Delivery(address: nat, attemptId: nat, code: nat, expiresAt: int)

  /** Why a code was not taken. */
  datatype Rejection = RATE_LIMITED(seconds: int) | CODE_UNUSABLE | CODE_INVALID

  // ------------------------------------------------------------------ what the statements say of a row

  /** Not completed, not accepted, not expired, and with a wrong code to spare. */
  predicate IsOpen(row: Challenge, now: int) {
    row.completedAt.None? && row.verifiedAt.None? && now < row.expiresAt && row.attempts < 5
  }

  predicate IsAuthorized(row: Challenge, now: int) {
    && row.completedAt.None? && row.attempts < 5 && row.verifiedAt.Some?
    && row.tokenExpiresAt.Some? && now < row.tokenExpiresAt.value
  }

  /** A minute has not passed since the last request, or the hour has had its five. */
  predicate RefusesRequest(row: Challenge, now: int) {
    now < row.lastRequestedAt + 60_000 || (now < row.window.startedAt + 3_600_000 && row.window.requests >= 5)
  }

  predicate RefusesCodes(row: Challenge, now: int) {
    now < row.window.startedAt + 3_600_000 && row.window.failed >= 10
  }

  predicate SameChallenge(row: Challenge, row': Challenge) {
    && row'.startedAt == row.startedAt && row'.expiresAt == row.expiresAt && row'.attempts == row.attempts
    && row'.verifiedAt == row.verifiedAt && row'.token == row.token && row'.tokenExpiresAt == row.tokenExpiresAt
    && row'.completedAt == row.completedAt
  }

  predicate IsNewChallenge(row: Challenge, now: int) {
    && row.startedAt == now && row.expiresAt == now + 1_800_000 && row.attempts == 0
    && row.verifiedAt.None? && row.token.None? && row.tokenExpiresAt.None? && row.completedAt.None?
  }

  /** The request's own part of the row: whose it is, its code, and the email that is due. */
  predicate IsRequestedBy(row: Challenge, address: nat, account: Option<nat>, code: nat, now: int, attemptId: nat) {
    && row.userId == account && row.lastRequestedAt == now && row.sendAttemptId == attemptId
    && (account.Some? ==> row.codeHash == Some(CodeHash(address, code)) && row.sendStatus == Some(SendPending))
    && (account.None? ==> row.codeHash.None? && row.sendStatus.None?)
  }

  /** One more request in the row's hour, or the first of a new one. */
  predicate CountsRequest(row: Challenge, row': Challenge, now: int) {
    row'.window == if now < row.window.startedAt + 3_600_000
                   then Window(row.window.startedAt, row.window.requests + 1, row.window.failed)
                   else Window(now, 1, 0)
  }

  /** One more wrong code on the challenge and in its hour; the fifth ends an authorization. */
  predicate CountsMiss(row: Challenge, row': Challenge, now: int) {
    && row'.attempts == row.attempts + 1 && row'.window.requests == row.window.requests
    && (if now < row.window.startedAt + 3_600_000
        then row'.window.startedAt == row.window.startedAt && row'.window.failed == row.window.failed + 1
        else row'.window.startedAt == now && row'.window.failed == 1)
    && (if row.attempts >= 4
        then row'.token.None? && row'.tokenExpiresAt.None?
        else row'.token == row.token && row'.tokenExpiresAt == row.tokenExpiresAt)
    && row' == row.(attempts := row'.attempts, window := row'.window, token := row'.token,
                    tokenExpiresAt := row'.tokenExpiresAt)
  }

  /** Ten minutes from now, but not past the challenge. */
  predicate IsTokenExpiry(t: int, row: Challenge, now: int) {
    t <= now + 600_000 && t <= row.expiresAt && (t == now + 600_000 || t == row.expiresAt)
  }

  /** The seconds until a later time, rounded up. */
  predicate IsSecondsTo(seconds: int, time: int, now: int) {
    seconds >= 1 && 1000 * (seconds - 1) < time - now <= 1000 * seconds
  }

  /** The code is the one the row's own account was sent. */
  predicate IsItsCode(row: Challenge, address: nat, account: Option<nat>, code: nat) {
    account.Some? && row.userId == account && row.codeHash == Some(CodeHash(address, code))
  }

  /** The answer to a code, told from the row's fields. */
  ghost predicate IsAnswer(row: Challenge, address: nat, account: Option<nat>, code: nat, now: int, verdict: Verdict) {
    if RefusesCodes(row, now) then
      verdict.Limited? && IsSecondsTo(verdict.seconds, row.window.startedAt + 3_600_000, now)
    else if !IsOpen(row, now) && !IsAuthorized(row, now) then verdict.Unusable?
    else if !IsItsCode(row, address, account, code) then verdict.Wrong?
    else
      && verdict.Right?
      && verdict.token == Token(address, account.value, CodeHash(address, code),
                                if IsOpen(row, now) then now else row.verifiedAt.value)
      && (IsAuthorized(row, now) ==> IsSecondsTo(verdict.expiresIn, row.tokenExpiresAt.value, now))
      && (IsOpen(row, now) ==> exists t :: IsTokenExpiry(t, row, now) && IsSecondsTo(verdict.expiresIn, t, now))
  }

  /** The accepted code's authorization is stored, and nothing else of the row changes. */
  predicate IsAuthorizing(row: Challenge, row': Challenge, verdict: Verdict, now: int) {
    && verdict.Right? && row'.verifiedAt == Some(now) && row'.token == Some(verdict.token)
    && row'.tokenExpiresAt.Some? && IsTokenExpiry(row'.tokenExpiresAt.value, row, now)
    && row' == row.(verifiedAt := row'.verifiedAt, token := row'.token, tokenExpiresAt := row'.tokenExpiresAt)
  }

  // ------------------------------------------------------------------ the transactions as steps of the machine

  /** The tables as a state of the runs, with nothing logged and nothing under way. */
  function At(users: map<nat, User>, rows: map<nat, Challenge>): State {
    State(users, rows, map[], map[], {}, [], 0)
  }

  function RequestEntry(address: nat, row: Challenge, now: int): Entry {
    Request(address, row.startedAt, row.window.startedAt, now, row.expiresAt)
  }

  /** What a checked code leaves in the log. */
  function VerdictEntries(address: nat, row: Challenge, verdict: Verdict, now: int): seq<Entry> {
    match verdict
    case Wrong => [Entry.Miss(address, row.startedAt, row.window.startedAt, now, row.expiresAt)]
    case Right(token, _) => [Grant(address, row.startedAt, token, now, row.expiresAt)]
    case _ => []
  }

  lemma RequestIsAStep(users: map<nat, User>, rows: map<nat, Challenge>, a: nat, account: Option<nat>, code: nat,
      now: int)
    requires IsAccount(users, a, account)
    ensures var (s, s') := (At(users, rows), Apply(At(users, rows), RequestCode(a, account, code, now)));
            if a in rows && RequestRetryAfter(rows[a], now).Some? then s' == s.(clock := now)
            else
              var row := if a in rows then Rerequested(rows[a], a, account, code, now)
                         else FirstChallenge(a, account, code, now);
              s' == At(users, rows[a := row]).(log := [RequestEntry(a, row, now)], clock := now)
  {
  }

  lemma VerifyIsAStep(users: map<nat, User>, rows: map<nat, Challenge>, a: nat, account: Option<nat>, code: nat,
      now: int)
    requires IsAccount(users, a, account)
    ensures var (s, s') := (At(users, rows), Apply(At(users, rows), VerifyCode(a, account, code, now)));
            if a !in rows then s' == s.(clock := now)
            else
              var verdict := Judge(rows[a], a, account, code, now);
              var row := Judged(rows[a], verdict, now);
              s' == At(users, rows[a := row]).(log := VerdictEntries(a, row, verdict, now), clock := now)
  {
    assert a in rows ==> rows[a := rows[a]] == rows;
  }

  class PasswordResets {
    var users: map<nat, User>
    var rows: map<nat, Challenge>

    constructor ()
      ensures users == map[] && rows == map[]
    {
      users, rows := map[], map[];
    }

    /** The verified account of an address. */
    method LockAccount(address: nat) returns (account: Option<nat>)
      ensures IsAccount(users, address, account)
    {
      var todo := users.Keys;
      while todo != {}
        invariant todo <= users.Keys
        invariant forall u :: u in users && u !in todo ==> !(users[u].address == address && users[u].verified)
        decreases todo
      {
        var u :| u in todo;
        if users[u].address == address && users[u].verified {
          return Some(u);
        }
        todo := todo - {u};
      }
      return None;
    }

    /** The row a request writes: a pending challenge goes on with the new code, otherwise one begins. */
    method RequestedRow(address: nat, account: Option<nat>, code: nat, now: int) returns (row: Challenge)
      ensures address in rows ==>
                var before := rows[address];
                && row == Rerequested(before, address, account, code, now)
                && IsRequestedBy(row, address, account, code, now, before.sendAttemptId + 1)
                && CountsRequest(before, row, now) && row.lastSentAt == before.lastSentAt
                && if IsOpen(before, now) then SameChallenge(before, row) else IsNewChallenge(row, now)
      ensures address !in rows ==>
                && row == FirstChallenge(address, account, code, now)
                && IsRequestedBy(row, address, account, code, now, 1) && IsNewChallenge(row, now)
                && row.window == Window(now, 1, 0) && row.lastSentAt.None?
    {
      var window := if address in rows then CurrentWindow(rows[address].window, now) else Window(now, 0, 0);
      var rotates := address in rows && StateAt(rows[address], now) == Pending;
      var expiresAt := if rotates then rows[address].expiresAt else now + CODE_TTL_MS;
      var attemptId := (if address in rows then rows[address].sendAttemptId else 0) + 1;
      var counted := window.(requests := window.requests + 1);
      var codeHash := if account.Some? then Some(CodeHash(address, code)) else None;
      var sendStatus := if account.Some? then Some(SendPending) else None;
      if address in rows {
        row := rows[address].(userId := account, codeHash := codeHash, lastRequestedAt := now, window := counted,
                              sendAttemptId := attemptId, sendStatus := sendStatus);
      } else {
        row := Challenge(account, codeHash, 0, now, expiresAt, now, None, None, None, None, attemptId, sendStatus,
                         None, counted);
      }
      if !rotates {
        row := row.(attempts := 0, startedAt := now, expiresAt := expiresAt, verifiedAt := None,
                    token := None, tokenExpiresAt := None, completedAt := None);
      }
    }

    /** Reserves an email, or answers how many seconds to wait. */
    method Reserve(address: nat, code: nat, now: int) returns (account: Option<nat>, r: Result<Option<Delivery>, int>)
      modifies this`rows
      ensures IsAccount(users, address, account)
      ensures r.Ok? <==> !(address in old(rows) && RefusesRequest(old(rows)[address], now))
      ensures r.Err? ==> rows == old(rows) && RequestRetryAfter(old(rows)[address], now) == Some(r.error)
      ensures r.Ok? ==>
                && rows.Keys == old(rows).Keys + {address}
                && (forall b :: b in old(rows) && b != address ==> rows[b] == old(rows)[b])
                && r.value == if account.None? then None
                              else Some(Delivery(address, rows[address].sendAttemptId, code, rows[address].expiresAt))
      ensures r.Ok? && address in old(rows) ==>
                var (row, row') := (old(rows)[address], rows[address]);
                && row' == Rerequested(row, address, account, code, now)
                && IsRequestedBy(row', address, account, code, now, row.sendAttemptId + 1)
                && CountsRequest(row, row', now) && row'.lastSentAt == row.lastSentAt
                && if IsOpen(row, now) then SameChallenge(row, row') else IsNewChallenge(row', now)
      ensures r.Ok? && address !in old(rows) ==>
                var row' := rows[address];
                && row' == FirstChallenge(address, account, code, now)
                && IsRequestedBy(row', address, account, code, now, 1) && IsNewChallenge(row', now)
                && row'.window == Window(now, 1, 0) && row'.lastSentAt.None?
      ensures Apply(At(users, old(rows)), RequestCode(address, account, code, now))
              == At(users, rows).(log := if r.Ok? then [RequestEntry(address, rows[address], now)] else [],
                                  clock := now)
    {
      account := LockAccount(address);
      RequestIsAStep(users, rows, address, account, code, now);
      if address in rows {
        var retryAfter := RequestRetryAfter(rows[address], now);
        if retryAfter.Some? {
          return account, Err(retryAfter.value);
        }
      }
      var row := RequestedRow(address, account, code, now);
      rows := rows[address := row];
      r := Ok(if account.Some? then Some(Delivery(address, row.sendAttemptId, code, row.expiresAt)) else None);
    }

    /** Checks a code: a wrong one is counted, the right one yields the authorization. */
    method Verify(address: nat, code: nat, now: int)
      returns (account: Option<nat>, verdict: Verdict, rejection: Option<Rejection>)
      modifies this`rows
      ensures IsAccount(users, address, account)
      ensures address !in old(rows) ==> verdict == Unusable && rejection == Some(CODE_UNUSABLE) && rows == old(rows)
      ensures address in old(rows) ==>
                && verdict == Judge(old(rows)[address], address, account, code, now)
                && rows == old(rows)[address := Judged(old(rows)[address], verdict, now)]
                && IsAnswer(old(rows)[address], address, account, code, now, verdict)
                && var (row, row') := (old(rows)[address], rows[address]);
                   && (verdict.Wrong? ==> CountsMiss(row, row', now))
                   && (verdict.Right? && IsOpen(row, now) ==> IsAuthorizing(row, row', verdict, now))
                   && (!verdict.Wrong? && !(verdict.Right? && IsOpen(row, now)) ==> row' == row)
      ensures rejection == match verdict
                           case Limited(seconds) => Some(RATE_LIMITED(seconds))
                           case Unusable => Some(CODE_UNUSABLE)
                           case Wrong => Some(if rows[address].attempts >= 5 then CODE_UNUSABLE else CODE_INVALID)
                           case Right(_, _) => None
      ensures Apply(At(users, old(rows)), VerifyCode(address, account, code, now))
              == At(users, rows).(log := if address in rows then VerdictEntries(address, rows[address], verdict, now)
                                         else [], clock := now)
    {
      account := LockAccount(address);
      VerifyIsAStep(users, rows, address, account, code, now);
      if address !in rows {
        return account, Unusable, Some(CODE_UNUSABLE);
      }
      var row := rows[address];
      var retryAfter := VerifyRetryAfter(row, now);
      if retryAfter.Some? {
        return account, Limited(retryAfter.value), Some(RATE_LIMITED(retryAfter.value));
      }
      var state := StateAt(row, now);
      if state == Ended {
        return account, Unusable, Some(CODE_UNUSABLE);
      }
      var codeHash := if account.Some? && row.userId == account then row.codeHash else None;
      if codeHash.None? || CodeHash(address, code) != codeHash.value {
        var exhausted := row.attempts + 1 >= MAX_CODE_ATTEMPTS;
        Miss(address, exhausted, now);
        return account, Wrong, Some(if exhausted then CODE_UNUSABLE else CODE_INVALID);
      }
      rejection := None;
      if state == Verified {
        var token := Token(address, row.userId.value, codeHash.value, row.verifiedAt.value);
        return account, Right(token, SecondsUntil(row.tokenExpiresAt.value, now)), None;
      }
      var tokenExpiresAt := TokenExpiry(now, row.expiresAt);
      var token := Token(address, row.userId.value, codeHash.value, now);
      rows := rows[address := row.(verifiedAt := Some(now), token := Some(token),
                                   tokenExpiresAt := Some(tokenExpiresAt))];
      verdict := Right(token, SecondsUntil(tokenExpiresAt, now));
      assert IsTokenExpiry(tokenExpiresAt, row, now) && IsSecondsTo(verdict.expiresIn, tokenExpiresAt, now);
    }

    method Miss(address: nat, exhausted: bool, now: int)
      requires address in rows && (exhausted <==> rows[address].attempts >= 4)
      modifies this`rows
      ensures rows == old(rows)[address := Missed(old(rows)[address], now)]
      ensures CountsMiss(old(rows)[address], rows[address], now)
    {
      var row := rows[address];
      var window := CurrentWindow(row.window, now);
      var missed := row.(attempts := row.attempts + 1,
                         window := row.window.(startedAt := window.startedAt, failed := window.failed + 1));
      if exhausted {
        missed := missed.(token := None, tokenExpiresAt := None);
      }
      rows := rows[address := missed];
    }

    /** Finds the challenge behind a token, with nothing locked. */
    method FindAuthorization(token: Token, now: int) returns (found: Option<Completion>)
      ensures found.Some? ==>
                && found.value.token == token && found.value.readAt == now && found.value.address in rows
                && rows[found.value.address].token == Some(token) && IsAuthorized(rows[found.value.address], now)
                && rows[found.value.address].userId == Some(found.value.userId)
      ensures found.None? ==> forall a :: a in rows && rows[a].token == Some(token) && rows[a].userId.Some? ==>
                                            !IsAuthorized(rows[a], now)
      ensures found.Some? ==>
                var c := found.value;
                Apply(At(users, rows), CompleteRead(0, c.address, token, now)).completions == map[0 := c]
    {
      var todo := rows.Keys;
      while todo != {}
        invariant todo <= rows.Keys
        invariant forall a :: a in rows && a !in todo ==> !CanComplete(rows[a], token, now)
        decreases todo
      {
        var a :| a in todo;
        if CanComplete(rows[a], token, now) {
          return Some(Completion(a, rows[a].userId.value, token, now));
        }
        todo := todo - {a};
      }
      return None;
    }

    /** Looks again under the locks, then replaces the password and uses the authorization up. */
    method Complete(found: Completion, password: Password, now: int) returns (ok: bool)
      modifies this
      ensures ok <==>
              && found.userId in old(users) && found.address in old(rows)
              && old(rows)[found.address].userId == Some(found.userId)
              && old(users)[found.userId].address == found.address
              && old(rows)[found.address].token == Some(found.token) && IsAuthorized(old(rows)[found.address], now)
      ensures !ok ==> users == old(users) && rows == old(rows)
      ensures ok ==>
                && rows == old(rows)[found.address := Completed(old(rows)[found.address], now)]
                && rows[found.address] == old(rows)[found.address].(completedAt := Some(now), codeHash := None,
                                                                    token := None)
                && users == old(users)[found.userId := old(users)[found.userId].(
                                         password := password, authVersion := old(users)[found.userId].authVersion + 1)]
                && forall t :: !CanComplete(rows[found.address], found.token, t)
      ensures Apply(At(old(users), old(rows)).(completions := map[0 := found]), CompleteCommit(0, password, now))
              == At(users, rows).(log := if ok then [Use(found.address, found.userId, found.token, now)] else [],
                                  clock := now)
    {
      if found.userId !in users || found.address !in rows {
        return false;
      }
      var user, challenge := users[found.userId], rows[found.address];
      if challenge.userId != Some(found.userId) || user.address != found.address
         || !CanComplete(challenge, found.token, now) {
        return false;
      }
      users := users[found.userId := user.(password := password, authVersion := user.authVersion + 1)];
      rows := rows[found.address := challenge.(completedAt := Some(now), codeHash := None, token := None)];
      ok := true;
    }

    /** Records how a delivery ended; a newer request has overtaken it when the ids differ. */
    method RecordDelivery(delivery: Delivery, status: SendStatus, now: int)
      modifies this`rows
      ensures delivery.address in old(rows) && old(rows)[delivery.address].sendAttemptId == delivery.attemptId ==>
                var row := old(rows)[delivery.address];
                && rows == old(rows)[delivery.address := Delivered(row, delivery.attemptId, status, now)]
                && var sentAt := if status == SendDone then Some(now) else row.lastSentAt;
                   rows[delivery.address] == row.(sendStatus := Some(status), lastSentAt := sentAt)
      ensures delivery.address !in old(rows) || old(rows)[delivery.address].sendAttemptId != delivery.attemptId ==>
                rows == old(rows)
      ensures Apply(At(users, old(rows)), Deliver(delivery.address, delivery.attemptId, status, now)) == At(users, rows)
    {
      if delivery.address in rows && rows[delivery.address].sendAttemptId == delivery.attemptId {
        var row := rows[delivery.address];
        if status == SendDone {
          row := row.(sendStatus := Some(status), lastSentAt := Some(now));
        } else {
          row := row.(sendStatus := Some(status));
        }
        rows := rows[delivery.address := row];
      }
    }
  }
}
