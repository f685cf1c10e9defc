/** The member and space services as methods over the member rows, each call with nothing in between. */
module MembershipService {
  import opened Basics
  import opened Membership
  import opened MembershipProofs
  import opened MembershipOutcome
  import Queue = InviteQueue

  /** How the recipient names the invitation; addresses are compared in their normalized form. */
  datatype Credential = ByToken | ByCode

  datatype JoinRefusal = Unusable(credential: Credential) | EmailMismatch | AlreadyMember | MemberLimitReached

  datatype Invitation = Invitation(delivery: Queue.Invite, acceptedBy: Option<nat>)

  type Invitations = map<nat, Invitation>

  ghost predicate IsFor(invites: Invitations, i: nat, email: string) {
    i in invites && invites[i].delivery.email == email
  }

  ghost predicate HasRoom(rows: Rows, space: nat) {
    |set i | i in rows && rows[i].space == space| < 20
  }

  /** Neither accepted nor revoked nor expired. */
  predicate IsOpen(row: Queue.Invite, now: int) {
    row.acceptedAt.None? && row.revokedAt.None? && now < row.expiresAt
  }

  /** Accepting ends an invitation, and any attempt to deliver it. */
  predicate IsAccepted(row: Queue.Invite, row': Queue.Invite, now: int) {
    row' == row.(acceptedAt := Some(now), nextAttemptAt := None, leaseExpiresAt := None, attemptId := row.attemptId + 1)
  }

  /** The invitations as a state of the queue's runs. */
  function QueueAt(invites: Invitations, now: int): Queue.State {
    Queue.State(now, 0, map i | i in invites :: invites[i].delivery, map[], map[], [])
  }

  ghost predicate InvitationsOk(invites: Invitations, spaces: set<nat>) {
    forall i :: i in invites ==> invites[i].delivery.spaceId in spaces
  }

  /** Deleting a space deletes its invitations. */
  function WithoutSpace(invites: Invitations, space: nat): Invitations {
    map i | i in invites && invites[i].delivery.spaceId != space :: invites[i]
  }

  /** The rows a removal reads under its locks. */
  function LockedRows(rows: Rows, job: Job): Rows {
    map i | i in ToLock(rows, job) :: rows[i]
  }

  lemma LockedRowsAreKnown(rows: Rows, job: Job)
    ensures Knows(rows, LockedRows(rows, job), job)
    ensures OfUser(LockedRows(rows, job), job.actor) == OfUser(rows, job.actor)
  {
  }

  function Tables(rows: Rows, spaces: set<nat>, nextId: nat, nextSpace: nat): State {
    State(rows, spaces, nextId, nextSpace, map[], map[], map[])
  }

  /** The invitation is accepted by the user, as a step of the queue; the others are as they were. */
  ghost predicate IsAcceptance(invites: Invitations, invites': Invitations, i: nat, user: nat, now: int)
    requires i in invites && i in invites'
  {
    && invites' == invites[i := invites'[i]] && invites'[i].acceptedBy == Some(user)
    && IsAccepted(invites[i].delivery, invites'[i].delivery, now)
    && QueueAt(invites', now) == Queue.Apply(QueueAt(invites, now), Queue.Accept(i))
  }

  ghost predicate LosesSpace(invites: Invitations, invites': Invitations, space: nat) {
    && (forall i :: i in invites' <==> i in invites && invites[i].delivery.spaceId != space)
    && (forall i :: i in invites' ==> invites'[i] == invites[i])
  }

  /** The tables a decided removal leaves. */
  function Removed(before: State, job: Job, d: Decision): State {
    before.(rows := Perform(before.rows, d),
            spaces := if d.RemoveSpace? then before.spaces - {job.space} else before.spaces)
  }

  lemma DecidedRemovalKeepsTables(before: State, job: Job, d: Decision)
    requires TablesOk(before) && Decides(LockedRows(before.rows, job), job, d)
    ensures TablesOk(Removed(before, job, d))
  {
    LockedRowsAreKnown(before.rows, job);
    var locked := LockedRows(before.rows, job);
    if !d.Refuse? {
      JobSpaceExists(before, locked, job, d);
      DecisionKeepsOwner(before.rows, locked, job, d);
      RemovalKeepsTables(before, Removed(before, job, d), locked, job, d);
    }
  }

  lemma StrangersAreRefused(locked: Rows, job: Job)
    requires forall i :: i in locked ==> !IsMember(locked, i, job.space, job.actor)
    ensures Decides(locked, job, Refuse(ForbiddenSpace))
  {
  }

  lemma DeletionIsDecided(locked: Rows, job: Job, me: nat, d: Decision)
    requires job.DeleteSpace? && IsMember(locked, me, job.space, job.actor)
    requires d == if locked[me].role != Owner then Refuse(ForbiddenSpace)
                  else if |OfUser(locked, job.actor)| <= 1 then Refuse(LastRemaining)
                  else RemoveSpace(job.space)
    ensures Decides(locked, job, d)
  {
    assert DecidesFor(locked, job, me, d);
  }

  ghost predicate AllOk(s: State, invites: Invitations) {
    TablesOk(s) && InvitationsOk(invites, s.spaces)
  }

  lemma CarriedOutRemovalIsOk(before: State, invites: Invitations, after: State, invites': Invitations,
      locked: Rows, job: Job, d: Decision)
    requires AllOk(before, invites) && locked == LockedRows(before.rows, job) && Decides(locked, job, d)
    requires after == Removed(before, job, d)
    requires invites' == if d.RemoveSpace? then WithoutSpace(invites, job.space) else invites
    ensures AllOk(after, invites')
  {
    DecidedRemovalKeepsTables(before, job, d);
  }

  lemma WhatLeavingComesTo(rows: Rows, job: Job, d: Decision)
    requires NobodyTwice(rows) && job.Leave? && Decides(LockedRows(rows, job), job, d)
    ensures d.Refuse? <==> WhyNotLeave(rows, job.space, job.actor, job.target).Some?
    ensures d.Refuse? ==> WhyNotLeave(rows, job.space, job.actor, job.target) == Some(d.error)
    ensures !d.Refuse? ==> HasGone(rows, Perform(rows, d), job.space, job.actor, job.target)
    ensures !d.Refuse? ==> (d.RemoveSpace? <==> TakesItAlong(rows, job.space, job.actor, job.target))
  {
    LockedRowsAreKnown(rows, job);
    RefusalsAreExact(rows, LockedRows(rows, job), job, d);
    if !d.Refuse? {
      LeavingTakesTheUserOut(rows, LockedRows(rows, job), job, d);
      SpaceGoesWithItsLastMember(rows, LockedRows(rows, job), job, d);
    }
  }

  /** The tables after a request to leave or to remove, and its answer. */
  ghost predicate LeavesAsAsked(before: State, invites: Invitations, after: State, invites': Invitations, space: nat,
      actor: nat, target: nat, res: Result<(), Refusal>) {
    var why := WhyNotLeave(before.rows, space, actor, target);
    if why.Some? then res == Err(why.value) && after == before && invites' == invites
    else
      && res == Ok(()) && HasGone(before.rows, after.rows, space, actor, target)
      && after.nextId == before.nextId && after.nextSpace == before.nextSpace
      && if TakesItAlong(before.rows, space, actor, target)
         then after.spaces == before.spaces - {space} && LosesSpace(invites, invites', space)
         else after.spaces == before.spaces && invites' == invites
  }

  lemma CarriedOutLeaveIsAsAsked(before: State, invites: Invitations, after: State, invites': Invitations, job: Job,
      d: Decision)
    requires AllOk(before, invites) && Decides(LockedRows(before.rows, job), job, d) && job.Leave?
    requires after == Removed(before, job, d)
    requires invites' == if d.RemoveSpace? then WithoutSpace(invites, job.space) else invites
    ensures LeavesAsAsked(before, invites, after, invites', job.space, job.actor, job.target,
                          if d.Refuse? then Err(d.error) else Ok(()))
  {
    WhatLeavingComesTo(before.rows, job, d);
  }

  lemma LeavingLeavesNobody(before: State, invites: Invitations, after: State, invites': Invitations, space: nat,
      actor: nat, target: nat, res: Result<(), Refusal>)
    requires LeavesAsAsked(before, invites, after, invites', space, actor, target, res) && res.Ok?
    ensures forall i :: i in after.rows ==> !IsMember(after.rows, i, space, target)
  {
    NobodyStays(before.rows, after.rows, space, actor, target);
  }

  lemma WhatDeletingComesTo(rows: Rows, job: Job, d: Decision)
    requires NobodyTwice(rows) && job.DeleteSpace? && Decides(LockedRows(rows, job), job, d)
    ensures d.Refuse? <==> WhyNotDelete(rows, job.space, job.actor).Some?
    ensures d.Refuse? ==> WhyNotDelete(rows, job.space, job.actor) == Some(d.error)
    ensures !d.Refuse? ==> d.RemoveSpace? && IsDeleted(rows, Perform(rows, d), job.space)
  {
    LockedRowsAreKnown(rows, job);
    RefusalsAreExact(rows, LockedRows(rows, job), job, d);
    if !d.Refuse? {
      DeletingTakesTheSpaceAway(rows, LockedRows(rows, job), job, d);
    }
  }

  lemma RoomIsRoom(rows: Rows, space: nat)
    ensures HasRoom(rows, space) <==> |InSpace(rows, space)| < MAX_MEMBERS_PER_SPACE
  {
    assert InSpace(rows, space) == set i | i in rows && rows[i].space == space;
  }

  lemma JoiningIsAStep(s: State, user: nat, space: nat, at: int)
    requires space in s.spaces && s.spaceLocks == map[] && HasRoom(s.rows, space) && !IsIn(s.rows, space, user)
    ensures Apply(s, Membership.Join(user, space, at))
            == s.(rows := s.rows[s.nextId := Member(space, user, Plain, at)], nextId := s.nextId + 1)
  {
    RoomIsRoom(s.rows, space);
  }

  lemma NobodyElseIsAccepted(invites: Invitations, i: nat, user: nat, now: int)
    requires i in invites && IsOpen(invites[i].delivery, now)
    ensures QueueAt(invites[i := Invitation(Queue.Accepted(invites[i].delivery, now), Some(user))], now)
            == Queue.Apply(QueueAt(invites, now), Queue.Accept(i))
  {
  }

  class MembershipService {
    var rows: Rows
    var spaces: set<nat>
    var nextId: nat
    var nextSpace: nat
    var invites: Invitations

    ghost predicate Valid()
      reads this
    {
      AllOk(Tables(rows, spaces, nextId, nextSpace), invites)
    }

    constructor ()
      ensures Valid() && rows == map[] && spaces == {} && invites == map[]
    {
      rows, spaces, nextId, nextSpace, invites := map[], {}, 0, 0, map[];
    }

    method CreateSpace(user: nat, now: int) returns (space: nat)
      requires Valid()
      modifies this
      ensures Valid() && space !in old(spaces) && spaces == old(spaces) + {space}
      ensures rows == old(rows)[old(nextId) := Member(space, user, Owner, now)] && invites == old(invites)
      ensures Tables(rows, spaces, nextId, nextSpace)
              == Apply(Tables(old(rows), old(spaces), old(nextId), old(nextSpace)), Membership.CreateSpace(user, now))
    {
      ghost var before := Tables(rows, spaces, nextId, nextSpace);
      space := nextSpace;
      spaces, nextSpace := spaces + {space}, nextSpace + 1;
      rows, nextId := rows[nextId := Member(space, user, Owner, now)], nextId + 1;
      FoundedSpaceIsOk(before.rows, before.nextId, Member(space, user, Owner, now));
      InsertKeepsTables(before, Tables(rows, spaces, nextId, nextSpace), Member(space, user, Owner, now));
    }

    method Insert(member: Member)
      requires Valid() && member.space in spaces && member.role == Plain
      requires |InSpace(rows, member.space)| < MAX_MEMBERS_PER_SPACE
      requires forall i :: i in rows ==> !IsMember(rows, i, member.space, member.user)
      modifies this`rows, this`nextId
      ensures Valid() && rows == old(rows)[old(nextId) := member] && nextId == old(nextId) + 1
    {
      ghost var before := Tables(rows, spaces, nextId, nextSpace);
      JoinedSpaceIsOk(rows, nextId, member);
      rows, nextId := rows[nextId := member], nextId + 1;
      InsertKeepsTables(before, Tables(rows, spaces, nextId, nextSpace), member);
    }

    method MarkAccepted(i: nat, user: nat, now: int)
      requires Valid() && i in invites && IsOpen(invites[i].delivery, now)
      modifies this`invites
      ensures Valid()
      ensures i in invites && IsAcceptance(old(invites), invites, i, user, now)
    {
      NobodyElseIsAccepted(invites, i, user, now);
      var row := invites[i].delivery.(acceptedAt := Some(now), nextAttemptAt := None, leaseExpiresAt := None);
      invites := invites[i := Invitation(row.(attemptId := row.attemptId + 1), Some(user))];
    }

    /** The acceptance itself. */
    method Admit(user: nat, space: nat, i: nat, now: int)
      requires Valid() && i in invites && IsOpen(invites[i].delivery, now) && invites[i].delivery.spaceId == space
      requires !IsIn(rows, space, user) && HasRoom(rows, space)
      modifies this`rows, this`nextId, this`invites
      ensures Valid() && rows == old(rows)[old(nextId) := Member(space, user, Plain, now)]
      ensures Tables(rows, spaces, nextId, nextSpace)
              == Apply(Tables(old(rows), spaces, old(nextId), nextSpace), Membership.Join(user, space, now))
      ensures i in invites && IsAcceptance(old(invites), invites, i, user, now)
    {
      RoomIsRoom(rows, space);
      assert space in spaces;
      JoiningIsAStep(Tables(rows, spaces, nextId, nextSpace), user, space, now);
      Insert(Member(space, user, Plain, now));
      MarkAccepted(i, user, now);
    }

    /** Lets the recipient of an invitation in: exactly while it is active, theirs, and the space has room. */
    method Join(user: nat, email: string, i: nat, credential: Credential, now: int)
      returns (res: Result<bool, JoinRefusal>)
      requires Valid()
      modifies this`rows, this`nextId, this`invites
      ensures Valid()
      ensures res == Ok(true) <==>
              && IsFor(old(invites), i, email)
              && var (invite, space) := (old(invites)[i].delivery, old(invites)[i].delivery.spaceId);
                 !IsIn(old(rows), space, user) && IsOpen(invite, now) && HasRoom(old(rows), space)
      ensures res == Ok(true) ==>
                var space := old(invites)[i].delivery.spaceId;
                && rows == old(rows)[old(nextId) := Member(space, user, Plain, now)]
                && Tables(rows, spaces, nextId, nextSpace)
                   == Apply(Tables(old(rows), spaces, old(nextId), nextSpace), Membership.Join(user, space, now))
      ensures res == Ok(true) ==> i in invites && IsAcceptance(old(invites), invites, i, user, now)
      ensures res != Ok(true) ==> rows == old(rows) && invites == old(invites)
      ensures res == Ok(false) || res == Err(AlreadyMember) <==>
              IsFor(old(invites), i, email) && IsIn(old(rows), old(invites)[i].delivery.spaceId, user)
      ensures res == Ok(false) ==> old(invites)[i].acceptedBy == Some(user)
      ensures res == Err(AlreadyMember) ==> old(invites)[i].acceptedBy != Some(user)
      ensures res == Err(MemberLimitReached) <==>
              && IsFor(old(invites), i, email)
              && var (invite, space) := (old(invites)[i].delivery, old(invites)[i].delivery.spaceId);
                 !IsIn(old(rows), space, user) && IsOpen(invite, now) && !HasRoom(old(rows), space)
      ensures res == Err(EmailMismatch) <==>
              && credential == ByToken && i in old(invites) && !IsFor(old(invites), i, email)
              && IsOpen(old(invites)[i].delivery, now)
      ensures res.Err? && res.error.Unusable? ==> res.error.credential == credential
    {
      if i !in invites {
        return Err(Unusable(credential));
      }
      var invite := invites[i];
      var (space, active) := (invite.delivery.spaceId, Queue.IsActive(invite.delivery, now));
      if invite.delivery.email != email {
        return Err(if credential == ByToken && active then EmailMismatch else Unusable(credential));
      }
      if m :| m in rows && IsMember(rows, m, space, user) {
        return if invite.acceptedBy == Some(user) then Ok(false) else Err(AlreadyMember);
      }
      if !active {
        return Err(Unusable(credential));
      }
      RoomIsRoom(rows, space);
      if |InSpace(rows, space)| >= MAX_MEMBERS_PER_SPACE {
        return Err(MemberLimitReached);
      }
      Admit(user, space, i, now);
      return Ok(true);
    }

    /** Locks the rows one by one, as they are then. */
    method LockMembers(job: Job) returns (locked: Rows, actor: Option<nat>)
      ensures locked == LockedRows(rows, job)
      ensures actor.Some? ==> IsMember(locked, actor.value, job.space, job.actor)
      ensures actor.None? ==> forall i :: i in locked ==> !IsMember(locked, i, job.space, job.actor)
    {
      locked, actor := map[], None;
      var todo := ToLock(rows, job);
      while todo != {}
        invariant todo + locked.Keys == ToLock(rows, job) && todo !! locked.Keys
        invariant forall i :: i in locked ==> locked[i] == rows[i]
        invariant actor.Some? ==> IsMember(locked, actor.value, job.space, job.actor)
        invariant actor.None? ==> forall i :: i in locked ==> !IsMember(locked, i, job.space, job.actor)
        decreases todo
      {
        var i :| i in todo;
        locked := locked[i := rows[i]];
        todo := todo - {i};
        if rows[i].space == job.space && rows[i].user == job.actor {
          actor := Some(i);
        }
      }
    }

    /** The longest-standing other member of the space, if there is one. */
    method FindSuccessor(locked: Rows, space: nat, owner: nat) returns (next: Option<nat>)
      ensures next.Some? ==> IsSuccessor(locked, space, owner, next.value)
      ensures next.Some? ==>
                forall j :: j in locked && locked[j].space == space && j != owner ==>
                              && locked[next.value].createdAt <= locked[j].createdAt
                              && (locked[next.value].createdAt == locked[j].createdAt ==> next.value <= j)
      ensures next.None? ==> InSpace(locked, space) <= {owner}
    {
      next := None;
      var others := InSpace(locked, space) - {owner};
      ghost var all := others;
      while others != {}
        invariant others <= all
        invariant next.None? ==> others == all
        invariant next.Some? ==> next.value in all
        invariant next.Some? ==> forall j :: j in all && j !in others ==> Precedes(locked, next.value, j)
        decreases others
      {
        var j :| j in others;
        if next.None? || Precedes(locked, j, next.value) {
          next := Some(j);
        }
        others := others - {j};
      }
      assert forall j :: j in locked && locked[j].space == space && j != owner ==> j in all;
    }

    /** Deletes the members and then the space, unless it is the owner's last one. */
    method RemoveOwned(space: nat, actorSpaces: nat) returns (res: Result<(), Refusal>)
      modifies this`rows, this`spaces, this`invites
      ensures res == if actorSpaces <= 1 then Err(LastRemaining) else Ok(())
      ensures res.Err? ==> rows == old(rows) && spaces == old(spaces) && invites == old(invites)
      ensures res.Ok? ==>
                && rows == Perform(old(rows), RemoveSpace(space)) && spaces == old(spaces) - {space}
                && invites == WithoutSpace(old(invites), space) && IsDeleted(old(rows), rows, space)
    {
      if actorSpaces <= 1 {
        return Err(LastRemaining);
      }
      rows := rows - InSpace(rows, space);
      spaces := spaces - {space};
      invites := WithoutSpace(invites, space);
      return Ok(());
    }

    method RemoveOther(locked: Rows, me: nat, job: Job) returns (ghost decision: Decision, res: Result<(), Refusal>)
      requires job.Leave? && job.target != job.actor && IsMember(locked, me, job.space, job.actor)
      modifies this`rows
      ensures Decides(locked, job, decision) && !decision.RemoveSpace?
      ensures rows == Perform(old(rows), decision)
      ensures res == if decision.Refuse? then Err(decision.error) else Ok(())
    {
      decision, res := Refuse(NotFound), Err(NotFound);
      if locked[me].role != Owner {
        decision, res := Refuse(ForbiddenSpace), Err(ForbiddenSpace);
      } else if target :| target in locked && IsMember(locked, target, job.space, job.target) {
        rows := rows - {target};
        decision, res := RemoveRow(target), Ok(());
      }
      assert DecidesFor(locked, job, me, decision);
    }

    method LeaveSelf(locked: Rows, me: nat, job: Job) returns (ghost decision: Decision, res: Result<(), Refusal>)
      requires locked == LockedRows(rows, job)
      requires job.Leave? && job.target == job.actor && IsMember(locked, me, job.space, job.actor)
      modifies this`rows, this`spaces, this`invites
      ensures Decides(locked, job, decision)
      ensures rows == Perform(old(rows), decision)
      ensures spaces == if decision.RemoveSpace? then old(spaces) - {job.space} else old(spaces)
      ensures invites == if decision.RemoveSpace? then WithoutSpace(old(invites), job.space) else old(invites)
      ensures res == if decision.Refuse? then Err(decision.error) else Ok(())
    {
      LockedRowsAreKnown(rows, job);
      res := Ok(());
      if locked[me].role != Owner {
        rows := rows - {me};
        decision := RemoveRow(me);
      } else {
        var next := FindSuccessor(locked, job.space, me);
        if next.None? {
          assert InSpace(locked, job.space) == {me};
          res := RemoveOwned(job.space, |OfUser(locked, job.actor)|);
          decision := if res.Err? then Refuse(LastRemaining) else RemoveSpace(job.space);
        } else {
          rows := rows - {me};
          rows := rows[next.value := rows[next.value].(role := Owner)];
          decision := HandOver(me, next.value);
        }
      }
      assert DecidesFor(locked, job, me, decision);
    }

    /** Removes a member, hands a leaving owner's space to its successor, or deletes it with its last member. */
    method LeaveOrRemove(space: nat, actingUser: nat, targetUser: nat)
      returns (res: Result<(), Refusal>, ghost decision: Decision)
      requires Valid()
      modifies this`rows, this`spaces, this`invites
      ensures Valid()
      ensures LeavesAsAsked(Tables(old(rows), old(spaces), nextId, nextSpace), old(invites),
                            Tables(rows, spaces, nextId, nextSpace), invites, space, actingUser, targetUser, res)
      ensures res.Ok? ==> forall i :: i in rows ==> !IsMember(rows, i, space, targetUser)
      ensures Decides(LockedRows(old(rows), Leave(space, actingUser, targetUser)),
                      Leave(space, actingUser, targetUser), decision)
      ensures rows == Perform(old(rows), decision)
    {
      var job := Leave(space, actingUser, targetUser);
      ghost var (before, invited) := (Tables(rows, spaces, nextId, nextSpace), invites);
      var locked, actor := LockMembers(job);
      if actor.None? {
        StrangersAreRefused(locked, job);
        CarriedOutLeaveIsAsAsked(before, invited, before, invited, job, Refuse(ForbiddenSpace));
        return Err(ForbiddenSpace), Refuse(ForbiddenSpace);
      }
      if targetUser != actingUser {
        decision, res := RemoveOther(locked, actor.value, job);
      } else {
        decision, res := LeaveSelf(locked, actor.value, job);
      }
      CarriedOutRemovalIsOk(before, invited, Tables(rows, spaces, nextId, nextSpace), invites, locked, job,
                            decision);
      ghost var after := Tables(rows, spaces, nextId, nextSpace);
      CarriedOutLeaveIsAsAsked(before, invited, after, invites, job, decision);
      if res.Ok? {
        LeavingLeavesNobody(before, invited, after, invites, space, actingUser, targetUser, res);
      }
    }

    method DeleteAsOwner(locked: Rows, me: nat, job: Job) returns (ghost decision: Decision, res: Result<(), Refusal>)
      requires job.DeleteSpace? && IsMember(locked, me, job.space, job.actor)
      modifies this`rows, this`spaces, this`invites
      ensures Decides(locked, job, decision)
      ensures rows == Perform(old(rows), decision)
      ensures spaces == if decision.RemoveSpace? then old(spaces) - {job.space} else old(spaces)
      ensures invites == if decision.RemoveSpace? then WithoutSpace(old(invites), job.space) else old(invites)
      ensures res == if decision.Refuse? then Err(decision.error) else Ok(())
    {
      decision, res := Refuse(ForbiddenSpace), Err(ForbiddenSpace);
      if locked[me].role == Owner {
        res := RemoveOwned(job.space, |OfUser(locked, job.actor)|);
        decision := if res.Err? then Refuse(LastRemaining) else RemoveSpace(job.space);
      }
      DeletionIsDecided(locked, job, me, decision);
    }

    /** Deletes a space for its owner. */
    method Remove(user: nat, space: nat) returns (res: Result<(), Refusal>, ghost decision: Decision)
      requires Valid()
      modifies this`rows, this`spaces, this`invites
      ensures Valid()
      ensures var why := WhyNotDelete(old(rows), space, user);
              res == if why.Some? then Err(why.value) else Ok(())
      ensures res.Err? ==> rows == old(rows) && spaces == old(spaces) && invites == old(invites)
      ensures res.Ok? ==>
                && IsDeleted(old(rows), rows, space) && spaces == old(spaces) - {space}
                && LosesSpace(old(invites), invites, space)
      ensures Decides(LockedRows(old(rows), DeleteSpace(space, user)), DeleteSpace(space, user), decision)
      ensures rows == Perform(old(rows), decision)
    {
      var job := DeleteSpace(space, user);
      ghost var (before, invited) := (Tables(rows, spaces, nextId, nextSpace), invites);
      var locked, actor := LockMembers(job);
      if actor.None? {
        StrangersAreRefused(locked, job);
        WhatDeletingComesTo(rows, job, Refuse(ForbiddenSpace));
        return Err(ForbiddenSpace), Refuse(ForbiddenSpace);
      }
      decision, res := DeleteAsOwner(locked, actor.value, job);
      CarriedOutRemovalIsOk(before, invited, Tables(rows, spaces, nextId, nextSpace), invites, locked, job, decision);
      WhatDeletingComesTo(before.rows, job, decision);
    }
  }
}
