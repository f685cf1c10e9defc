# A model of the budget backend, and what holds of it

Dafny 4.11. `dafny verify dfyconfig.toml` checks everything.

The repository is a budget backend over MySQL. This project models the parts of it that are protocols, rewrites
and ordered reads, and proves what they promise for every run, every table or every input.

## How it is modelled

- Tables are maps and sets, a log is a sequence. One locked database transaction is one step; what the code reads
  without a lock, sends without a transaction or awaits in between is a step of its own.
- Each protocol has a total step function over events, so that a run is any sequence of events at all. What the
  program does not store but a property speaks of (sends since a scheduling, answers given, entries purged) is kept
  beside the tables as history.
- Each service that rewrites rows is also a class whose methods make the same branches and writes, proved against the
  functions that the runs are built from, and against what the source promises, told from the rows' own fields.
- Hashes, HMACs and derived tokens are injective, so they are written as the values they are made from. The clock,
  random codes, SMTP outcomes, and rows read by queries of other modules are parameters.

| files | component |
|---|---|
| `InviteQueue`, `InviteQueueSafety`, `InviteQueueLease`, `InviteQueueOverlap` | the invitation rows as a lease-based work queue |
| `InviteLimits`, `InviteLimitsProofs`, `InviteLimitsRuns`, `InviteLimitsInNumbers` | the sliding-window limits over the purged send log |
| `InviteDelivery`, `InviteService` | waits, attempts, passes, and the service itself |
| `Membership`, `MembershipProofs`, `MembershipOutcome`, `MembershipService` | lock, recheck, commit; one owner per space; who is gone afterwards |
| `CatalogRules`, `CatalogMigration`, `CatalogMigrationProofs`, `CatalogMigrationAgain` | the catalog and what migrating to it means |
| `CatalogOutcome` | what becomes of one category, and what is refused |
| `CatalogConflicts`, `CatalogReplacement`, `CatalogMigrator` | the migration that gets there, statement by statement |
| `PasswordReset`, `PasswordResetProofs`, `PasswordResetChallenges`, `PasswordResetWaits`, `PasswordResetSessions` | challenges, windows, waits, sessions |
| `PasswordResetOrder`, `PasswordResetReuse` | limits per hour, tokens are used once, and when they could be used twice |
| `PasswordResetService`, `UserService` | the two services |
| `Feed`, `FeedProofs`, `FeedAround` | pages, cursors and windows over one sorted list |
| `LimitRules`, `LimitServices`, `LimitMeaning` | limits and categories, two services with one rule |
| `Idempotency`, `IdempotencyService`, `IdempotencyPurger`, `TransactionOperations` | keys, the claim of one, their purge, operation ids |
| `Trend`, `Money` | trend buckets; cents as text and percentages |

## Where the code does not do what is said of it

- The comment on derived reset tokens says that a repeated code yields the same token instead of a second one. That
  holds within a challenge. Two challenges of one row give one token when their codes and verification times are equal,
  and the cooldown alone does not prevent that. What does is the hashing of the new password between a completion's
  read and its transaction: as long as that takes a millisecond and clock readings come in order, no token completes
  twice (`NoTokenCompletesTwice`). If it took none, a used token could be used again exactly while the clock still shows
  the millisecond of its verification and neither a request nor a code is refused then (`SecondUseCondition`);
  `ConditionCanBeMet` shows that this could happen for every account, address and code.
- A wrong code that opens a new window leaves the old request count in place, so the stored count is only an upper
  bound of the requests of that window.
- The claim and its read-back are two statements. Exclusive sending and the send budget need the read-back within the
  lease; `LateReadBackLetsSendsOverlap` and `LateReadBackMissesTheDelayTable` are runs that show what happens otherwise,
  and `SecondSenderCondition` says exactly when a second sender can come. At most one recorded result per attempt needs
  nothing.
- The limits of an address and of a sender can be passed by overlapping requests, as the code itself says; those of an
  invitation and of a space cannot. `OverlapAddsAtMostItsEntries` says by how much, and a run reaches it.
- A scheduling check reads its clock before the log. A purge with a later clock in between hides entries the check
  should count, so the 24 hours of a limit are shorter by as much as the one clock was behind the other; full days keep
  it exactly when no clock was (`FullDaysNeedClocksInOrder`).
- Unlinking a category may leave a name on a limit that is no longer a group, so only "a group has a name" holds. A
  plain member may leave their last space, so only an owner who deletes a space is sure to keep one.

## Model

| member | source | states |
|---|---|---|
| `InviteQueueLease.LeaseGivesExclusiveSending` | src/modules/spaces/space-invite-delivery.ts:280-382 | In every interleaving where each live attempt ends within its lease, no two workers mail one invitation at once, every read-back saw an active invitation, at most 5 sends follow a scheduling, and the retry delay looked up exists |
| `InviteQueueLease.LateReadBackLetsSendsOverlap` | src/modules/spaces/space-invite-delivery.ts:346-379 | Without the lease assumption the first part fails: a concrete run in which a read-back after the lease lets two workers mail one invitation at once |
| `InviteQueueLease.LateReadBackMissesTheDelayTable` | src/modules/spaces/space-invite-delivery.ts:320-338 | A concrete run in which a late read-back sees a fresh budget and a failed attempt looks for the delay of attempt zero |
| `InviteQueueOverlap.SecondSenderCondition` | src/modules/spaces/space-invite-delivery.ts:342-382 | After any run within the leases, with a worker mailing an invitation, some continuation that breaks the lease has a second worker mailing it meanwhile if and only if its row is there, is not accepted or revoked, and outlives the first worker's lease |
| `InviteQueueSafety.AttemptIdsNeverDecrease` | src/modules/spaces/space-invite-delivery.ts:344-370 | Along every run attempt ids never go down and a row id is never reused |
| `InviteQueueSafety.EachAttemptRecordsAtMostOnce` | src/modules/spaces/space-invite-delivery.ts:386-406 | For every run, a recorded result is the first one of its attempt id, and a row changes only together with it |
| `InviteQueueSafety.SupersededResultChangesNothing` | src/modules/spaces/space-invite-delivery.ts:386-406 | A result that arrives after the attempt id moved on, or after the invitation ended, changes no row, however late |
| `InviteQueueSafety.EndedInvitationIsFrozen` | src/modules/spaces/space-invites.service.ts:180-185 | An accepted or revoked invitation is never claimed or changed again by any run, short of its deletion |
| `InviteQueueSafety.DueRowsAreExactlyTheClaimable` | src/modules/spaces/space-invite-delivery.ts:228-263 | In every reachable state the rows a pass over due work selects are exactly those a claim at that moment can take |
| `InviteQueueSafety.WrittenRetryHasADelay` | src/modules/spaces/space-invite-delivery.ts:320-338 | A retry that is actually written has its delay in the table even when the read-back was late |
| `InviteQueueSafety.ResultsTellTheOutcome` | src/modules/spaces/space-invite-delivery.ts:300-338 | After any run, a result that changes the rows says how its email went, whenever it is written: accepted means sent, with that time; a permanent refusal or the fifth attempt means failed; any other refusal means queued again after 1, 5, 30 or 120 minutes; nothing else of the row changes |
| `InviteQueueSafety.SendsCountEmails` | src/modules/spaces/space-invite-delivery.ts:163-177 | What the send budget counts: every email handed over counts once, and only scheduling an ended email anew starts the count again |
| `InviteQueueSafety.EveryRunKeepsInv` | src/modules/spaces/space-invite-delivery.ts:163-183 | Every run keeps the queue invariant: an active queued or sending row has a nonce and a next attempt time, a sending one a lease no later than it |
| `InviteLimitsProofs.InviteAndSpaceLimitsAreExact` | src/modules/spaces/space-invite-delivery.ts:96-158 | In every interleaving, purged entries counted, an invitation is scheduled at most 5 times and a space at most 30 in any 24 hours less the lag, which is the most that a check's clock was behind that of a purge made before it |
| `InviteLimitsInNumbers.RunsInNumbers` | src/modules/spaces/space-invite-delivery.ts:96-158 | Counted as entries of the history: in every run any such span has at most 5 of an invitation and 30 of a space, and, where they do not overlap, 50 of a sender and 10 to an address |
| `InviteLimitsInNumbers.RefusalInNumbers` | src/modules/spaces/space-invite-delivery.ts:101-142 | A request is refused exactly when the log of the last 24 hours would pass 5, 30, 50 or 10 entries with it, or a minute has not passed since the invitation's last one |
| `InviteLimitsProofs.OverlapAddsAtMostItsEntries` | src/modules/spaces/space-invite-delivery.ts:96-158 | In every run, if at most d transactions of a scope overlap another one at a time, any such span holds at most the scope's limit and d times what one transaction can write of it |
| `InviteLimitsProofs.LimitHoldsWithoutOverlap` | src/modules/spaces/space-invite-delivery.ts:101-142 | Any scope, an address or a sender too, keeps its limit in any such span when its transactions do not overlap |
| `InviteLimitsProofs.OverlapBreaksTheLimitExactly` | src/modules/spaces/space-invite-delivery.ts:96-158 | When any of the open transactions commit, the limit of a scope holds in every 24 hours if and only if what is committed and what they commit stays within it there |
| `InviteLimitsRuns.OverlappingRequestsPassTheAddressLimit` | src/modules/spaces/space-invite-delivery.ts:96-100 | For every d there is a run without lag, at most d transactions overlapping another one, that schedules 10 + d emails to one address in 24 hours, so the bound is reached |
| `InviteLimitsRuns.PurgeBetweenTheReadings` | src/modules/spaces/space-invite-delivery.ts:265-268 | A run in which a purge whose clock is a millisecond ahead falls between a check's readings of clock and log, and 24 hours hold a sixth email of an invitation, so the lag is needed |
| `InviteLimitsRuns.FullDaysNeedClocksInOrder` | src/modules/spaces/space-invite-delivery.ts:96-158 | Over all runs whose lag is at most a given one, every full 24 hours keep the limit of an invitation if and only if that lag is zero |
| `InviteLimitsProofs.PurgingNeverChangesADecision` | src/modules/spaces/space-invite-delivery.ts:265-268 | What was purged never refuses a request, and a decision made with a clock no older than that of any purge is the one the whole history gives |
| `InviteLimitsProofs.EmailsOfAnInvitationAreSpaced` | src/modules/spaces/space-invite-delivery.ts:101-142 | Scheduled emails of one invitation are at least 60 seconds apart in every run whose lag leaves a cooldown of the 24 hours |
| `InviteDelivery.RefusedUntilTheWaitEnds` | src/modules/spaces/space-invite-delivery.ts:101-142 | A request is refused exactly when its longest wait is positive, and stays refused until that wait is over |
| `InviteDelivery.AdmittedWhenTheWaitEnds` | src/modules/spaces/space-invite-delivery.ts:101-142 | A refused resend is admitted once the announced wait is over, if nothing else happens |
| `InviteDelivery.AttemptIsARunOfTheQueue` | src/modules/spaces/space-invite-delivery.ts:280-340 | An undisturbed attempt is exactly the claim, read-back, send and record steps of the queue, and one that finds no space the claim and read-back alone |
| `InviteDelivery.PassDrainsItsBatch` | src/modules/spaces/space-invite-delivery.ts:228-263 | A pass attempts each row of its batch once, leaves none of them due and touches no other row |
| `InviteDelivery.PurgeTakesOnlyExpired` | src/modules/spaces/space-invite-delivery.ts:265-278 | The log purge deletes only entries outside the window, and a full batch or all of them |
| `InviteService.InvitationService.AssertCanSchedule` | src/modules/spaces/space-invite-delivery.ts:101-142 | Refuses exactly when a limit or the cooldown would be broken, with the longest wait in seconds |
| `InviteService.InvitationService.RecordScheduled` | src/modules/spaces/space-invite-delivery.ts:144-158 | Appends one log entry for each invitation, in order |
| `InviteService.InvitationService.Requeue` | src/modules/spaces/space-invite-delivery.ts:163-177 | Gives the row a fresh budget under a new attempt id, keeps an existing nonce, and logs it |
| `InviteService.InvitationService.Expedite` | src/modules/spaces/space-invite-delivery.ts:180-183 | An active, effectively queued row can be claimed from now until the invitation ends, keeps its budget, attempt id, nonce and invariant; no other row changes |
| `InviteService.InvitationService.Claim` | src/modules/spaces/space-invite-delivery.ts:344-382 | Takes a row exactly while its invitation is open, has a nonce, and is queued and due or sending with its lease over; counts the attempt under the next id with a lease of two minutes; as a step of the queue |
| `InviteService.InvitationService.Finish` | src/modules/spaces/space-invite-delivery.ts:386-406 | Writes a result, and when to try next, exactly while the row is still sending under that attempt id and active |
| `InviteService.InvitationService.Attempt` | src/modules/spaces/space-invite-delivery.ts:280-340 | An accepted email leaves the row sent, with its time; a permanent or fifth refusal leaves it failed, another one queued with the delay of its attempt, and the answer says which; skipped exactly when the row may not be claimed, or its space is gone and the budget not yet spent; no other row changes |
| `InviteService.InvitationService.SelectDue` | src/modules/spaces/space-invite-delivery.ts:236-255 | The batch is due, without repeats, earliest first, and complete below the batch limit |
| `InviteService.InvitationService.ProcessDue` | src/modules/spaces/space-invite-delivery.ts:228-278 | A pass that may run sweeps, attempts its batch until it is stopped, and purges; when the database fails a statement it answers 0 and keeps what came before; a pass already running or a stopped service does nothing |
| `InviteService.InvitationService.Create` | src/modules/spaces/space-invites.service.ts:62-104 | Says exactly when each refusal is given, the announced wait included; otherwise returns the address's pending invitation or adds a row and its log entry; the pending invitations of a space stay at most the limit and one per address |
| `InviteService.InvitationService.InviteWithSpace` | src/modules/spaces/spaces.service.ts:56-85 | The invitations made with a new space: each refusal exactly, with its wait; otherwise one row and one log entry for each address, in order, at most 10 and each to another address |
| `InviteService.InvitationService.Resend` | src/modules/spaces/space-invites.service.ts:108-145 | For an active invitation of the space succeeds exactly when no limit refuses, otherwise announces the wait; an email that waits moves to now, one being sent stays, any other gets a fresh budget under a new attempt id and a log entry; as a step of the queue |
| `InviteService.InvitationService.Revoke` | src/modules/spaces/space-invites.service.ts:171-187 | Revokes exactly an invitation that was neither accepted nor revoked, cancels its attempt by a new id, and changes no other row; as a step of the queue |
| `InviteService.SchedulingIsAStep` | src/modules/spaces/space-invite-delivery.ts:101-158 | What creating, resending and inviting with a new space check and log is what one transaction of the limits' runs checks and logs |
| `InviteService.SweepTakesTheEndedOut` | src/modules/spaces/space-invite-delivery.ts:236-243 | The sweep takes every queued or sending row of an ended invitation out of the queue and leaves all others |
| `MembershipProofs.EverySpaceHasExactlyOneOwner` | src/modules/spaces/space-members.service.ts:100-140 | In every interleaving of creating, joining, leaving, removing and deleting, each space has exactly one owner and at most 20 members |
| `MembershipProofs.VerifiedMembersAreCurrent` | src/modules/space-access/space-access.service.ts:79-108 | What the lock-and-recheck returned for the space is still its member set when the transaction commits |
| `MembershipProofs.DeletingASpaceKeepsItsActorHoused` | src/modules/spaces/spaces.service.ts:180-190 | In every run a committed deletion of a space leaves its acting owner a member of another space |
| `MembershipProofs.DecisionKeepsOwner` | src/modules/spaces/space-members.service.ts:100-140 | Whatever removal is decided on the true member set, one owner stays unless the space itself goes; other spaces are untouched |
| `MembershipProofs.RemovalLeavesActorASpace` | src/modules/spaces/space-members.service.ts:100-140 | A decision that deletes the space is made only when its actor has another space |
| `MembershipOutcome.CommittedRemovalsAreCarriedOut` | src/modules/spaces/space-members.service.ts:100-140 | In every interleaving a removal that commits and is not refused does to the rows of that moment what it was asked for: nobody is left of the user who goes, everyone else stays, an heir owns the space, or the space's rows are gone |
| `MembershipOutcome.RefusalsAreExact` | src/modules/spaces/space-members.service.ts:100-140 | A decision refuses exactly those who may not, with the error that fits, told from the member rows alone |
| `MembershipOutcome.UndisturbedRemovalCommits` | src/modules/space-access/space-access.service.ts:79-108 | With nothing in between, a removal goes through every lock and the recheck to its commit on the present rows |
| `MembershipProofs.EveryRunKeepsInv` | src/modules/space-access/space-access.service.ts:45-108 | Every run keeps tables and locks consistent: locks exclude each other and verified rows do not change |
| `MembershipService.MembershipService.CreateSpace` | src/modules/spaces/space-setup.ts:15-37 | Adds a space with its creator as the one owner |
| `MembershipService.MembershipService.Join` | src/modules/spaces/space-invites.service.ts:250-296 | Admits exactly the recipient of an open invitation who is not a member yet while the space has fewer than 20, as a plain member, and ends the invitation as accepted by them, as steps of both machines; says exactly when each refusal is given |
| `MembershipService.MembershipService.LockMembers` | src/modules/space-access/space-access.service.ts:79-108 | Returns the rows of the space and of the acting user, and the actor among them |
| `MembershipService.MembershipService.FindSuccessor` | src/modules/spaces/space-members.service.ts:100-140 | Of the members other than the one who goes, none joined earlier; of those who joined at once the one with the smallest id |
| `MembershipService.MembershipService.LeaveOrRemove` | src/modules/spaces/space-members.service.ts:100-140 | Whoever leaves or is removed is no member afterwards; everyone else stays as they were, except that the longest-standing member becomes the owner after a leaving owner; an owner without company takes the space and its invitations along; refused exactly when the acting user is no member or not the owner of others, the target is no member, or it is the owner's last space |
| `MembershipService.MembershipService.Remove` | src/modules/spaces/spaces.service.ts:165-176 | Deletes exactly the space, its members and its invitations for its owner; refused exactly for others and for an owner without another space |
| `CatalogMigrator.CatalogMigrator.Up` | src/migrations/1790900000000-ReplaceCategoryCatalog.ts:189-253 | Runs exactly when there is no conflict, otherwise writes nothing; afterwards the tables are the migrated ones of the old |
| `CatalogConflicts.ConflictSearch.Find` | src/migrations/1790900000000-ReplaceCategoryCatalog.ts:335-399 | Finds a conflict exactly when a limit would cross spaces, collapse to one place, or share a place with another limit of its space |
| `CatalogConflicts.GroupByLimit` | src/migrations/1790900000000-ReplaceCategoryCatalog.ts:401-412 | Each limit that has links maps to its links in order, and no other limit is a key |
| `CatalogMigrator.CatalogMigrator.FindKeeper` | src/migrations/1790900000000-ReplaceCategoryCatalog.ts:268-277 | The best candidate by rank, then active, then age; none exactly when there is no candidate |
| `CatalogMigrator.CatalogMigrator.PlaceCatalog` | src/migrations/1790900000000-ReplaceCategoryCatalog.ts:262-292 | Each catalog entry gets its row, the keeper rewritten or a new id, and nothing else changes |
| `CatalogMigrator.CatalogMigrator.MoveTransactions` | src/migrations/1790900000000-ReplaceCategoryCatalog.ts:294-306 | Every transaction of a replaced category moves once to the row of its entry and its version rises by one |
| `CatalogMigrator.CatalogMigrator.MoveLinks` | src/migrations/1790900000000-ReplaceCategoryCatalog.ts:308-327 | Each limit of the space covers exactly the images of what it covered; no link is inserted twice; other limits are untouched |
| `CatalogMigrator.CatalogMigrator.DeleteCategories` | src/migrations/1790900000000-ReplaceCategoryCatalog.ts:329-331 | May be called only for categories that no transaction and no link refers to |
| `CatalogMigrator.CatalogMigrator.ReplaceInSpace` | src/migrations/1790900000000-ReplaceCategoryCatalog.ts:255-332 | The four steps on one more space turn the migrated tables of some spaces into those of one more |
| `CatalogReplacement.SpaceIsDone` | src/migrations/1790900000000-ReplaceCategoryCatalog.ts:255-332 | The phases composed are the closed form of the migration for one more space |
| `CatalogReplacement.TargetIsNotReplaced` | src/migrations/1790900000000-ReplaceCategoryCatalog.ts:294-306 | A row of the catalog is never among the replaced categories, so no transaction moves twice |
| `CatalogReplacement.ReplacedAreUnreferenced` | src/migrations/1790900000000-ReplaceCategoryCatalog.ts:329-331 | When the replaced categories are deleted nothing refers to them |
| `CatalogMigrationAgain.MigratingAgainChangesNothing` | src/migrations/1790900000000-ReplaceCategoryCatalog.ts:189-332 | Run on its own result the migration meets no conflict, keeps every row and leaves all tables equal |
| `CatalogMigrationAgain.NoConflictsAgain` | src/migrations/1790900000000-ReplaceCategoryCatalog.ts:335-399 | The migrated tables have no conflict |
| `CatalogMigrationProofs.OrdinaryCategoriesAreTheCatalog` | src/migrations/1790900000000-ReplaceCategoryCatalog.ts:265-292 | Afterwards a replaced space's ordinary categories are exactly the rows of the catalog entries |
| `CatalogMigrationProofs.CatalogIsInDisplayOrder` | src/migrations/1790900000000-ReplaceCategoryCatalog.ts:265-268 | Every entry has its own row and the rows sort in the order of the catalog |
| `CatalogMigrationProofs.TransactionsOnlyChangeCategory` | src/migrations/1790900000000-ReplaceCategoryCatalog.ts:294-306 | Each transaction keeps amount, wallet and type, lies in a category of its space and type, and its version rises by one exactly when its category id changed |
| `CatalogMigrationProofs.BalancesAndTotalsStay` | src/migrations/1790900000000-ReplaceCategoryCatalog.ts:294-306 | No wallet balance and no total per type changes |
| `CatalogMigrationProofs.LimitsKeepTheirShape` | src/migrations/1790900000000-ReplaceCategoryCatalog.ts:308-327 | A single limit still covers exactly one category and a group at least two |
| `CatalogMigrationProofs.CategoriesAreInOneLimit` | src/migrations/1790900000000-ReplaceCategoryCatalog.ts:308-327 | Afterwards no category of a replaced space is in two limits, of whatever spaces |
| `CatalogMigrationProofs.NothingDangles` | src/migrations/1790900000000-ReplaceCategoryCatalog.ts:329-331 | All foreign keys hold afterwards: no deleted category is still referenced |
| `CatalogOutcome.TransactionsLandOnTheirEntry` | src/migrations/1790900000000-ReplaceCategoryCatalog.ts:158-306 | After the migration with the code's mapping a transaction of a replaced category lies on the active, unarchived row of the entry that the category's name or icon leads to, for a rename the one its alias names; any other transaction and its category are as they were |
| `CatalogOutcome.TheBestKeepsItsId` | src/migrations/1790900000000-ReplaceCategoryCatalog.ts:268-281 | A replaced category's row stays exactly when its name is known and no other such row of its entry beats it: an entry's own name before a rename, then active before archived, then the older |
| `CatalogOutcome.LoneRenameKeepsItsId` | src/migrations/1790900000000-ReplaceCategoryCatalog.ts:268-306 | A rename that is the only candidate of its entry keeps its id, takes the alias's name, and everything that refers to it stays as it was |
| `CatalogOutcome.RefusedExactlyWhenLimitsWouldChange` | src/migrations/1790900000000-ReplaceCategoryCatalog.ts:335-399 | The migration is refused exactly when a limit crosses spaces, a limit over several categories would be left with one, or two limits of a space would share a category |
| `CatalogRules.EveryCategoryHasAPlace` | src/migrations/1790900000000-ReplaceCategoryCatalog.ts:158-174 | Whatever its name and icon, a category maps to a catalog entry of its own type |
| `CatalogRules.NamesDecideBeforeIcons` | src/migrations/1790900000000-ReplaceCategoryCatalog.ts:158-174 | An entry's own name has rank 0; a known rename maps to its entry with rank 1 whatever the icon; otherwise a known icon decides, and then "other" of the type, with rank 2 |
| `CatalogRules.IconsLeadToTheirEntries` | src/migrations/1790900000000-ReplaceCategoryCatalog.ts:114-143 | Each entry's own icon leads back to that entry, but for the two entries for anything else |
| `CatalogRules.CatalogNamesMapToThemselves` | src/migrations/1790900000000-ReplaceCategoryCatalog.ts:158-174 | A category named as an entry maps to that entry with rank 0 |
| `CatalogMigration.RuleKeepsNames` | src/migrations/1790900000000-ReplaceCategoryCatalog.ts:158-174 | The code's mapping leaves every row of the catalog where it is, with rank 0 |
| `CatalogMigration.RuleFindsPlaces` | src/migrations/1790900000000-ReplaceCategoryCatalog.ts:158-174 | The code's mapping gives every category an entry of its own type, for any normalization |
| `CatalogRules.SortFollowsTheCatalog` | src/migrations/1790900000000-ReplaceCategoryCatalog.ts:265-268 | The sort values rise along the catalog |
| `CatalogRules.SortHasNoGaps` | src/migrations/1790900000000-ReplaceCategoryCatalog.ts:265-268 | The income entries are sorted from 101 and the expense entries from 201, without gaps |
| `PasswordResetProofs.ChallengeTakesFiveWrongCodes` | src/modules/password-reset/password-reset-rules.ts:22-32 | In every run a challenge counts at most 5 wrong codes, however often it is resent |
| `PasswordResetChallenges.ResendsStayOnTheirChallenge` | src/modules/password-reset/password-reset.service.ts:181-207 | In every run an accepted request stays on the challenge of the one before, with its expiry and its wrong codes, if that has not expired, none of its codes was accepted and fewer than five wrong ones were counted; otherwise it starts a challenge at its own time |
| `PasswordResetChallenges.FirstRequestsStartOne` | src/modules/password-reset/password-reset.service.ts:181-207 | The first request of an address starts a challenge of half an hour |
| `PasswordResetProofs.WindowTakesItsLimits` | src/modules/password-reset/password-reset-rules.ts:35-85 | In every run a window counts at most 10 wrong codes and 5 accepted requests |
| `PasswordResetProofs.ExpiryNeverMoves` | src/modules/password-reset/password-reset.service.ts:181-207 | Everything on a challenge, after any resends, happens before one expiry half an hour after its start |
| `PasswordResetProofs.RequestsAreAMinuteApart` | src/modules/password-reset/password-reset-rules.ts:53-71 | Accepted requests for an address are at least 60 seconds apart in every run |
| `PasswordResetProofs.RepeatedCodeGivesTheSameToken` | src/modules/password-reset/password-reset.service.ts:276-285 | Each time a challenge's accepted code is repeated the same token is given |
| `PasswordResetProofs.EveryRunKeepsInv` | src/modules/password-reset/password-reset.service.ts:166-297 | Every run keeps the row: attempts and failures equal what happened, stored requests are at least what happened in the window |
| `PasswordResetOrder.AnyHourIsLimited` | src/modules/password-reset/password-reset-rules.ts:35-85 | With clock readings in order, any one-hour interval has at most 20 counted wrong codes and 10 accepted requests for an address |
| `PasswordResetOrder.NoTokenCompletesTwice` | src/modules/password-reset/password-reset.service.ts:103-141 | In every run with clock readings in order where hashing the new password takes at least a millisecond, no token completes twice |
| `PasswordResetOrder.TokensCompleteOnce` | src/modules/password-reset/password-reset.service.ts:103-141 | Whatever hashing takes, a token that completes twice was first completed in the millisecond of its verification |
| `PasswordResetReuse.SecondUseCondition` | src/modules/password-reset/password-reset.service.ts:223-297 | However long hashing takes: just after a completion some continuation in order completes its token again if and only if the clock still shows the millisecond of the verification and neither a request nor a code is refused then |
| `PasswordResetReuse.ConditionCanBeMet` | src/modules/password-reset/password-reset.service.ts:223-297 | For every account, address, code and time from the cooldown's length on there is a run that meets the condition, so that only hashing keeps a token from a second use |
| `PasswordResetReuse.EveryRunKeepsAccounts` | src/modules/password-reset/password-reset.service.ts:113-140 | In every run the account a challenge is bound to, and the one of each completed token, is verified at the challenge's address |
| `PasswordResetWaits.RequestWaitIsExact` | src/modules/password-reset/password-reset-rules.ts:53-71 | A refused request is refused until the last announced second and admitted at its end |
| `PasswordResetWaits.VerifyWaitIsExact` | src/modules/password-reset/password-reset-rules.ts:73-81 | The same for a refused code |
| `PasswordResetSessions.AcceptedSessionsKnowThePassword` | src/modules/users/users.service.ts:186-213 | However sign-ins and resets interleave, an accepted session was opened with the present password |
| `PasswordResetSessions.OnlyAResetReplacesAPassword` | src/modules/users/users.service.ts:108-130 | A verified account's password changes only by a completed reset, after which no earlier session of it is accepted |
| `PasswordResetSessions.VersionCountsResets` | src/modules/password-reset/password-reset.service.ts:136 | The version of an account is one more than its completed resets |
| `PasswordResetSessions.AddressesAreUnique` | src/modules/users/users.service.ts:108-184 | In every run an address belongs to one user |
| `PasswordResetService.PasswordResets.Reserve` | src/modules/password-reset/password-reset.service.ts:166-221 | Refused exactly within a minute of the last request or after five in the window, with the wait; otherwise an open challenge keeps its start, expiry and attempts and takes the new code, any other row starts a challenge with none, the window counts the request, and an account gets its delivery; as a step of the runs |
| `PasswordResetService.PasswordResets.Verify` | src/modules/password-reset/password-reset.service.ts:223-297 | Says of each row, told from its fields, whether a code is limited, unusable, wrong or right, with the error and the seconds; a wrong code is counted on the challenge and in the window and the fifth ends the authorization; the right one opens it for ten minutes at most; as a step of the runs |
| `PasswordResetService.PasswordResets.FindAuthorization` | src/modules/password-reset/password-reset.service.ts:104-109 | Finds an authorized challenge of the token whenever there is one |
| `PasswordResetService.PasswordResets.Complete` | src/modules/password-reset/password-reset.service.ts:113-140 | Completes exactly while the locked rows are still bound to each other and authorized by the token, replaces the password, raises the version, and the token can never complete again on that row; as a step of the runs |
| `PasswordResetService.PasswordResets.RecordDelivery` | src/modules/password-reset/password-reset.service.ts:318-340 | A delivery that a newer request overtook changes nothing |
| `UserService.Users.UpdateUnverified` | src/modules/users/users.service.ts:108-130 | Replaces the password exactly while the address is unverified |
| `UserService.Users.VerifyEmail` | src/modules/users/users.service.ts:137-184 | Verifies exactly with the active code of an unverified user, issues a session of the locked row's version and ends the code; a wrong code is counted, and after five the code ends unused |
| `UserService.Users.CheckPassword` | src/modules/users/users.service.ts:186-198 | Lets in exactly the password of the address's verified account, with the row that was read, and says which refusal is given otherwise |
| `UserService.Users.Sign` | src/modules/users/users.service.ts:203-212 | Signs exactly while the checked password and version are still the row's |
| `Feed.GetFeedPage` | src/modules/transaction-queries/transaction-queries.service.ts:252-296 | The page built from per-wallet heads of limit + 1 rows is the one cut from the whole sorted selection, in both directions |
| `Feed.HeadsSuffice` | src/modules/transaction-queries/transaction-queries.service.ts:247-251 | The first n rows of the union of the wallets' heads are the first n rows of the selection |
| `Feed.ReadFeedPage` | src/modules/transactions/transactions.service.ts:434-467 | The window at a cursor |
| `FeedProofs.EveryPageIsASlice` | src/modules/transactions/transactions.service.ts:434-467 | For any cursor, even one of a record that is gone, a page with records is a slice of the one newest-first list with exact flags, and lies right beyond the cursor |
| `FeedProofs.CursorsAreExact` | src/modules/transactions/transactions.service.ts:305-317 | A cursor is null exactly when nothing lies beyond that end |
| `FeedProofs.PreviousUndoesNext` | src/modules/transactions/transactions.service.ts:305-317 | Going on and back with the same limit shows the same window |
| `FeedProofs.NextUndoesPrevious` | src/modules/transactions/transactions.service.ts:305-317 | Going back and on with the same limit shows the same window |
| `FeedProofs.ScrollEnds` | src/modules/transactions/transactions.service.ts:434-467 | Following next cursors ends within as many pages as there are records, having listed exactly the whole list |
| `Feed.OrderedIsSort` | src/modules/transaction-queries/transaction-queries.service.ts:275-292 | Sorting row after row gives the only list that holds a selection's records in the order, so the declared list is the one read |
| `FeedProofs.ListingIsEverythingOnce` | src/modules/transaction-queries/transaction-queries.service.ts:275-292 | The list holds each selected record once, later timestamps first and of equal ones greater ids first |
| `FeedProofs.ReadToTheEnd` | src/modules/transactions/transactions.service.ts:434-467 | Reading page after page terminates with the whole list |
| `FeedAround.ReadFeedAround` | src/modules/transactions/transactions.service.ts:498-526 | Refused exactly when the record is not in the selection; otherwise a contiguous slice that holds it, of min(limit, selection) records, with exact flags, where a side has less than its half only when it has no more records |
| `LimitServices.LimitsService.Create` | src/modules/limits/limits.service.ts:73-102 | Succeeds exactly when the categories are coverable, a group is named and no limit is in the way; states the new tables and the error, keeps the shared rule |
| `LimitServices.LimitsService.Update` | src/modules/limits/limits.service.ts:104-159 | The same for an edit, whose absent fields keep their values: success condition, new tables, and the error of each refusal |
| `LimitServices.LimitsService.Remove` | src/modules/limits/limits.service.ts:161-168 | Removes exactly a limit of the space, with its links, and refuses any other as foreign |
| `LimitServices.LimitsService.AssertCategoriesOwnership` | src/modules/limits/limits.service.ts:238-265 | Refuses with the problem of the first category that cannot be covered |
| `LimitServices.LimitsService.CategoriesAreAvailable` | src/modules/limits/limits.service.ts:273-295 | True exactly when no other limit of the space covers one of the categories |
| `LimitServices.LimitsService.HasNoOtherTotal` | src/modules/limits/limits.service.ts:297-317 | True exactly when the space has no other total limit |
| `LimitServices.CategoriesService.Create` | src/modules/categories/categories.service.ts:114-119 | Adds an active category and keeps the shared rule |
| `LimitServices.CategoriesService.Update` | src/modules/categories/categories.service.ts:88-112 | Archiving takes the category out of its limit, restoring does not put it back; a foreign and a system category are refused, each with its error; keeps the shared rule |
| `LimitServices.CategoriesService.DeleteOrArchive` | src/modules/categories/categories.service.ts:121-140 | Deletes a category without transactions, archives any other, and takes it out of its limit either way; a foreign and a system category are refused, each with its error |
| `LimitServices.CategoriesService.UnlinkFromLimit` | src/modules/categories/categories.service.ts:232-253 | After it no limit covers the category, and a limit that lost its last category is gone |
| `LimitServices.CalculateSpending` | src/modules/limits/limits.service.ts:179-206 | Each category limit's spending, the month's total and the over-allocation are the sums they claim to be |
| `LimitServices.GetSummary` | src/modules/limits/limits.service.ts:60-71 | What the category limits show adds up to at most the month's total expense |
| `LimitRules.LimitsSpendAtMostTheTotal` | src/modules/limits/limits.service.ts:179-206 | The spending of all limits of a space is at most the total, since no category is in two |
| `LimitMeaning.AllowedMeans` | src/modules/limits/limits.service.ts:73-102 | A list of categories may become a limit's exactly when each is an active, ordinary one of the space, several have a name, and no other limit of the space covers one of them or, for none, is the total |
| `LimitMeaning.RefusalMeans` | src/modules/limits/limits.service.ts:238-265 | The error of a refusal: what is wrong with the first category that cannot be covered, then the missing name, then the other limit |
| `LimitMeaning.RuleMeans` | src/modules/limits/limits.service.ts:238-317 | The shared rule in the rows: no two limits share a category, a space has one limit without categories, groups are named, and what is covered is active and of the space |
| `Idempotency.SecondRunWaitsForExpiry` | src/modules/idempotency/idempotency.service.ts:54-103 | In every interleaving a key's work runs again only for a claim made once the execution before expired, 24 hours after it began |
| `Idempotency.RepeatsGetTheStoredResult` | src/modules/idempotency/idempotency.service.ts:29-48 | Every answer given without running is the stored result of the latest execution with the same payload, or a refusal for another payload |
| `Idempotency.ClaimsExclude` | src/modules/idempotency/idempotency.service.ts:50-53 | At most one transaction at a time is between claiming the key and committing |
| `Idempotency.GivesUpOnlyAfterThree` | src/modules/idempotency/idempotency.service.ts:54-103 | In every run a request that ends without an answer or a rollback is in its third attempt, at reading or reviving the row |
| `Idempotency.EveryRunKeepsInv` | src/modules/idempotency/idempotency.service.ts:54-103 | Every run with holders, rollbacks and the purger keeps the row of the key equal to the latest execution until it expires |
| `IdempotencyService.IdempotencyKeys.Claim` | src/modules/idempotency/idempotency.service.ts:54-103 | With others at work between its statements, the loop claims only over no row or an expired one, answers or refuses only while the row has not expired, and gives up only after others changed the row in each of its three attempts; undisturbed, the row alone decides |
| `IdempotencyService.IdempotencyKeys.Run` | src/modules/idempotency/idempotency.service.ts:29-48 | Runs exactly when it claimed, and then the key holds the payload, its result and a day from now; undisturbed it always runs or answers |
| `IdempotencyService.UndisturbedClaimIsARun` | src/modules/idempotency/idempotency.service.ts:54-103 | With nobody else at work the statements of the runs claim the key for a day, repeat its result or refuse, as the method's loop does |
| `IdempotencyPurger.IdempotencyKeyPurger.Purge` | src/modules/idempotency/idempotency-key-purger.ts:30-58 | Deletes only expired keys that no request locks, at most 1000, none later than one it leaves, and all of them when fewer; one run at a time |
| `TransactionOperations.OperationMakesOneTransaction` | src/modules/transactions/transactions.service.ts:528-561 | However creates interleave, an operation id makes at most one transaction ever |
| `TransactionOperations.ViewTellsWhatBecameOfIt` | src/modules/transactions/transactions.service.ts:375-403 | A committed create is shown applied while its transaction exists and deleted, with its time, exactly after that |
| `TransactionOperations.ViewsMoveOn` | src/modules/transactions/transactions.service.ts:375-403 | In every run what a client sees of an operation only goes from unknown to applied, when its create commits with a new transaction, and from applied to deleted, with that time, when the transaction is removed |
| `TransactionOperations.UnusedIdIsApplied` | src/modules/transactions/transactions.service.ts:528-561 | A create with an id that is unused and not being written goes through after any run |
| `Trend.CalendarsAreGrids` | src/modules/statistics/statistics-calendar.ts:53-60 | Any ascending sequence of first days, of days, weeks, months or years, is a grid of just those units, so what is proved of splitting holds for each of them |
| `Trend.SplitRange` | src/modules/statistics/statistics-calendar.ts:65-74 | Terminates with consecutive parts that cover the range, each within one unit, broken only at unit boundaries |
| `Trend.EveryDayIsInOnePart` | src/modules/statistics/statistics-calendar.ts:65-74 | Every day of the range is in exactly one part and no part leaves the range |
| `Trend.ResolveTrendIntervals` | src/modules/statistics/statistics-period.ts:185-194 | One interval for each part of the range, from its first day's start to its last day's last millisecond, told past, current or future; they join to the millisecond and cover the period |
| `Trend.FutureIsASuffix` | src/modules/statistics/statistics-calendar.ts:86-87 | Intervals that have not started are at the end |
| `Trend.GetStatisticsIntervalTotals` | src/modules/transaction-queries/transaction-queries.service.ts:421-448 | One grouped query gives each bucket the records its CASE picks |
| `Trend.BucketTotalsAreSums` | src/modules/transaction-queries/transaction-queries.service.ts:634-641 | A bucket of the grouped query has the sum and the number of the income records between the ends around it, and of the expense records |
| `Trend.TotalsAreSums` | src/modules/transaction-queries/transaction-queries.service.ts:634-641 | The totals of a span are the sum and the number of its income records, and of its expense records |
| `Trend.BucketsAddUp` | src/modules/statistics/statistics.service.ts:101-108 | The buckets add up to the totals of the whole scope |
| `Trend.BucketIsTheInterval` | src/modules/transaction-queries/transaction-queries.service.ts:427-437 | The CASE picks exactly the started interval an instant up to actual_to is in |
| `Trend.GetTrend` | src/modules/statistics/statistics.service.ts:149-177 | One bucket for each calendar unit of the period; one that has begun has the sums and counts of the income and of the expense records in its interval up to now, the others none; the total has those of the period up to now and is the sum of the buckets |
| `Money.ParseUndoesFormat` | src/shared/utils/money.ts:31-60 | Parsing a formatted amount gives back every integer number of cents |
| `Money.FormatUndoesParse` | src/shared/utils/money.ts:31-60 | Formatting a parsed text gives it back exactly when it is canonical |
| `Money.EveryAmountMatches` | src/shared/utils/money.ts:1-2 | Every run of digits with at most two decimals is matched into just those parts |
| `Money.AmountsAreReadByTheirDecimals` | src/shared/utils/money.ts:1-53 | With none, one or two decimals and either sign, an amount is read as 100 cents for each whole and ten or one for each unit of its decimals; as a request up to the maximum |
| `Money.OnlyAmountsAreRead` | src/shared/utils/money.ts:1-2 | Nothing but such a text is read |
| `Money.InputReadsTheSame` | src/shared/utils/money.ts:19-29 | A request amount reads the same from 0 to the maximum and is refused beyond |
| `Money.InputAgreesWithMoney` | src/shared/utils/money.ts:19-53 | Whatever a request may send has the same value when read back as stored |
| `Money.FloorDivIsFloor` | src/shared/utils/money.ts:9-13 | Division with truncating BigInt operators rounds toward negative infinity for any signs |
| `Money.TenthsAreNearest` | src/shared/utils/money.ts:77-86 | For any signs the tenths are the nearest to 1000 part / whole, and of two equally near the greater |
| `Money.PercentIsReached` | src/shared/utils/money.ts:74-75 | The floored percentage reaches n exactly when n percent of a positive whole is reached |

## Left out

- HTTP, DTO validation, configuration, logging, entity and view mapping, the invite page and email texts: no state worth proving.
- SMTP, bcrypt, JWT signing and randomness: outcomes and values are arbitrary, hashes injective.
- SQL text, collations, LIKE search, indexes, deadlock detection and the bounded retries of a rolled-back transaction: queries are modelled by meaning, a rolled-back transaction did not happen. The extra shared locks a refused INSERT leaves are not taken, which only allows more interleavings.
- Text normalization of category names is a function parameter. The migration is modelled over any mapping rule that gives each category an entry of its type, the code's rule among them; running it again assumes only that the normalization keeps the catalog's names of one type apart. Email addresses are taken as already normalized.
- A database failure inside an invitation's attempt is the crash of its worker in the runs of the queue; the attempts of the class do not fail.
- Which spaces are eligible for the migration is a parameter; the texts of its conflict messages are not built.
- Time between reading the clock and getting a lock: readings of a password reset may come in any order except where a lemma asks for order; a pass over due invitations uses one clock reading for its attempts, which it makes one after the other.
- The width of integer columns: attempts, versions and counts are unbounded.
- Joining a space is one transaction in the code and one method here; in the runs its invitation half is a step of the queue and its membership half a step of the membership runs.
- The starter categories of a new space. Its rows, its owner and its invitations are made in one transaction in the code, by two methods here.
- Deleting a user, and the rows that cascade from it; deleting a space removes its members and invitations but not, in the model, its transactions, limits or operation rows.
- Sending confirmation codes: their send decisions are an easier relative of the invitation waits, and a code's times are not rounded to seconds.
- Payload hashing: two payloads are the same when their hashes are; canonical JSON is not modelled.
- Cursor encoding, digests and day totals of the feed: a cursor is its direction and position. The filters that select records are outside.
- Zones, DST and calendar units are an arbitrary order-preserving day-to-instant function and an arbitrary grid of units, which any ascending sequence of first days makes; the lengths of months and years, labels, period resolution and comparison with the previous period are not modelled.
- `moneyToNumber` and the final division of a percentage by ten: floating point.
- Editing a transaction (`update`, `changedFields`), reordering categories, category counts, the wallet overview, breakdowns, describing deliveries for the client, and tracking deliveries still in flight: they would only add easy members.
