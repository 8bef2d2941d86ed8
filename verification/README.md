# Campus toolkit: models and proofs

A Dafny model of the parts of the campus club platform in which the hard property lives in state, in
interleaving or in a whole run: the read-through cache, role administration, activities with RSVP and their
cached reads, the approval chain of club applications, keyset pagination, the rate limiter, advisor
invitations, and the provisioning of the role catalogue. `dafny verify dfyconfig.toml` checks everything.

## What is modelled, and how

Where the program keeps state in objects and tables, a class holds the same maps as fields and its methods
perform the checks and writes in the program's order. Each such method is proved to yield exactly what a
specification function of the old state says; the theorems are about those functions, over all inputs, all
runs and all interleavings the program allows. A refused operation is an outcome, never a precondition.

The modules `RbacRules`, `ActivityRules`, `ApplicationRules`, `AdvisorRules` and `CacheCalls` say of each
call, in terms of the rows, keys and commands themselves, exactly when it is carried out, all that it then
changes, and which of its checks a refusal names (`Checks`).

* **Cache** (`CacheCoordination`, `CacheProtocol`, `CacheSafety`, `CacheCalls`, `Keyspace`, `Codec`).
  `getOrSet` and `delete` are a step protocol whose steps are the stretches between two awaits. Store commands
  execute in the order they were issued; any command may fail, any reply may be lost while its command stays
  queued, and any entry may expire. A cached value is represented by the version of the source it was loaded
  from, so "older" is a comparison of numbers. A call that joins a load leaves the counters at that moment:
  `return pending` runs the `finally` block when the call joins, not when the joined load ends, so a joined
  call is not counted while it waits. An entry that decodes to `null` behaves like a failed read. The theorem
  is about what stays in the store; `LateReaderMayJoinOlderLoad` shows the run in which a call begun after a
  delete still joins an older load. The codec is a transformation of trees, with the printing and parsing of a
  date as parameters.
* **Roles** (`Rbac`, `RbacWrites`, `RbacSafety`, `RbacAdmins`, `RbacCache`, `RbacRules`, `RbacService`).
  Users, roles, permissions, grants and overrides are relations. An actor's rank and permissions are those the
  current tables yield, and `isSuperAdmin` is the actor record's flag. Every operation is shown to be at most
  one elementary write that its checks vouch for; what runs keep is proved about these writes. One expectation
  turned out false: an administrator can change the roles of a peer or superior, by deleting a tenant role
  that user holds. `PeersKeepTheirRoles` says that this is the only way, and exactly when it happens, for one
  step; `PeersKeepTheirRolesInRuns` says so for whole runs; `PeerLosesDeletedRole` is a concrete case.
* **Activities** (`Activities`, `ActivityService`, `ActivityLifecycle`, `ActivityRules`, `Rsvp`). The detail
  and discovery caches are a map under the program's own key templates, whose injectivity is proved. A
  discovery list is a map from id to row: its order is that of start times, which leaves ties open. RSVP
  transactions interleave statement by statement; the bound capacity + k − 1 for k open transactions is proved
  and shown to be reached.
* **Club applications** (`ApprovalChain`, `Applications`, `ApplicationProgress`, `ApplicationSafety`,
  `ApplicationAppeals`, `ApplicationRules`, `CommitteeVotes`, `ApplicationService`). Submissions, decisions,
  committee votes, resubmissions, appeals, withdrawals and changes of committees are transactions; the service
  rolls back what it wrote when the slug search fails. The event log of an application determines its rows and
  its appeal. Approval is final. A rejection is undone exactly by an upheld appeal; an application has one
  appeal, to be submitted within the university's appeal period, and a committee step names no role by which
  an appeal could be reviewed, so a committee's rejection is final. The clock and the period are part of the
  state; a period may be changed at any time, within 1 to 60 days, and then also applies to earlier
  rejections. All ballots of a committee step count, also those of former members and those cast before a
  resubmission, and they are measured against the present number of members. A step can therefore be settled
  against all present members (`FormerMembersDecide`); the exact condition for a present majority is proved,
  and that it always holds while nobody leaves a committee.
* **Pagination** (`Pagination`, `PaginationWalks`, `PaginationBoundaries`). A walk is a sequence of queries
  against a growing log. The audit decisions use the tuple (createdAt, id). Notifications and the admin lists
  use one timestamp column, and their cursor is a JavaScript date: it holds milliseconds while the column
  holds microseconds. They can therefore lose a row even where column values differ
  (`DifferentTimesCanBeLost`). Such a walk is complete exactly when no page boundary of the rows, sorted by
  time, falls within a millisecond.
* **Rate limiter** (`RateLimit`, `RateLimiter`). The store's contract is a counter whose window starts at the
  first hit and is never extended. In any half-open interval of one window length at most twice the limit less
  one pass, and that is reached. The contract does not say how the remaining time behind `Retry-After`
  (section 10.2.3 of RFC 9110) is rounded: `RetryAfterIff` holds for any rounding. The in-memory store rounds
  up, so the wait outlasts the window, by less than a second in which others can use up the next window
  (`PatientRetryCanFail`). The Redis store passes on what Redis reports; where that is rounded to the nearest
  second the wait can end too early (`NearestRoundingIsTooEarly`). `Limiter` is the limiter with the in-memory
  store.
* **Advisors** (`Advisors`, `AdvisorRules`, `AdvisorService`) and **catalogue** (`Catalogue`). Refused calls
  on invitations may still expire rows, as in the program. Catalogue provisioning succeeds if and only if no
  retired permission is in the database: contrary to the comment that such keys are cleaned up, the later
  blanket grant refers to the deleted rows and the transaction aborts (`RetiredKeyAborts`).

## Model

| member | source | states |
|---|---|---|
| CacheSafety.DeleteIsFinal | src/core/cache/cache.ts:127-195 | In every interleaving of loads, deletes, writes, failures and expiries, once the store has executed a delete, no later state holds for its keys a value loaded from a source version older than at the call of the delete |
| CacheSafety.ExecutedDeleteIsFinal | src/core/cache/cache.ts:170-184 | The same from any state that satisfies the invariant, whatever runs afterwards |
| CacheSafety.DeleteEstablishesFresh | src/core/cache/cache.ts:127-135 | A delete that takes effect leaves no older entry, no older queued write and no unmarked load that read an older version |
| CacheSafety.BookkeepingIsExact | src/core/cache/cache.ts:156-215 | In every reachable state at most one leader per key, an in-flight entry exactly while its leader is between install and cleanup, the counter equal to the number of open calls, marks only for open keys, and empty maps when all calls ended, also after loader and store failures |
| CacheSafety.StoreNeverGoesBack | src/core/cache/cache.ts:170-184 | After a load's write of a version, every later entry and queued write of that key is at least that version |
| CacheSafety.LateReaderMayJoinOlderLoad | src/core/cache/cache.ts:166-168 | A reachable state in which a call begun after an executed delete joins a load of an older version: the guarantee is about the store only |
| CacheProtocol.StepKeepsInv | src/core/cache/cache.ts:156-215 | Each step keeps the invariant on counters, leaders, queue order, versions and marks |
| CacheProtocol.QueueSetKeepsInv | src/core/cache/cache.ts:172-177 | A load that was not invalidated may queue its value without breaking the order of versions in store and queue |
| CacheProtocol.PopKeepsInv | src/core/cache/cache.ts:248-255 | Executing the oldest command, in whole or in part, keeps the invariant |
| CacheProtocol.InitInv | src/core/cache/cache.ts:60-90 | A process that starts with nothing open satisfies the invariant, whatever older values the store holds |
| CacheCoordination.NamespacesCompose | src/core/cache/cache.ts:96-112 | A key in a namespace of a namespace is the joined key in the outer one |
| CacheCoordination.PrefixIsInjective | src/core/cache/cache.ts:218-220 | Within one namespace different keys have different full keys |
| CacheCoordination.Cache.Namespace | src/core/cache/cache.ts:96-112 | A child shares the three maps of its parent and extends the prefix |
| CacheCoordination.Cache.Enter | src/core/cache/cache.ts:156-160 | Entering counts one more open call on the full key before any await |
| CacheCoordination.Cache.JoinOrLead | src/core/cache/cache.ts:166-186 | Joins the load in flight or installs itself as the leader |
| CacheSafety.WrittenUnlessInvalidated | src/core/cache/cache.ts:172-177 | In every run a cacheable value is written if and only if no delete of its key was issued with calls on the key open from then until the loader returned; what is written is the version read |
| CacheSafety.MarkedIff | src/core/cache/cache.ts:199-215 | A key is marked exactly if it was deleted and there has always been an open call on it since |
| CacheCoordination.Cache.Leave | src/core/cache/cache.ts:203-215 | Leaving counts one call less; the last one clears the mark |
| CacheCoordination.Cache.Invalidate | src/core/cache/cache.ts:127-133 | Marks exactly those of the full keys that are being loaded |
| CacheCalls.HitIsServed | src/core/cache/cache.ts:162-164 | In every run, a call whose read found a decodable entry is at its read until its next step and closed from then on; it is never in flight and never runs the loader |
| CacheCalls.AfterTheRead | src/core/cache/cache.ts:162-194 | A hit ends the call and leaves store, queue, loads in flight and other calls alone; an undecodable entry is queued for removal, and then, as on a miss, the call joins the load in flight or leads one |
| CacheCalls.ReadIsAnswered | src/core/cache/cache.ts:248-255 | A read that the store executes finds its key exactly if it is there; a failed or lost read is a miss |
| CacheCalls.AfterTheLoader | src/core/cache/cache.ts:170-184 | The version read is queued for the store exactly if it is cacheable and the key not marked; otherwise no write is queued |
| CacheCalls.LeaderSteps | src/core/cache/cache.ts:170-195 | A load reads the version the source then has; one that throws or loses its reply is settled; a settled one leaves the loads in flight and is counted out |
| CacheCalls.CallBegins | src/core/cache/cache.ts:156-160 | A new call is counted on its key and queues its read, and nothing else changes |
| CacheCalls.DeleteIssues | src/core/cache/cache.ts:127-135 | A delete marks the keys being loaded and queues one command, stamped with the versions of the source |
| CacheCalls.OutsideSteps | src/core/cache/cache.ts:121-135 | A write to the source raises the versions of its keys only, and an entry may expire at any time |
| CacheCalls.CommandDoes | src/core/cache/cache.ts:121-135 | A write sets its entry, a delete and a removal take theirs, a failed command changes nothing; no other entry or call changes |
| CacheCoordination.FullKeyIs | src/core/cache/cache.ts:218-220 | A full key is the prefix, a colon and the key, or the key alone |
| Codec.RoundTrip | src/core/cache/codec.ts:47-83 | Decoding the encoding gives the value back if and only if it holds no invalid date and no object whose only key is `__d` with a string value, at any depth |
| Codec.PlainDataReadsAsItself | src/core/cache/codec.ts:42-45 | An entry without dates, such as one in the older format, reads as itself if and only if it holds no such marker |
| Codec.ReviverFires | src/core/cache/codec.ts:72-83 | The reviver turns exactly the marker objects into dates |
| Codec.DateRoundTrip | src/core/cache/codec.ts:63-70 | A valid date survives; an invalid one becomes null |
| Codec.EncodedIs | src/core/cache/codec.ts:47-70 | A date is written as an object with its ISO text under `__d`, an invalid one as null, everything else in its place |
| Codec.DecodedIs | src/core/cache/codec.ts:72-83 | An object with a text under `__d` and nothing else is read as that date, everything else in its place |
| Keyspace.DropEntries | src/core/cache/keyspace.ts:249-260 | One delete per distinct cache, in it every declared key of that cache once and no other |
| Keyspace.DeletesExactlyTheEntries | src/core/cache/keyspace.ts:206-215 | The full keys deleted are exactly those of the effect's entries |
| Keyspace.EachFullKeyOnce | src/core/cache/keyspace.ts:249-260 | No full key is repeated within one delete |
| Keyspace.EntryIsFinal | src/core/cache/keyspace.ts:249-260 | For every entry of an emitted effect: once the store has executed the one delete in its cache, its full key never again holds a value older than the emit |
| Keyspace.EmitIsFinal | src/core/cache/keyspace.ts:206-215 | The same for any deletes issued together, key by key |
| RbacSafety.PrivilegeCeiling | src/features/auth/auth.service.ts:109-166 | In every run of tenant administrators, each permission a tenant's user or role ends up with was in reach of the tenant at the start, and no user's rank exceeds the tenant's initial top rank |
| RbacSafety.StepKeepsWithin | src/features/auth/auth.service.ts:963-1206 | Each role operation by a tenant administrator keeps a tenant's permissions and ranks below any ceiling they were below |
| RbacSafety.ActorIsWithin | src/features/auth/auth.service.ts:96-102 | An actor of a tenant neither outranks nor holds anything beyond the tenant's ceiling |
| RbacSafety.AssignKeepsWithin | src/features/auth/auth.service.ts:1056-1090 | Assigning a role keeps the ceiling |
| RbacSafety.AttachKeepsWithin | src/features/auth/auth.service.ts:1168-1189 | Attaching a permission keeps the ceiling, because it must be the actor's own |
| RbacSafety.EditKeepsWithin | src/features/auth/auth.service.ts:963-1008 | Creating or editing a role below the actor keeps the ceiling |
| RbacSafety.RolesStayInTheirTenant | src/features/auth/auth.service.ts:1056-1090 | In every run by any actors tenant roles are held by users of their tenant only, and keys and references stay consistent |
| RbacSafety.PeersKeepTheirRoles | src/features/auth/auth.service.ts:1014-1109 | The roles of another user ranked at or above the actor change exactly when the actor deletes a role of its tenant, ranked below it and not a core role, that the user holds |
| RbacSafety.PeersKeepTheirRolesInRuns | src/features/auth/auth.service.ts:1014-1109 | Over a whole run of its peers and inferiors a user's roles never grow, and change exactly if one of them is deleted |
| RbacSafety.PeerLosesDeletedRole | src/features/auth/auth.service.ts:1014-1026 | A concrete consistent database in which that happens |
| RbacSafety.WriteKeepsConsistent | src/db/schema/rbac.ts:17-74 | A vouched-for write keeps foreign keys and the uniqueness of role names and permission keys |
| RbacWrites.StepWrites | src/features/auth/auth.service.ts:932-1206 | An operation is refused and changes nothing, or makes one elementary write that satisfies what its checks promise |
| RbacAdmins.AdminsRemain | src/features/auth/auth.service.ts:185-221 | In every run, super admins included, a super_admin and each university's university_admin remain if they were there, and core roles keep name and rank and stay |
| RbacAdmins.RemovalLeavesAnAdmin | src/features/auth/auth.service.ts:198-221 | A removal the last-administrator rule lets pass leaves another holder |
| RbacAdmins.WriteKeepsCoreRoles | src/features/auth/auth.service.ts:987-1026 | No vouched-for write renames, re-ranks or deletes a core role |
| RbacCache.ChangedAreInvalidated | src/features/auth/auth.service.ts:932-1206 | Everyone whose effective permissions an operation changes is among the users it invalidates |
| RbacCache.CachesAgree | src/shared/rbac/rbac.cache.ts:23-33 | After every run of operations and reads each cached permission set equals the recomputed one, and the cached role catalogue agrees on its relation of roles to permissions |
| RbacCache.HeldIsUntouched | src/features/auth/auth.repository.ts:403-452 | A write changes what a user holds only if it reaches the user |
| RbacCache.CatalogueOnlyChangesWhenDropped | src/features/auth/auth.cache.ts:32-45 | Operations that do not drop the cached role catalogue do not change it |
| RbacRules.PlatformKeysAreNotHandedOut | src/features/auth/auth.service.ts:140-155 | In every run of tenant administrators no role gains a platform-level permission |
| RbacRules.AttachedIff | src/features/auth/auth.service.ts:1168-1189 | A permission is attached exactly if role and permission exist, the grant is new, and, for an actor without the super-admin flag, the role is of its tenant and ranked below it and the key is its own and not platform-level; only the grant is added |
| RbacRules.DetachedIff | src/features/auth/auth.service.ts:1191-1206 | A permission is detached exactly from an existing role that the actor manages; only the grant goes |
| RbacRules.AssignedIff | src/features/auth/auth.service.ts:1056-1090 | A role is assigned exactly if the user is of the actor's tenant and ranked below it or the actor itself, the role is within reach and fits the user's tenant, and the row is new; only the row is added |
| RbacRules.RemovedIff | src/features/auth/auth.service.ts:1092-1109 | A role is taken exactly from another user within reach, unless the row makes the last administrator; only the row goes |
| RbacRules.LastAdminRuleIff | src/features/auth/auth.service.ts:185-221 | The rule refuses exactly the one row that makes a super_admin of the system or a university_admin of the university |
| RbacRules.GlobalIsByName | src/features/auth/auth.service.ts:340-390 | Promotion and demotion act on the role of that name without a tenant, and are refused if there is none |
| RbacRules.CreatedIff | src/features/auth/auth.service.ts:963-974 | A role is created exactly below the actor's rank under a name its tenant does not have; the owner is the actor's tenant unless a super admin names another |
| RbacRules.UpdatedIff | src/features/auth/auth.service.ts:987-1008 | A role is edited exactly if the actor manages it, a core role keeps name and rank, the new rank is below the actor and the name free; only the submitted fields change |
| RbacRules.DeletedIff | src/features/auth/auth.service.ts:1014-1026 | A role is deleted exactly if the actor manages it and it is not a core role; only it, its holders' rows and its grants go |
| RbacRules.PermissionDeletedIff | src/features/auth/auth.service.ts:932-961 | A permission is deleted exactly if it is not a core one; only it, its grants and its overrides go |
| RbacRules.OverridesAre | src/features/auth/auth.service.ts:1126-1162 | An override is set for an existing user and permission, and removed where there is one; nothing else changes |
| RbacRules.RefusedForTheFirstReason | src/features/auth/auth.service.ts:932-1206 | A refused operation is refused for the first of its checks that fails |
| RbacRules.EffectiveIff | src/shared/rbac/rbac.repository.ts:12-71 | A user has a key exactly if active, and an override grants the permission or there is none and a role carries it |
| RbacRules.RankIs | src/shared/rbac/rbac.repository.ts:12-71 | A user's rank is the greatest rank among the roles of an active user, and otherwise 0 |
| RbacRules.DroppedEntriesAre | src/features/auth/auth.cache.ts:32-45 | An operation that is carried out drops the cached sets of the users it reaches and no others, and the role catalogue exactly if roles or grants change |
| RbacRules.ReadsFillCaches | src/shared/rbac/rbac.cache.ts:23-33 | A read serves what is cached, or caches what the tables yield |
| RbacService.AuthService.CreateRole | src/features/auth/auth.service.ts:963-974 | Yields exactly the specified outcome on all tables and both caches |
| RbacService.AuthService.UpdateRole | src/features/auth/auth.service.ts:987-1008 | Yields exactly the specified outcome, including the core-role and rank refusals in their order |
| RbacService.AuthService.DeleteRole | src/features/auth/auth.service.ts:1014-1026 | Removes the role with its rows and invalidates its holders, or refuses |
| RbacService.AuthService.AssignRole | src/features/auth/auth.service.ts:1056-1090 | Adds the row and invalidates the user, or refuses with the first failing check |
| RbacService.AuthService.RemoveRole | src/features/auth/auth.service.ts:1092-1109 | Removes the row and invalidates the user, or refuses, the last administrator included |
| RbacService.AuthService.LastAdminCheck | src/features/auth/auth.repository.ts:324-353 | Counts the holders of the global role, in the system or the tenant, and refuses for the last one |
| RbacService.AuthService.AssignGlobal | src/features/auth/auth.service.ts:340-368 | Assigning by the name of a global role is assigning that role |
| RbacService.AuthService.RemoveGlobal | src/features/auth/auth.service.ts:370-390 | Removing by the name of a global role is removing that role |
| RbacService.AuthService.AttachPermission | src/features/auth/auth.service.ts:1168-1189 | Adds the grant and invalidates the role's holders, exactly if the actor manages the role and owns the key and it is not platform-level, or refuses |
| RbacService.AuthService.DetachPermission | src/features/auth/auth.service.ts:1191-1206 | Removes the grant and invalidates the role's holders, or refuses |
| RbacService.AuthService.DeletePermission | src/features/auth/auth.repository.ts:424-452 | Removes the permission with its grants and overrides and invalidates everyone it reached |
| RbacService.AuthService.AffectedByPermission | src/features/auth/auth.repository.ts:424-452 | The accumulated users are exactly those the permission reaches through a role or an override |
| RbacService.AuthService.SetOverride | src/features/auth/auth.repository.ts:375-385 | Inserts or replaces a user's override and invalidates the user |
| RbacService.AuthService.RemoveOverride | src/features/auth/auth.service.ts:1151-1162 | Removes a user's override and invalidates the user |
| RbacService.AuthService.ResolvePermissions | src/shared/rbac/rbac.repository.ts:12-71 | The loops compute role permissions plus grants minus denies, deny winning |
| RbacService.AuthService.ResolveRank | src/shared/rbac/rbac.repository.ts:12-71 | The loop computes the greatest rank of the user's roles, or 0 |
| Rsvp.OvershootBound | src/features/activities/activities.repository.ts:326-367 | For every interleaving with at most k transactions open, going attendees never exceed capacity + k − 1 |
| Rsvp.SerialRunsNeverOverfill | src/features/activities/activities.repository.ts:326-359 | Transactions that do not overlap never exceed the capacity |
| Rsvp.OvershootBoundIsTight | src/features/activities/activities.repository.ts:320-325 | For every capacity and k there is a run that reaches the bound |
| Rsvp.UpsertIsASerialRun | src/features/activities/activities.repository.ts:326-359 | One undisturbed transaction does what its steps do in the interleaved model |
| Rsvp.RefusedIff | src/features/activities/activities.repository.ts:333-346 | Refused is exactly an answer `going`, to an activity with a capacity, of a user not yet going, while as many or more are going; any other answer is set |
| Rsvp.TransactionSteps | src/features/activities/activities.repository.ts:332-357 | Which step of a transaction is possible when, and that it reads, counts and writes just what its answer needs |
| Rsvp.LeavingIsAlwaysPossible | src/features/activities/activities.repository.ts:361-367 | An open transaction can abort and a user cancel at any time, with no other effect |
| Rsvp.AttendeeTable.UpsertWithCapacity | src/features/activities/activities.repository.ts:326-359 | Refuses exactly a new going answer to a full activity, and otherwise sets the user's answer |
| Rsvp.AttendeeTable.RemoveAttendee | src/features/activities/activities.repository.ts:361-367 | Removes exactly the user's row |
| ActivityAgreement.CachesAgree | src/features/activities/activities.service.ts:107-452 | After every run of operations and reads, each cached discovery list equals a fresh query and each cached detail agrees on the row and the accepted links, also in other universities |
| ActivityAgreement.DropRestoresAgreement | src/features/activities/activities.cache.ts:40-52 | Dropping an activity's entries in every university it is or was accepted in restores agreement after any change of it |
| ActivityAgreement.LeaveKeepsAgreement | src/features/activities/activities.service.ts:362-383 | Taking the universities before the link is removed is enough |
| ActivityAgreement.AcceptKeepsAgreement | src/features/activities/activities.service.ts:350-359 | Taking the universities after the link became accepted is enough |
| ActivityAgreement.InviteKeepsAgreement | src/features/activities/activities.service.ts:332-347 | An invitation needs no invalidation |
| ActivityAgreement.CreateKeepsAgreement | src/features/activities/activities.service.ts:107-144 | A draft needs no invalidation; a published activity drops its universities' lists |
| Activities.DiscoveryKeyInjective | src/features/activities/activities.cache.ts:31-38 | Discovery keys of different universities or scopes differ, even for ids that contain the separator |
| Activities.DetailKeyInjective | src/features/activities/activities.cache.ts:31-38 | Detail keys of different activities differ |
| Activities.DetailIsNotDiscovery | src/features/activities/activities.cache.ts:31-38 | No detail key is a discovery key |
| ActivityRules.DiscoveryHolds | src/features/activities/activities.repository.ts:247-268 | A discovery list holds exactly the published activities, visible to the university or between universities, with an accepted club of the university, on the requested side of now, as they are stored |
| ActivityRules.DetailHolds | src/features/activities/activities.service.ts:26-34 | The accepted links of a detail are those of the activity to existing clubs, as they are stored |
| ActivityRules.DropClears | src/features/activities/activities.cache.ts:31-52 | Dropping an activity takes its detail and every scope's list of each university it is accepted in, and no other entry |
| ActivityRules.CreatedIff | src/features/activities/activities.service.ts:107-144 | An activity is created exactly for an existing club in an ordered window from now on, inter-university visibility being allowed; it is published at once, and entries dropped, exactly if asked for without a schedule |
| ActivityRules.PublishedIff | src/features/activities/activities.service.ts:174-183 | A draft is published exactly by a host |
| ActivityRules.PublishedWhenDue | src/features/activities/activities.service.ts:147-168 | The queue publishes exactly a hosted draft whose time has come |
| ActivityRules.UpdatedIff | src/features/activities/activities.service.ts:202-249 | An update goes through exactly for a host, before cancellation, into an ordered window from now on, with a schedule on drafts only and inter-university visibility allowed; exactly the submitted fields change |
| ActivityRules.CancelledIff | src/features/activities/activities.service.ts:254-264 | An activity is cancelled exactly once, by a host |
| ActivityRules.ModeratedIff | src/features/activities/activities.service.ts:267-286 | A moderator changes exactly what is shown in the moderator's university and not cancelled |
| ActivityRules.InvitedIff | src/features/activities/activities.service.ts:332-347 | A host invites exactly an existing other club without a link |
| ActivityRules.AcceptedIff | src/features/activities/activities.service.ts:350-359 | Exactly an invited co-host accepts |
| ActivityRules.LeftIff | src/features/activities/activities.service.ts:362-383 | Exactly a co-host link is left or, by a host, removed, with the entries of the universities shown until then |
| ActivityRules.ReadsFill | src/features/activities/activities.service.ts:26-34 | A read fills its missing entry from the tables and touches nothing else |
| ActivityRules.RefusedForTheFirstReason | src/features/activities/activities.service.ts:107-452 | A refused call is refused for the first of its checks that fails |
| ActivityLifecycle.LifecycleIsKept | src/features/activities/activities.service.ts:107-402 | Over every run a status only moves from draft to published to cancelled, a cancelled row never changes, accepted host links stay, start times stay at or before end times, and published rows carry no schedule |
| ActivityLifecycle.OnlyHostsAct | src/features/activities/activities.service.ts:420-429 | Publish, update, cancel and co-host administration by a club that is not a host are refused and change nothing |
| ActivityService.ActivitiesService.GetAcceptedUniversityIds | src/features/activities/activities.repository.ts:128-135 | A university is listed exactly if a club of it has an accepted link to the activity |
| ActivityService.ActivitiesService.InvalidateCache | src/features/activities/activities.service.ts:414-417 | Drops the detail and all scopes of each affected university |
| ActivityService.ActivitiesService.CreateForClub | src/features/activities/activities.service.ts:107-144 | Yields exactly the specified outcome on tables and cache |
| ActivityService.ActivitiesService.PublishForClub | src/features/activities/activities.service.ts:174-183 | Publishes a hosted draft and removes its schedule, or refuses |
| ActivityService.ActivitiesService.PublishDueActivity | src/features/activities/activities.service.ts:147-168 | Publishes a draft whose schedule is due and which has a host, otherwise changes nothing |
| ActivityService.ActivitiesService.UpdateForClub | src/features/activities/activities.service.ts:202-249 | Changes exactly the submitted fields after the window, schedule and visibility checks, or refuses |
| ActivityService.ActivitiesService.CancelForClub | src/features/activities/activities.service.ts:254-264 | Cancels once, or refuses |
| ActivityService.ActivitiesService.UpdateVisibilityForModerator | src/features/activities/activities.service.ts:267-286 | Changes the visibility of an activity accepted in the moderator's university, or refuses |
| ActivityService.ActivitiesService.ModerateCancelActivity | src/features/activities/activities.service.ts:390-402 | Cancels an activity accepted in the moderator's university, or refuses |
| ActivityService.ActivitiesService.InviteCoHostClub | src/features/activities/activities.service.ts:332-347 | Inserts an invited co-host link and leaves the cache alone, or refuses |
| ActivityService.ActivitiesService.AcceptCoHostInvite | src/features/activities/activities.service.ts:350-359 | Accepts an invited co-host link, or refuses |
| ActivityService.ActivitiesService.RemoveCoHostClub | src/features/activities/activities.service.ts:362-372 | Removes a co-host link on behalf of a host, or refuses |
| ActivityService.ActivitiesService.LeaveCoHostClub | src/features/activities/activities.service.ts:375-383 | Removes the club's own co-host link, or refuses |
| ActivityService.ActivitiesService.FetchActivityDetail | src/features/activities/activities.service.ts:26-34 | What a reader sees is the current row with the current accepted links |
| ActivityService.ActivitiesService.ListDiscoveryOf | src/features/activities/activities.service.ts:435-452 | What a reader sees is a fresh query: exactly the published, not members-only activities with an accepted club of the university on that side of now |
| ApplicationSafety.ReachableShape | src/features/clubs/club-application-chain.core.ts:109-160 | In every state reachable by decisions, votes, resubmissions, appeals and withdrawals, rows are approved, then at most one rejected or revision-requested, then pending; the stored status is the derived one; it is pending exactly when a current step is found, which is the first row that is not approved |
| ApplicationSafety.LogIsInStepOrder | src/features/admin/admin.repository.ts:113-119 | The approvals in an application's log are its steps from the first on, in order, once each, and exactly the approved rows |
| ApplicationProgress.RunKeepsCoherence | src/features/admin/admin.repository.ts:88-142 | In every run an application's rows and its appeal follow from its event log, in which no entry is out of turn |
| ApplicationProgress.ReviewKeepsCoherence | src/features/clubs/club-application-review.repository.ts:141-219 | An upheld appeal reopens the rejected row and a dismissed one leaves it, and rows and status still follow from the log |
| ApplicationSafety.OneClubPerApprovedApplication | src/features/admin/admin.repository.ts:140-178 | Exactly one club with the applicant as president exists per application all of whose steps were approved, none for any other, the club count says so, and no other club or membership appears or changes |
| ApplicationSafety.SlugsStayUnique | src/db/schema/clubs.ts:31-35 | No run lets two clubs of one university share a slug |
| Applications.FirstOfFiveCandidates | src/features/admin/admin.repository.ts:147-165 | The slug is the first of the five candidates that is free, and the search fails only if all are taken |
| Applications.CandidatesAreDistinct | src/features/admin/admin.repository.ts:147-148 | The five candidates are five different slugs |
| ApplicationSafety.SlugFailureIffAllTaken | src/features/admin/admin.repository.ts:167-169 | A decision fails for want of a slug exactly when it would approve the last step and all five candidates are taken; every table is then as before |
| ApplicationSafety.DecisionSettlesOneStep | src/features/admin/admin.repository.ts:97-122 | An effective decision settles exactly one pending step, logs it once and touches no other application |
| ApplicationSafety.DecidedByTheEntitled | src/features/clubs/club-application-chain.ts:18-67 | The first step not approved is decided by exactly the entitled; exactly those entitled only to a later step are told it is not their turn |
| ApplicationSafety.RuleIsEntitlement | src/features/admin/admin.repository.ts:212-230 | Committee steps take from a direct decision only a member's request for revision; other steps need the role they name |
| ApplicationRules.RoleStepIsDecidedIff | src/features/clubs/club-application-chain.ts:18-42 | A due step that names a role is decided for `club_approver`, a lone `advisor` and unknown names exactly by holders of club approval, for any other token exactly by those with that role, and for no role by nobody |
| ApprovalChain.CanDecideIff | src/features/clubs/club-application-chain.ts:18-42 | The same of any row: club approval stands in for no other role |
| ApplicationRules.CommitteeStepIsDecidedIff | src/features/admin/admin.repository.ts:212-230 | On a due committee step the only direct decision is a request for revision by a member of the active committee of that university |
| ApplicationRules.DecisionIsRefusedFor | src/features/admin/admin.repository.ts:180-242 | A direct decision is refused for the first of its checks that fails |
| ApplicationRules.SubmittedIs | src/features/clubs/clubs.repository.ts:260-287 | A submission adds a pending application whose row i asks for step i of the chain, and nothing else |
| ApplicationRules.ApprovalsFollowTheChain | src/features/clubs/club-application-chain.core.ts:141-160 | From the submission on, whatever is called, row i asks for what step i of the submitted chain says, and the approvals in the log are the first steps of that chain in their order |
| ApplicationRules.SettlingWrites | src/features/admin/admin.repository.ts:88-142 | A settled step is the first open row; status, log entry, rejector and time are as decided, and no other application changes |
| ApplicationRules.FinalizeWrites | src/features/admin/admin.repository.ts:88-142 | The status after a decision is approved with the last approval only, pending with an earlier one, and otherwise the decision |
| ApplicationRules.FoundingWrites | src/features/admin/admin.repository.ts:140-178 | The founded club is the proposed one under the first of its five slugs that no club of the university has, with the applicant as president |
| ApplicationRules.CandidatesAre | src/features/admin/admin.repository.ts:147-148 | The slugs tried are the proposal's own and then it with the suffixes -2 to -5 |
| CommitteeVotes.SettledByPresentMajorityIff | src/features/clubs/club-application-committee.service.ts:312-361 | A vote settles a committee step only by a present member and for the side whose ballots reach the threshold; a majority of the present members is on that side if and only if no more of its voters have left than it has votes above the threshold |
| CommitteeVotes.MembersDecide | src/features/clubs/club-application-committee.service.ts:312-335 | While all voters are members, a step is settled for a side exactly when more than half of the members are on it |
| CommitteeVotes.MajorityDecidesWhileNobodyLeaves | src/features/approval-committees/approval-committees.repository.ts:64-96 | In every run in which no update drops a member, each settled committee step has a majority of the present members on the side that wins |
| CommitteeVotes.FormerMembersDecide | src/features/approval-committees/approval-committees.repository.ts:82-96 | A run in which two members approve, the committee is replaced, and a vote against then approves the application with no present member in favour |
| ApplicationRules.VotedIff | src/features/clubs/club-application-committee.service.ts:235-300 | A vote goes in exactly from a member of the active committee that the due step names, with a reason if it is against |
| ApplicationRules.BallotIsRecorded | src/features/clubs/club-application-committee.service.ts:275-310 | A ballot replaces the side of the voter's earlier one at the step and changes no other |
| ApplicationRules.VoteIsRefusedFor | src/features/clubs/club-application-committee.service.ts:235-300 | A vote is refused for the first of its checks that fails |
| ApplicationRules.SidesAre | src/features/clubs/club-application-committee.service.ts:312-335 | Who counts as a member and who stands on a side, read off the committees and ballots |
| ApplicationRules.CommitteeWrites | src/features/approval-committees/approval-committees.repository.ts:64-96 | An update replaces exactly the submitted fields of a committee of the university |
| ApprovalChain.MajorityDecides | src/features/clubs/club-application-chain.core.ts:103-106 | For any counts, also above the number of members: approved exactly if approvals exceed half of the members, rejected exactly if only rejections do |
| ApplicationSafety.DecidedIsRefused | src/features/admin/admin.repository.ts:201-210 | While an application is not pending every decision and vote about it is refused |
| ApplicationAppeals.ApprovalIsFinal | src/features/admin/admin.repository.ts:201-210 | Approval is final: no later call changes the application or its log |
| ApplicationAppeals.RejectedStep | src/features/clubs/club-application-review.service.ts:222-283 | A rejected application stops being rejected exactly by a review that upholds its pending appeal, by somebody entitled to the rejected step who is not its rejector unless there is nobody else; an appeal is filed once and in time |
| ApplicationAppeals.RejectionIsFinalIff | src/features/clubs/club-application-review.service.ts:186-283 | A rejection holds over every later run if and only if the appeal is used up, or 60 days, the longest period that can be set, have passed without one, or the rejected step names no role: a second rejection and a committee's are final |
| ApplicationAppeals.RejectionIsFinalWithinIff | src/features/clubs/club-application-review.service.ts:201-209 | The same over the runs in which the university's period stays within a given number of days, which takes the place of the 60 |
| ApplicationAppeals.RejectedUntilUpheld | src/features/clubs/club-application-review.repository.ts:141-219 | A run in which nobody upholds its appeal leaves an application rejected, with the same rows |
| ApplicationAppeals.RejectedThenApproved | src/features/clubs/club-application-review.repository.ts:141-219 | A concrete run in which an application is rejected, its appeal upheld, and the application then approved |
| ApplicationRules.AppealedIff | src/features/clubs/club-application-review.service.ts:186-220 | An appeal is filed exactly by the applicant of a rejected application without one, until 14 days or what the university sets after the rejection |
| ApplicationRules.ReviewedIff | src/features/clubs/club-application-review.service.ts:222-283 | A pending appeal is reviewed exactly by somebody who meets the rejected row and is not its rejector unless alone; upheld, the row is pending and the rejection wiped, dismissed, only the appeal changes |
| ApplicationRules.WithdrawnIff | src/features/clubs/clubs.repository.ts:291-300 | Exactly the applicant's pending application goes, with its entries and ballots, and nothing of any other |
| ApplicationRules.ResubmittedIff | src/features/clubs/clubs.repository.ts:305-361 | Exactly the applicant resubmits a revision request: the new proposal, and the requesting row pending again |
| ApplicationRules.SettingWrites | src/features/tenant-settings/tenant-settings.catalog.ts:160-168 | A period of 1 to 60 days is set, or the default of 14 restored, for that university only |
| ApplicationRules.OthersAreRefusedFor | src/features/clubs/club-application-review.service.ts:186-283 | Resubmissions, appeals, reviews, withdrawals and settings are refused for the first of their checks that fails |
| ApplicationSafety.ResubmissionResumes | src/features/clubs/clubs.repository.ts:305-361 | A resubmission keeps the approvals and the ballots and makes the step that asked for the revision due again |
| ApprovalChain.FindCurrentApprovalStep | src/features/clubs/club-application-chain.core.ts:119-132 | The scan, whose check of earlier steps never fails, finds the first row that is not approved if it is pending |
| ApprovalChain.CurrentStepIs | src/features/clubs/club-application-chain.core.ts:119-132 | For rows in any order with distinct steps, the row found is the pending one all of whose predecessors are approved |
| ApprovalChain.ParseApprovalChainSteps | src/features/clubs/club-application-chain.core.ts:49-77 | Parses exactly lists of one to three valid steps, item by item |
| ApprovalChain.StoredStepParses | src/features/clubs/club-application-chain.core.ts:49-77 | Each step that parsing can yield is parsed back from its stored form, and no other |
| ApprovalChain.ItemParsesIff | src/features/clubs/club-application-chain.core.ts:36-77 | An item parses to a role step exactly if it names one of the seven roles, alone or in an object of that type, and to a committee step exactly if it names a UUID |
| ApprovalChain.DerivedStatusIs | src/features/clubs/club-application-chain.core.ts:109-116 | One rejection rejects, all approvals approve, failing a rejection one request asks for revision |
| ApprovalChain.BuildApprovalInsertRows | src/features/clubs/club-application-chain.core.ts:141-160 | One pending row per step, numbered from 1, each asking for what its step of the chain says, in the chain's order |
| ApplicationProgress.DerivedFromProgress | src/features/clubs/club-application-chain.core.ts:109-116 | The derived status is approved when all steps are, and otherwise that of the first step not approved |
| ApplicationService.ApplicationTables.DecideClubApplication | src/features/admin/admin.repository.ts:180-242 | The transaction yields exactly the specified outcome and restores every table on refusal |
| ApplicationService.ApplicationTables.FinalizeApplicationStep | src/features/admin/admin.repository.ts:88-178 | Row, log entry, status, club and membership as specified, or the slug refusal |
| ApplicationService.ApplicationTables.FindFreeSlug | src/features/admin/admin.repository.ts:147-165 | The attempt loop finds the first free candidate |
| ApplicationService.ApplicationTables.ResubmitApplication | src/features/clubs/clubs.repository.ts:305-361 | Yields exactly the specified outcome |
| ApplicationService.ApplicationTables.CastCommitteeVote | src/features/clubs/club-application-committee.service.ts:235-375 | Records the ballot and settles the step once a side has enough, or refuses; a failed founding takes the ballot back |
| ApplicationService.ApplicationTables.ReplaceCommittee | src/features/approval-committees/approval-committees.repository.ts:64-96 | Replaces the members or the active flag and leaves all ballots |
| ApplicationService.ApplicationTables.FileAppeal | src/features/clubs/club-application-review.service.ts:186-220 | Files the one appeal of a rejected application until the deadline, or refuses |
| ApplicationService.ApplicationTables.PatchAppealPeriod | src/features/tenant-settings/tenant-settings.service.ts:74-107 | The university's period is then the submitted one, or the default for none, and no other university's changes; a number outside 1 to 60 is refused |
| ApplicationService.ApplicationTables.DecideAppeal | src/features/clubs/club-application-review.service.ts:222-283 | Upholds or dismisses a pending appeal, or refuses |
| ApplicationService.ApplicationTables.WithdrawApplication | src/features/clubs/clubs.repository.ts:291-300 | Deletes a pending application with its entries and ballots, or refuses |
| ApplicationService.ApplicationTables.InsertApplicationWithApprovals | src/features/clubs/clubs.repository.ts:260-287 | A pending application whose rows ask for the steps of the submitted chain in order |
| PaginationWalks.TupleWalkIsExact | src/features/audit/audit-inspection.repository.ts:116-158 | Walking the audit decisions to a null cursor while newer rows arrive lists exactly the matching rows present at the start, once each, in strictly descending (createdAt, id) order, on as many pages as they fill |
| Pagination.TupleWalkFindsAll | src/features/audit/audit-inspection.repository.ts:133-140 | Every matching row present at the start is listed, whatever rows are added meanwhile, ties included |
| Pagination.ListingIsOrdered | src/core/db/base.repository.ts:220-231 | Under either cursor no row is listed twice and the listing is in order, whatever is added meanwhile |
| PaginationBoundaries.TimeCursorIsCompleteIff | src/features/admin/admin.service.ts:66-87 | A time-cursor walk lists every matching row present at the start, newer rows arriving meanwhile, if and only if in the rows sorted by time no page boundary falls within a millisecond |
| PaginationBoundaries.CompleteIffAnyOrderIsClear | src/features/admin/admin.service.ts:66-87 | A sorted order of the matching rows always exists, and whichever is taken decides: the walk is complete if one has clear boundaries, and then all have |
| PaginationBoundaries.DifferentTimesCanBeLost | src/features/admin/admin.service.ts:75-87 | A concrete walk to a null cursor that never lists a row at 1200 microseconds because the page before ended at 1500 |
| PaginationBoundaries.SameTimes | src/core/db/base.repository.ts:220-231 | Whatever order the database gives ties, the k-th row of a page has the k-th time |
| PaginationBoundaries.BlurredBoundaryLoses | src/features/admin/admin.service.ts:75-80 | At a boundary within a millisecond some row is neither on the page nor selected by the next query |
| Pagination.ColumnWalkFindsIff | src/features/admin/admin.service.ts:66-87 | A matching row present at the start is listed by a time-cursor walk if and only if no page ended within its millisecond before it was listed |
| PaginationWalks.ColumnWalkFindsAll | src/features/admin/admin.service.ts:75-87 | Where matching rows differ in their millisecond the time-cursor walk loses none |
| PaginationWalks.SingleRowPagesIff | src/core/db/base.repository.ts:220-231 | With one row per page the walk is complete if and only if no two matching rows share a millisecond |
| PaginationWalks.SameMillisecondSamePage | src/features/admin/admin.service.ts:75-80 | Two listed rows of one millisecond are on the same page |
| PaginationWalks.WalkIsBounded | src/features/audit/audit-inspection.service.ts:117-121 | No walk gets past the number of pages its matching rows fill, so it ends |
| PaginationWalks.ListedWasThere | src/features/audit/audit-inspection.repository.ts:133-155 | Newer rows that arrive after the first page are not listed |
| Pagination.LastPageHoldsAll | src/features/audit/audit-inspection.service.ts:117-121 | A page without a next cursor holds everything its query selects |
| Pagination.TuplePageIsUnique | src/features/audit/audit-inspection.repository.ts:152-155 | The ordered, limited query has exactly one result under the tuple order |
| Pagination.PageShape | src/core/db/base.repository.ts:220-231 | What a query selects under each cursor, how many rows a page shows, and when it has a successor |
| Pagination.ListedBackwards | src/features/admin/admin.service.ts:66-87 | Under the time cursor the listing goes back in time without repeating a row |
| RateLimit.SlidingBound | src/core/ratelimit/ratelimit.store.ts:21-31 | For all hit times and every limit of at least 1, at most twice the limit less one pass in any half-open interval of one window length |
| RateLimit.SlidingBoundIsTight | src/core/ratelimit/ratelimit.store.ts:21-31 | For every limit there are hit times that reach that bound |
| RateLimit.LimitPerWindow | src/core/ratelimit/rate-limiter.ts:92-111 | At most the limit pass in one fixed window |
| RateLimit.NothingPasses | src/core/ratelimit/rate-limiter.ts:103-111 | A limit of zero or less lets nothing through |
| RateLimit.RetryAfterIff | src/core/ratelimit/rate-limiter.ts:103-105 | However the store rounds: the first hit after the announced wait passes if and only if the limit is at least 1, the window has closed by then, and fewer than the limit came between its close and the announced time or that next window is over too |
| RateLimit.RetryAfterPasses | src/core/ratelimit/rate-limiter.ts:103-105 | Where the announced wait outlasts the window and nothing comes in between, the next hit opens a new window and passes |
| RateLimit.EarlyRetryIsRejected | src/core/ratelimit/stores/redis.store.ts:36-57 | Where the announced wait ends before the window, a retry at the announced time is rejected again |
| RateLimit.PatientRetryCanFail | src/core/ratelimit/stores/memory.store.ts:55-58 | Concrete times at which a retry after a wait rounded up is rejected |
| RateLimit.NearestRoundingIsTooEarly | src/core/ratelimit/stores/redis.store.ts:36-57 | Concrete times at which a wait rounded to the nearest second ends before the window |
| RateLimit.AnnouncedAfterClose | src/core/ratelimit/stores/memory.store.ts:55-58 | Rounded up as the in-memory store does, the announced seconds end at or after the close of the window, by less than one second |
| RateLimiter.Limiter.Handle | src/core/ratelimit/rate-limiter.ts:81-115 | Requests without identity, a disabled limiter and a failing store let through; otherwise a request passes if and only if its count is within the limit, with these headers |
| RateLimiter.Limiter.StoreHit | src/core/ratelimit/stores/memory.store.ts:39-59 | Counts within the open window without extending it, or opens one, and reports the remaining seconds rounded up |
| RateLimiter.KeysAreIndependent | src/core/ratelimit/ratelimit.store.ts:21-31 | Each key's window depends on the hits on that key alone |
| RateLimiter.HitAtIs | src/core/ratelimit/stores/memory.store.ts:39-59 | A hit counts in its key's open window or opens one of the given length; no other key changes |
| RateLimiter.CountersAreSeparate | src/core/ratelimit/rate-limiter.ts:87-87 | Identities of one limiter, and limiters with prefixes free of colons, never share a counter |
| RateLimiter.ColonPrefixesCanCollide | src/core/ratelimit/rate-limiter.ts:87-87 | With a colon in a prefix two limiters can count on one key |
| Advisors.AdvisorshipsAreConserved | src/features/club-advisors/club-advisors.service.ts:71-303 | From no records on, per pair at most one pending invitation, none while the user advises the club, and acceptances less withdrawals and removals are 1 exactly if the user is an active advisor, else 0 |
| Advisors.StepKeepsInv | src/features/club-advisors/club-advisors.repository.ts:59-180 | Each call keeps these three properties, refused calls included |
| Advisors.AcceptedIff | src/features/club-advisors/club-advisors.service.ts:189-206 | An invitation is accepted if and only if it is the user's, was pending and has not expired, and the user then advises the club |
| Advisors.AnswersAreFinal | src/features/club-advisors/club-advisors.repository.ts:89-162 | An answered, cancelled or expired invitation never changes again |
| AdvisorRules.InvitedIff | src/features/club-advisors/club-advisors.service.ts:71-105 | A user is invited exactly if eligible, not advising the club and without a pending invitation in time; stale ones expire, and refusals name the first failing check |
| AdvisorRules.AnsweredIff | src/features/club-advisors/club-advisors.service.ts:141-247 | Exactly the caller's pending invitation in time is answered; one that ran out since the sweep expires; accepting makes the invitee an advisor; refusals name the first failing check |
| AdvisorRules.ClosedIff | src/features/club-advisors/club-advisors.service.ts:269-280 | Exactly an advisor withdraws, which keeps the row, or is removed, which deletes it |
| AdvisorService.ClubAdvisors.ExpireStale | src/features/club-advisors/club-advisors.repository.ts:59-64 | Expires exactly the pending invitations past their time |
| AdvisorService.ClubAdvisors.InviteAdvisor | src/features/club-advisors/club-advisors.service.ts:71-105 | Yields exactly the specified result |
| AdvisorService.ClubAdvisors.AcceptInvitationInTx | src/features/club-advisors/club-advisors.repository.ts:89-126 | Answers the invitation and opens or reopens the advisor row, or does nothing |
| AdvisorService.ClubAdvisors.AcceptInvitation | src/features/club-advisors/club-advisors.service.ts:189-206 | Yields exactly the specified result, including the expiry of a late answer |
| AdvisorService.ClubAdvisors.DeclineInvitation | src/features/club-advisors/club-advisors.service.ts:230-247 | Yields exactly the specified result |
| AdvisorService.ClubAdvisors.CancelInvitation | src/features/club-advisors/club-advisors.service.ts:141-158 | Yields exactly the specified result |
| AdvisorService.ClubAdvisors.WithdrawFromClub | src/features/club-advisors/club-advisors.service.ts:269-280 | Ends an active advisorship and keeps its row, or refuses |
| AdvisorService.ClubAdvisors.RemoveAdvisor | src/features/admin/admin.service.ts:526-535 | Deletes an active advisor's row, or refuses |
| Catalogue.Tables.ProvisionRbacCatalog | src/db/rbac-catalog.ts:147-200 | Succeeds if and only if no retired permission is present and otherwise changes nothing; on success every listed role has its rank and at least its bundle, super_admin has every permission, nothing is lost, only called-for grants are new, and a provisioned database does not change |
| Catalogue.Tables.ProvisionRoles | src/db/rbac-catalog.ts:148-164 | Every listed global role is there with its rank, and other roles are as before |
| Catalogue.Tables.GrantBundles | src/db/rbac-catalog.ts:185-190 | Every bundled permission that exists is granted, and nothing else is added |
| Catalogue.Tables.IndexByKey | src/db/rbac-catalog.ts:171-173 | The filled map is exactly the inverse of the permission table |
| Catalogue.BundlesReadyWhenGranted | src/db/rbac-catalog.ts:185-190 | Granting each bundle to the role found under its name leaves no bundled permission ungranted |
| Catalogue.NothingDueIsAdded | src/db/rbac-catalog.ts:139-146 | Where everything called for was granted, adding only what is called for adds nothing |
| Catalogue.BlanketGrantFailsIff | src/db/rbac-catalog.ts:176-197 | The blanket grant refers to a missing permission exactly if a retired one was in the snapshot |
| Catalogue.RetiredKeyAborts | src/db/rbac-catalog.ts:176-197 | On a concrete database that holds `club.manage` provisioning aborts and changes nothing |

## Left out

- Explicit `Cache.set` and `Cache.get`: a direct write bypasses the coordination, so no staleness claim covers it.
- Cross-instance races on the cache, and concurrent role, invitation or activity administration: the program claims nothing there; those services run one call at a time.
- TTL values, metrics and logging of the cache: expiry is modelled as an event that may happen to any entry at any time.
- `defineKeyspace`, `bindEntry` and `uncoveredEntries`: they wire keys to caches and would only add easy members.
- The text between `JSON.stringify` and `JSON.parse`, and the number −0: the codec is modelled on trees.
- `createPermission`, `updatePermission` and descriptions: no rule or cached relation depends on them.
- Users, tenants, sign-in and account status: the set of users and the university of each are fixed; counts of role holders include soft-deleted users, as in the program.
- The cached rank of a user: `updateRole` does not invalidate it, so the cache property is about permissions.
- Creator and club profile fields in the cached activity detail, and the settings behind the inter-university permission: the verdict is a parameter.
- The publish queue and its reconciliation: only the publishing of one due activity is modelled.
- Attendance fields beyond the answer, and capacity changes during RSVP runs: the bound is for a fixed capacity.
- Overlapping transactions on applications: decisions, votes, appeals and the slug search run one after the other in the model.
- The review checklist, which the service checks before a direct approval, and its log entries: further refusals of the same decision.
- The number of other reviewers and whether a rejecting vote gives a reason are parameters; days of the appeal period have 24 hours, also where the local clock changes; who may change the period is not checked.
- Founded clubs and their members being edited, archived or removed later: runs contain the calls on applications, committees and the appeal period only.
- Notes on decisions, notifications, audit entries and e-mail: side effects without a property here.
- The slug form of a name: it is part of the proposal; the candidate loop is modelled.
- Rate-limit store adapters apart from the in-memory store's counting and rounding: their eviction, failure handling and Redis's own rounding are not modelled.
- Soft deletion while a walk is under way: the filter is a fixed predicate on rows.
- Permission descriptions in the catalogue, and random ids: ids are drawn from a counter, and a role is found under the unique name of its global template.
- The HTTP routes, validation schemas, locales and seed scripts.
