# Verification model of Nexus

Nexus manages cloud accounts of several providers for the members of a workspace. This project models
the parts of its server where concurrency, time and stored state interact, and proves what they
guarantee. `dafny verify dfyconfig.toml` checks everything.

- **Refresh and lease protocol** (`Redis`, `Lease`, `LeaseSafety`, `LeaseRenewal`, `Claims`,
  `ClaimSafety`, `ClaimAnswers`, `RefreshJobs`, `Slots`, `SlotProgress`, `ScopeKeys`, `Decimals`): Redis
  is a map with expiry on one clock, every command or script is one atomic step, and a run is any
  interleaving of steps of any number of workers and requests, with crashes and lost releases.
  Goroutines, their semaphores and their result channels are a second state machine, in which a send is a
  step that needs room.
- **Access policy** (`Capabilities`, `AccessPolicy`, `DirectoryRuns`, `AccountAccess`, `AccessRuns`,
  `Selection`): the two policy models, where roles come from, the conversion from one model to the
  other, and runs of saved assignments.
- **Snapshots** (`Inventory`, `Ordering`, `SecurityGroups`, `SnapshotRuns`): reconciling provider results
  that partly fail with what is stored.
- **Identity** (`Identity`, `IdentitySafety`, `IdentityRoles`, `SsoGrants`): seats under an advisory lock
  with one statement per step, owners, session versions, and the grants that single sign-on derives.
- **Reports and billing** (`ReportLines`, `ReportSums`, `ReportTally`, `Reports`, `Calendar`,
  `BillingWindow`): the overview aggregation and the window of billing months.

Code that updates state in place is a class or a method with loops, proved equal to a specification
function; the theorems are about those functions and about whole runs. Provider calls return arbitrary
results or errors, and tokens are fresh and unique. A theorem over runs is about every sequence of steps
that can happen.

## What the code does differently from what it says

- The comment at `internal/app/account_access.go:359` says conversion preserves access. It takes nothing
  away, but it adds EDS capabilities (`AccessRuns.ConversionAddsEds`,
  `AccessRuns.ConversionIsExactOnEverythingIff`), and managers of a group that manages without viewing
  gain the viewing capabilities (`AccessRuns.ConversionIsExactIff`).
- Removing a principal from an unconverted account changes nothing when the legacy access is all that
  principal's, the viewing team itself or an only manager: the request converts, deletes the converted
  rows and so falls back to the legacy policy (`AccessRuns.RemovalIsANoOpIff`).
- A failed read of an unfinished job's record counts as a stale job in the inventory refresh, which then
  drops the claim (`ClaimSafety.FailedReadTakesAClaimIff`, with a run in
  `ClaimSafety.FailedReadLosesAClaim`). The other refreshes do not clean and are immune.
- Inventory and security-group runs may use the claim's full 600 seconds, so two of one scope can overlap;
  EDS and OSS runs, cut off after 300, cannot (`ClaimSafety.BoundIsSafeIffBelowTerm`).
- While a finished job still holds its scope, because its release is on its way or was lost, the EDS, OSS
  and security-group refreshes answer with that finished job and refresh nothing, for up to 600 seconds;
  the inventory refresh starts a new one (`ClaimAnswers.UndisturbedRequest`).
- A region's security groups are forgotten when the previous snapshot cannot be read back or the region
  is no longer configured (`SnapshotRuns.WhenARegionIsForgotten`).
- On the last days of some months the default billing cycle is the current month
  (`BillingWindow.WhenTheDefaultIsTheCurrentMonth`).
- An account's `all` desktop snapshot hides its regional ones even when it cannot be decoded
  (`ReportLines.AllReplacesRegional`).

## Model

| member | source | states |
|---|---|---|
| Capabilities.CompletionIsLeastClosed | internal/app/account_access.go:34-49 | Adding prerequisites gives the least prerequisite-closed set around the requested one, and leaves closed sets alone |
| Capabilities.AddPrerequisites | internal/app/account_access.go:34-49 | The chain of conditional additions, in its order, reaches that closure in one pass |
| Capabilities.ReadPermissions | internal/app/account_access.go:26-33 | One unknown name refuses the whole request; otherwise exactly the named capabilities are collected |
| Capabilities.ListPermissions | internal/app/account_access.go:50-56 | The set is listed in the order of the capability table |
| Capabilities.CanonicalListIsUnique | internal/app/account_access.go:50-55 | A set of capabilities has only one list in table order |
| Capabilities.ValidRolePermissions | internal/app/account_access.go:21-57 | The loops together compute the specified stored permissions or refuse |
| Capabilities.StoredPermissionsAreLeastClosure | internal/app/account_access.go:21-57 | A request is refused iff it is empty or names something unknown; otherwise the stored list is duplicate-free, in table order and the least closed superset of the request |
| Capabilities.CompletionIsIdempotent | internal/app/account_access.go:21-57 | Storing stored permissions again changes nothing |
| AccessPolicy.ListingAgreesWithPointCheck | internal/app/policy.go:117-154 | The two separately written queries, list and point check, agree on every account, user, capability and table content |
| AccessPolicy.CanAccountIff | internal/app/policy.go:117-154 | The decision spelt out in both directions: admin, or an account-level assignment of a role with the capability, through a team only with a membership that is manager for managing and not viewer for operating, or without any assignment the legacy group's switches and the member's role |
| AccessPolicy.SoleTeamAssignment | internal/app/policy.go:130-137 | With a team's assignment as the only one, an ordinary user has exactly the role's capabilities that a membership of that team is high enough for |
| AccessPolicy.AccessibleAccountIDs | internal/app/policy.go:37-84 | The strictly ascending list of exactly the accounts the point check allows |
| AccessPolicy.AscendingListIsUnique | internal/app/policy.go:70-83 | Such a list is determined by its members, so the listing has one possible value |
| AccessPolicy.CapKeepsClosure | internal/app/policy.go:134-135 | A prerequisite never needs a higher membership rank than what needs it |
| AccessPolicy.ExplicitAccessIsClosed | internal/app/policy.go:124-137 | On an account with assignment rows every user's effective capabilities are prerequisite-closed, for any number of direct and team grants and membership sources |
| DirectoryRuns.RoleStore.SaveAccessRole | internal/app/account_access.go:59-95 | A custom role is created or updated with its completed permissions, or refused; built-in roles are never touched |
| DirectoryRuns.DeletingARoleChangesNoAccess | internal/app/account_access.go:97-125 | After a deletion, allowed or refused, every assignment still has its role, and nobody's capabilities on any account have changed |
| DirectoryRuns.DeletionIsRefusedIff | internal/app/account_access.go:107-119 | A custom role is kept exactly when some assignment would refer to nothing without it |
| DirectoryRuns.ValidatedIsClosed | internal/app/account_access.go:71-86 | The stored list, as the policy query reads it, is prerequisite-closed |
| DirectoryRuns.SeedsOf | internal/app/migrations/008_alibaba_billing.sql:37-46 | A new workspace gets exactly the three roles viewer, operator and account manager with their fixed permissions, each prerequisite-closed |
| DirectoryRuns.EveryDirectoryIsWellFormed | internal/app/migrations/005_access_policy_foundation.sql:1-65 | Over any run of writes to workspaces, roles, users, groups, accounts, memberships and assignments the seeded roles are unaltered, all roles closed, memberships inside one workspace, and every assignment refers to an existing principal, account and role of its own workspace |
| DirectoryRuns.AssignmentsReferToWhatExists | internal/app/migrations/005_access_policy_foundation.sql:45-65 | On every such run each assignment names a principal, an account and a role that exist in its own workspace |
| DirectoryRuns.AccessIsClosedOnEveryRun | internal/app/policy.go:124-137 | Closure end to end: on every such directory and any assignments, the capabilities of every user on an account with rows are prerequisite-closed |
| AccessPolicy.LegacyAccessIsClosedIff | internal/app/policy.go:138-151 | On an account without rows they are closed iff the user is not a manager of a group that manages without viewing |
| AccountAccess.AccessStore.SaveAccountAccess | internal/app/account_access.go:307-417 | The response and the whole new table, a refused request leaving the table alone |
| AccountAccess.AccessStore.Replace | internal/app/account_access.go:353-410 | Conversion, deletion and insertion in order; the insertion never meets a row with its key |
| AccountAccess.AccessStore.ConvertLegacy | internal/app/account_access.go:358-384 | The two conditional inserts add exactly the legacy rows |
| AccountAccess.AccessStore.InsertManagers | internal/app/account_access.go:370-378 | A manager from several membership sources gets one row |
| AccountAccess.SaveKeepsForeignKeys | internal/app/account_access.go:336-352 | After any request every row still refers to a principal, account and role of its own workspace |
| AccessRuns.RefusedIff | internal/app/account_access.go:307-352 | A request takes effect iff an admin names an existing principal and account of the workspace, and a role that exists or none; a refused one leaves the table alone |
| AccessRuns.RoleKeyAssigns | internal/app/account_access.go:385-410 | Any role key but the empty one and `none` assigns: the answer says so, and the principal's only manual account-level row holds that role |
| AccessRuns.NoRoleKeyRemoves | internal/app/account_access.go:385-394 | The empty key and `none` remove: the answer says so, and the principal has no manual account-level row left |
| AccessRuns.OtherRowsStay | internal/app/account_access.go:385-388 | Every other row stays with its role |
| AccessRuns.AssignedUserHasTheRole | internal/app/account_access.go:395-410 | Right after the request a user assigned a role has every capability of it on the account, whatever was there before |
| AccessRuns.LegacyRowIff | internal/app/account_access.go:358-384 | Which rows a conversion writes, one by one, with which role |
| AccessRuns.ConvertedGrants | internal/app/account_access.go:358-384 | What the converted rows grant, in terms of the group's switches and the user's best rank |
| AccessRuns.LegacyGrants | internal/app/policy.go:141-151 | What the legacy policy grants, in the same terms |
| AccessRuns.ConversionKeepsAccess | internal/app/account_access.go:358-384 | Converting an account takes nothing from anyone, and leaves a row whenever legacy granted anything |
| AccessRuns.ConversionIsExactIff | internal/app/account_access.go:358-384 | The two policies agree on every capability outside EDS for every user of the workspace iff nobody but admins is a manager of a group that manages without viewing |
| AccessRuns.ConversionAddsEds | internal/app/account_access.go:358-384 | Conversion does widen access: legacy never grants EDS, and afterwards EDS viewing is granted to exactly the users the new rows cover |
| AccessRuns.ConversionIsExactOnEverythingIff | internal/app/account_access.go:358-384 | The two policies agree on every capability, EDS included, for every user of the workspace iff the converted rows cover nobody but admins |
| AccessRuns.OtherAccountsUntouched | internal/app/account_access.go:385-410 | A request leaves rows and decisions of every other account as they were |
| AccessRuns.PeerKeepsAccess | internal/app/account_access.go:326-414 | Nobody but the target user, or the members of the target team, loses a capability by a request |
| AccessRuns.TargetGetsRole | internal/app/account_access.go:385-410 | The target ends with exactly one manual row holding the role, or with none |
| AccessRuns.UntouchedUserKeepsAccess | internal/app/account_access.go:326-414 | Over any run of requests from any state a user keeps every capability on an account unless some request targets the user there |
| AccessRuns.LossNeedsATarget | internal/app/account_access.go:326-414 | Over any run a lost capability can be traced to a request that targeted the user or one of the user's teams |
| AccessRuns.PeerGainsNothing | internal/app/account_access.go:326-414 | A request that does not take the account from one policy to the other gives nothing to anyone it does not target |
| AccessRuns.GainNeedsATargetOrASwitch | internal/app/account_access.go:326-414 | Over any run from any table a gained capability can be traced to a request that targeted the user, or to one that converted the account or returned it to its legacy group |
| AccessRuns.RemovalIsANoOpIff | internal/app/account_access.go:353-388 | Removing a principal from an account without rows changes nothing iff the legacy access is all that principal's: no group, the viewing team itself, neither switch, or the only manager |
| AccessRuns.RemovalReturnsToLegacyIff | internal/app/account_access.go:353-388 | A removal leaves the account under the legacy policy iff it had rows and all were the principal's, or it had none and the legacy access was all the principal's |
| AccessRuns.LastPrincipalReturnsToLegacy | internal/app/account_access.go:385-410 | On every table that requests lead to, that is iff nobody else has a row on the account |
| Decimals.FormatIntIsInjective | internal/app/refresh_jobs.go:50 | Printed integers are equal only if the integers are |
| Decimals.ParseOfFormat | internal/app/auth.go:382 | Reading a printed 64-bit integer gives it back |
| Decimals.SplitOfJoin | internal/app/refresh_jobs.go:52 | Splitting a comma-joined list of comma-free parts gives the parts back |
| ScopeKeys.RefreshScopeKey | internal/app/refresh_jobs.go:45-53 | The key is printed from an ascending arrangement of the selection; the caller's list is not changed |
| ScopeKeys.SortInPlace | internal/app/refresh_jobs.go:46-47 | An ascending permutation, in place |
| ScopeKeys.ScopeKeysAreCanonical | internal/app/refresh_jobs.go:45-53 | Two keys are equal iff workspace and multiset of ids are equal, for all integers |
| ScopeKeys.DistinctSelectionsShareAKeyIff | internal/app/refresh_jobs.go:45-53 | For duplicate-free selections: iff workspace and set of ids are equal |
| Selection.SelectParts | internal/app/auth.go:379-395 | The loop finds the first refused part, or the distinct ids in order |
| Selection.RequestedAccountIDs | internal/app/auth.go:366-406 | The outcome of a selection: empty means all allowed; else at most 100 parts, each an allowed id, one provider, unless the counting query fails |
| Selection.FirstOccurrencesInOrder | internal/app/auth.go:391-394 | The kept ids are distinct and stand in the order of their first occurrence |
| Selection.RefusedAs | internal/app/auth.go:375-389 | More than 100 parts are too many; otherwise the first part that is no positive 64-bit number or not allowed decides, and as which of the two |
| Selection.AcceptedIff | internal/app/auth.go:379-405 | Any other selection is accepted iff its accounts are of one provider, as the ids it names, all of them and no others |
| Selection.ExplicitSelection | internal/app/auth.go:379-405 | An accepted explicit selection is duplicate-free, allowed and of one provider |
| Selection.SelectAccounts | internal/app/refresh_jobs.go:106-114 | Listing and selection together: every selected id passes the point check, an empty request selects all that do |
| Lease.ReachableInv | internal/app/collector.go:150-210 | In every reachable state a worker inside its term owns its key with its own token and expiry, and tokens are unique |
| Lease.OthersLeaveAHeldKeyAlone | internal/app/collector.go:196-208 | No other worker's step changes a key its owner still holds |
| LeaseRenewal.EntersIffFree | internal/app/collector.go:150-158 | A call enters collect iff the key is free, and then holds it for 120 s |
| LeaseRenewal.RenewsIffHeld | internal/app/collector.go:194-201 | A renewal that finds the worker's token extends the key to 120 s from now and the collection goes on; any other changes nothing in the store and cancels it |
| LeaseRenewal.FreesIffHeld | internal/app/collector.go:204-208 | A delivered release frees the key iff it still holds the worker's token |
| LeaseRenewal.SettlesIffRefreshed | internal/app/collector.go:166-175 | A waiting call that finds the key free returns success iff a success later than its attempt is recorded, and else starts over with a token of its own |
| LeaseRenewal.RecordsItsSuccess | internal/app/collector.go:143-147 | A recorded success is the account's last one, and only after it may a compute collection return success |
| LeaseRenewal.WhoTicksKeepsTheKey | internal/app/collector.go:183-203 | A worker that takes the key and sends a renewal at least every `gap` seconds, for any gap below 120, holds it at every state of any run until it returns, and no other call enters collect for that key |
| LeaseRenewal.TakenKeyWasRenewedLately | internal/app/collector.go:154 | No key stays taken for 120 s after its taker last took or renewed it, crashed or not |
| LeaseRenewal.WaitingCallSettles | internal/app/collector.go:158-177 | A success recorded while a call waits is what the call returns when it next finds the key free |
| LeaseSafety.LockWritesAreOwn | internal/app/eds_refresh.go:223-267 | Only a take of a free key, or the renewal or release of the worker holding it, ever changes a lock |
| LeaseSafety.AtMostOneFreshCollector | internal/app/collector.go:183-209 | Among workers inside collect within 120 s of their last success, at most one per key |
| LeaseSafety.LostForever | internal/app/collector.go:196-200 | A worker that lost its lease never renews again, and its next tick cancels it |
| LeaseSafety.SuccessIsHonest | internal/app/collector.go:158-182 | A successful return means own success or one recorded after the original call began, across any number of retries |
| LeaseSafety.GapIsSafeIffBelowTerm | internal/app/collector.go:154 | If everybody inside collect sends a renewal at least every `gap` seconds, whatever comes of it, collections never overlap, iff the gap is below 120 s |
| LeaseSafety.GraceIsSafeIffBelowRest | internal/app/collector.go:187-203 | With renewals sent every 30 s collections never overlap iff a cancelled one leaves in less than 90 s |
| Claims.StepKeepsInv | internal/app/refresh_jobs.go:120-189 | Every step whose reads succeed keeps claims, records, scopes and requests consistent |
| ClaimSafety.RunsWithoutCleaningAreHarmless | internal/app/eds_refresh.go:113-145 | EDS, OSS and security-group refreshes never clean, so failed reads cannot harm them |
| ClaimSafety.ClaimLastsItsTerm | internal/app/refresh_jobs.go:135-140 | An unfinished job's claim stands until 600 s after it was made, and not a second longer |
| ClaimSafety.NobodyRemovesAnUnfinishedClaim | internal/app/refresh_jobs.go:120-187 | No release, cleanup or claim ever removes or replaces the claim of a job that has not made its final save |
| Claims.StepKeepsBase | internal/app/refresh_jobs.go:120-189 | Every step, failed reads included, keeps each job's record for its term and final only after the final save, each scope key naming a job of that scope for 600 s from its claim, and each request at a job of its own scope |
| ClaimSafety.LiveScopeHasLiveRecord | internal/app/refresh_jobs.go:135-140 | On any run whatever a live scope key names a job whose record is live, and a request is answered with a job of its own scope |
| ClaimSafety.StatusOnlyMovesForward | internal/app/refresh_jobs.go:160-186 | Over any run a recorded status only moves queued, running, terminal, and a terminal one stays |
| ClaimAnswers.SettlesIffUnderway | internal/app/refresh_jobs.go:121-127 | A request settles for the job it found iff that job's record can be read and says queued or running; else the inventory refresh goes on to delete the claim and the others to claim |
| ClaimAnswers.StartsAJobIffFree | internal/app/refresh_jobs.go:135-156 | A claim starts a job iff the scope is free: 600 s of scope, 3600 s of a queued record; else the answer is the job that holds the scope |
| ClaimAnswers.DeletesIffStillNamed | internal/app/refresh_jobs.go:126 | The stale claim is deleted iff the scope still names the job found stale |
| ClaimAnswers.FreesIffStillNamed | internal/app/refresh_jobs.go:187 | A delivered release frees the scope iff it still names the job |
| ClaimAnswers.FinishedJobIsNotSettledFor | internal/app/refresh_jobs.go:121-127 | Once a job's final save is delivered no request that loads it settles for it, on any run and however much later |
| ClaimAnswers.UnfinishedJobIsSettledFor | internal/app/refresh_jobs.go:121-127 | Until its final save every request that loads a job within an hour of its claim settles for it and starts nothing |
| ClaimAnswers.UndisturbedRequest | internal/app/refresh_jobs.go:120-156 | What an undisturbed request comes to: a new job on a free scope, the job underway, or with a finished job still on the scope a new job for the inventory refresh and the finished one for the others |
| ClaimSafety.BoundIsSafeIffBelowTerm | internal/app/oss.go:95-157 | Jobs of one scope never overlap on runs bounded by a time, iff the bound is below 600 s |
| ClaimSafety.FailedReadTakesAClaimIff | internal/app/refresh_jobs.go:121-127 | The cleanup after a failed read deletes the live claim of an unfinished job iff the job that could not be read has neither made its final save nor had its 600 s |
| ClaimSafety.TakenClaimNeedsAHarmfulRead | internal/app/refresh_jobs.go:120-187 | On any run whatever, a step that takes such a claim comes after a read of that kind |
| ClaimSafety.FailedReadLosesAClaim | internal/app/refresh_jobs.go:121-127 | The witness: one failed read of a running job's record makes the inventory refresh drop its claim and start a second job |
| RefreshJobs.InventoryJob.Finish | internal/app/refresh_jobs.go:169-182 | Completed iff run and read succeeded and every selected account is healthy, partial iff some is not, failed otherwise; with the failure list and the error of every case |
| RefreshJobs.RefreshRunner.RunInventoryRefresh | internal/app/refresh_jobs.go:160-187 | A background run leaves job, records and scope as the four steps of the claim machine do, whichever of its writes are delivered, and ends its job |
| RefreshJobs.FailedRefreshAccounts | internal/app/refresh_jobs.go:85-100 | Exactly the selected accounts with an error, ascending, each once |
| Slots.StepKeepsInv | internal/app/collector.go:48-65 | Every step keeps the pools within capacity, started goroutines below running ones, and every open channel at the count of what its senders sent |
| SlotProgress.DueSendHasRoom | internal/app/collector.go:111-131 | Whoever is about to send, slot still held or not, finds its starter's channel open and with room |
| SlotProgress.SendNeverBlocks | internal/app/collector.go:48-68 | On every schedule a due send of an account or region is enabled at once |
| SlotProgress.RoomIffSomeoneHasNotSent | internal/app/security_groups.go:244-297 | While its maker runs a channel has room iff somebody it starts has not sent, so there is none to spare |
| SlotProgress.EveryResultIsIn | internal/app/security_groups.go:299-313 | Whoever has waited for all it started reads a result of every account or security-group region from its channel, and nothing besides but errors of instance regions |
| SlotProgress.AccountsSendWithoutSlots | internal/app/collector.go:50-63 | An account sends its result only after lease and slot are given back |
| SlotProgress.SomeoneCanStep | internal/app/collector.go:111-131 | While work remains some goroutine can take a slot, start, send, finish or give back without any context ending, because waits follow one order of the pools and sends find room |
| SlotProgress.EveryCollectionCanFinish | internal/app/collector.go:48-66 | Any set of collections has a schedule without any failure that starts and finishes every goroutine of them |
| SlotProgress.EverythingIsCollected | internal/app/collector.go:110-131 | On any schedule without failures that has come to rest every account, region and rule has got its slots, run and ended |
| SlotProgress.TakesIffOneIsLeft | internal/app/app.go:94 | A waiting goroutine gets its next slot iff fewer than 1, 4, 6 or 8 of that pool are held |
| SlotProgress.GroupsFollowOneAnother | internal/app/eds_refresh.go:182-208 | On every schedule the groups of goroutines that one goroutine starts follow one another: a started one found every earlier group done |
| SlotProgress.SchedulesAreBounded | internal/app/security_groups.go:244-297 | Every schedule keeps the invariant and is at most as long as the work there was |
| SlotProgress.BoundedAndDeadlockFree | internal/app/app.go:94 | At most 4 accounts, 6 regions and 8 rule reads per collection at a time and one holder per lease; a schedule that cannot go on has finished everything and returned every slot |
| SlotProgress.AtMostSoManyRun | internal/app/app.go:94 | On every schedule at most 4 accounts, 6 regions of all kinds, 8 rule reads of a collection and one account or service under a lease are running |
| Inventory.InstanceStore.ReconcileInventory | internal/app/collector.go:265-325 | The transaction's whole effect; an item without a region or a row written twice rolls it back |
| Inventory.InsertAll | internal/app/collector.go:302-315 | The upsert succeeds iff no two items are one row, and then applies all of them |
| Inventory.ReconcileRow | internal/app/collector.go:302-322 | What one reconciliation does to any row: supplied rows get the item and keep their id, stale ones go, others stay |
| Inventory.InstanceStore.CollectAccount | internal/app/collector.go:85-148 | An account is collected as a whole or region by region in any order; it is marked healthy iff everything worked, and success is returned iff that is recorded |
| Inventory.InstanceStore.CollectGlobal | internal/app/collector.go:214-243 | Azure and GCP: the items of the configured regions replace the whole account in one transaction, or nothing changes |
| Inventory.OnlyConfiguredRegionsStay | internal/app/collector.go:239-242 | After such a collection the ids stored are exactly those listed in the configured regions, or all listed when none is configured |
| Inventory.CollectRow | internal/app/collector.go:110-135 | For any order and any failures: rows of failed or unasked regions and other accounts stay, those of healthy regions are exactly the provider's, surviving rows keep their id |
| Inventory.CollectionIsConfluent | internal/app/collector.go:110-135 | Two orders of the same region results store the same rows |
| Inventory.WholeAccountStoresTheItems | internal/app/collector.go:316-317 | In whole-account mode the stored ids are the supplied ones, and the rows equal the items iff no surviving id changed region |
| Inventory.ErrorIsTheLast | internal/app/collector.go:138-147 | Over any collections an account is shown as failed iff its last recorded one did not work |
| Inventory.LastSyncIsTheLast | internal/app/collector.go:143-147 | Its last sync is the time of its last recorded collection that worked |
| Inventory.CollectedIdsAreUnique | internal/app/collector.go:302-315 | Whatever is collected, no two rows have the same id |
| SecurityGroups.SnapshotStore.CollectSecurityGroups | internal/app/security_groups.go:214-334 | Saved iff not cancelled, not failed everywhere and the write succeeds; then exactly the contributing groups and failed regions, in order, else nothing changes |
| SecurityGroups.FetchRegions | internal/app/security_groups.go:301-313 | The results gathered: healthy groups, failed regions, and whether all failed |
| SecurityGroups.ResolveRegion | internal/app/security_groups.go:266-296 | Filling rules in place gives each group its read rules, else its previous ones, else none |
| SecurityGroups.ResolvedIff | internal/app/security_groups.go:266-296 | A resolved group field by field: everything as listed, the rules as read or else as last stored |
| SecurityGroups.KeepFailedRegions | internal/app/security_groups.go:315-325 | Exactly the previous groups of failed regions, each once |
| SnapshotRuns.RefreshOnce | internal/app/security_groups.go:214-334 | One call is one step of the runs below |
| SecurityGroups.OrdersMean | internal/app/security_groups.go:326-332 | The stored groups stand by region and in one region by name, the failed regions by name |
| SnapshotRuns.ArrivalOrderDoesNotShow | internal/app/security_groups.go:301-333 | Whatever the order in which the regions answer, the same snapshot is stored, up to the order of groups of one name in one region |
| Ordering.SortedKeysAreUnique | internal/app/security_groups.go:326-332 | However a sort breaks ties, the keys of its result are determined |
| SnapshotRuns.LastHealthyWins | internal/app/security_groups.go:229-334 | Over any run the groups stored for a region are those of the last saved refresh in which it succeeded |
| SnapshotRuns.UnhealthyRegionIsKept | internal/app/security_groups.go:315-325 | Refreshes that fail in a region, fail everywhere or are cancelled leave its groups alone |
| SnapshotRuns.LastRulesWin | internal/app/security_groups.go:281-291 | A group's rules are those of the last successful read for as long as it stays listed or its region failed |
| SnapshotRuns.NeverReadRulesAreUnavailable | internal/app/security_groups.go:284-288 | A group whose rules were never read since it appeared has none and is marked so |
| SnapshotRuns.StoredRulesAreUnique | internal/app/snapshots.go:12-19 | A key stores one set of rules |
| SnapshotRuns.WhenARegionIsForgotten | internal/app/snapshots.go:21-37 | A region not read healthy keeps its groups through a saved refresh iff it failed and the previous snapshot could be read |
| Identity.StepKeepsInv | internal/app/admin.go:115-157 | Every statement of every concurrent request keeps rows, locks, seats, owners and tickets consistent |
| Identity.RunKeepsInv | internal/app/sso.go:718-789 | So does every run |
| Identity.CommitKeepsSeats | internal/app/sso.go:724-748 | A commit fills a seat that is still free, because the counted room is protected by the workspace's lock |
| IdentitySafety.SeatLimitHolds | internal/app/admin.go:115-137 | Over every interleaving of creations, JIT sign-ins, deletions and signups a workspace has at least one and at most `user_limit` members, and one admin owner |
| IdentitySafety.CreationsTakeTurns | internal/app/admin.go:121 | Two transactions past the lock are in different workspaces |
| IdentitySafety.OwnershipIsPermanent | internal/app/admin.go:144-184 | Whoever owns a workspace is its only owner and an admin after any run |
| IdentitySafety.CreationSucceedsIffThereIsRoom | internal/app/admin.go:120-137 | An undisturbed creation adds its member iff there was room, and otherwise nothing |
| IdentityRoles.CommittedRow | internal/app/sso.go:733-748 | A commit adds one row that owns nothing: with the role asked for, or an ordinary member after a first sign-in, which goes on with version 1 |
| IdentityRoles.FirstSignInSucceedsIff | internal/app/sso.go:718-775 | An undisturbed first sign-in adds an ordinary member and signs it in iff provisioning is on and there is room, and otherwise does nothing |
| IdentityRoles.KnownMemberSignsIn | internal/app/sso.go:728-731 | A known member's sign-in adds nobody and goes on with that member's current version |
| IdentityRoles.UpdatePassesIff | internal/app/admin.go:144-155 | An update passes iff it demotes neither the owner nor whoever asks |
| IdentityRoles.UpdatedRow | internal/app/admin.go:157 | An update writes role and version and nothing else, if its row is there and can be counted up |
| IdentityRoles.DeletedIff | internal/app/admin.go:174-184 | A deletion removes the member iff it is neither the owner nor whoever asks |
| IdentityRoles.RoleIsTheLastOneGiven | internal/app/admin.go:115-157 | On every run a member's role is the last one given by signing up, being added, a first sign-in or an update that took effect |
| IdentityRoles.EveryAdminWasMade | internal/app/sso.go:738-745 | On every run whoever is an admin signed up, was added as one or had an update to admin written; provisioning makes none |
| IdentityRoles.AtMostSixMembers | internal/app/migrations/002_workspaces.sql:6 | However many additions and first sign-ins race, a workspace has an owner and at most five others |
| IdentitySafety.RevocationIsPermanent | internal/app/auth.go:53-64 | A ticket read before an update or deletion of its user never authenticates after it, whenever its session is written |
| IdentitySafety.GoodUntilTouched | internal/app/auth.go:276-285 | A good ticket is good after a run iff no update took effect on its user and the user was not deleted |
| IdentityRoles.SignInAuthenticatesIff | internal/app/auth.go:276-285 | A sign-in that reads a member and writes its session later leaves one that authenticates iff nothing touched the member in between |
| IdentitySafety.ExhaustedVersionCannotBeRevokedByUpdate | internal/app/admin.go:157 | At the column's maximum the update fails and sessions stay good; below it they are revoked |
| SsoGrants.IdentityStore.FinishSignIn | internal/app/sso.go:759-765 | The grants after a sign-in; its inserts never meet the unique constraint |
| SsoGrants.IdentityStore.InsertMapped | internal/app/sso.go:761-765 | The selected mappings are inserted row by row without a conflict |
| SsoGrants.IdentityStore.SaveMapping | internal/app/sso.go:404-418 | The mapping is created or changed, its grants follow, its id is kept |
| SsoGrants.IdentityStore.DeleteMapping | internal/app/sso.go:438-464 | The mapping and the grants from it go, nothing else |
| SsoGrants.SavedMapping | internal/app/sso.go:404-418 | Saving a mapping gives it the role under its old id or a new one, its grants the role, and changes nothing else; or it changes nothing at all |
| SsoGrants.DeletedMapping | internal/app/sso.go:438-464 | Deleting a mapping by its id within its workspace deletes it and the grants that came from it, and nothing else |
| SsoGrants.StepKeepsMirror | internal/app/migrations/006_identity_providers.sql:34-60 | Every transaction, cascades included, keeps every grant mirrored by a mapping of the same role and all references in one workspace |
| SsoGrants.GrantsMirrorMappings | internal/app/sso.go:404-465 | So does every serial run |
| SsoGrants.SignInLeavesExactlyTheMapped | internal/app/sso.go:758-765 | A sign-in leaves exactly the mapped grants of that user and provider; other grants and manual memberships stay |
| SsoGrants.LastSignInCounts | internal/app/sso.go:758-765 | A second sign-in erases every trace of the first |
| SsoGrants.GrantsComeFromTheLastSignIn | internal/app/sso.go:411-455 | A grant exists iff the user's last sign-in claimed its mapped group and mapping and user have existed ever since |
| SsoGrants.SignInSeenByThePolicy | internal/app/migrations/006_identity_providers.sql:66-72 | In the joined view a sign-in changes only the user's memberships from that provider, to what the mappings say |
| SsoGrants.MembershipsStayInOneWorkspace | internal/app/migrations/006_identity_providers.sql:56-58 | Every effective membership joins a user and a team of one workspace |
| Reports.Overview | internal/app/reports.go:63-249 | Totals, both breakdowns and charge types are the sums over the counted lines; providers come in their fixed order and regions sorted; each breakdown adds up to the totals, the charge types to the desktops, and the desktops are the distinct named ones plus the blank ids |
| Reports.ReportIsDetermined | internal/app/reports.go:239-249 | The counted lines and the accounts determine the report, whatever order the maps are filled and read in |
| Reports.CountEverything | internal/app/reports.go:177-237 | The nested loops end with the right counters |
| Reports.Counters.Count | internal/app/reports.go:196-235 | One turn of the inner loop |
| Reports.Counters.CountSnapshots | internal/app/reports.go:177-237 | Replaced and undecodable snapshots are skipped, the others counted item by item |
| Reports.AccountsWithAll | internal/app/reports.go:153-164 | Exactly the accounts with an `all` snapshot of desktops |
| Reports.BreakdownsConserve | internal/app/reports.go:239-249 | Instances, desktops, buckets, bytes and objects each equal their sum over providers and over regions |
| Reports.ChargeTypesConserve | internal/app/reports.go:219-223 | The values of the report's charge-type map sum to its desktops |
| ReportSums.KeysAddUp | internal/app/reports.go:203-235 | Along any axis, distinct keys that include every counted one add up to everything classified |
| ReportSums.DesktopsAreCountedOnce | internal/app/reports.go:210-216 | The desktop total is the number of distinct non-blank (account, id) pairs plus the blank ids |
| ReportSums.InstancesAndBucketsAreCounted | internal/app/reports.go:224-234 | Instances, running instances and buckets are the numbers of their lines |
| ReportSums.StorageIsAddedUp | internal/app/reports.go:224-234 | The report's bytes and objects are those of the items of every readable bucket snapshot |
| ReportLines.LinesComeFromSelected | internal/app/reports.go:177-188 | The counted lines are those of the selected decodable snapshots |
| ReportLines.RegionIsTheFirstNamed | internal/app/reports.go:192-199 | An item is counted under the first of its region fields that is a string, under the snapshot's region if that is blank, and under `unknown` for none or `all` |
| ReportLines.LineOfItem | internal/app/reports.go:207-234 | Desktop id, charge type, bytes and objects of an item's line |
| ReportLines.AllReplacesRegional | internal/app/reports.go:162-180 | An account's `all` snapshot replaces its regional ones, even when it cannot be decoded |
| ReportTally.CountFromIsRight | internal/app/reports.go:172-237 | Counting any further lines keeps every counter equal to its sum |
| Calendar.DateOfDayNumber | internal/app/alibaba_billing.go:59 | Normalising a real date returns it |
| Calendar.DayNumbersAreUnique | internal/app/alibaba_billing.go:71 | Dates are told apart by their day numbers |
| BillingWindow.ParseOfFormat | internal/app/alibaba_billing.go:65 | Every writable month prints as a cycle the pattern accepts and reads back |
| BillingWindow.FormatOfParse | internal/app/alibaba_billing.go:21 | Every string the pattern accepts is the print of the month it reads as |
| BillingWindow.WindowIsExact | internal/app/alibaba_billing.go:61-72 | On every date a string is accepted iff it is one of the current month and the seventeen before it |
| BillingWindow.EighteenCycles | internal/app/alibaba_billing.go:71 | That is eighteen different strings |
| BillingWindow.OneMonthBack | internal/app/alibaba_billing.go:59 | One month back with day overflow: the previous month if it has the day, else the overflowed day of this one |
| BillingWindow.DefaultIsAccepted | internal/app/alibaba_billing.go:59-72 | The default cycle is always accepted |
| BillingWindow.DefaultIsPreviousMonthIff | internal/app/alibaba_billing.go:59 | It is the previous month iff that month has today's day, and otherwise the current one |
| BillingWindow.WhenTheDefaultIsTheCurrentMonth | internal/app/alibaba_billing.go:59 | The failing dates spelt out: the 31st of May, July, October and December, and the last days of March |

## Left out

- Reports.Overview: does not model the wrap-around of 64-bit sums, the two instance queries seeing different states, the counts by instance state, or the times of the latest data.
- SecurityGroups.SnapshotStore.CollectSecurityGroups: does not model a region name with a colon, which would merge two index keys.
- Inventory.InstanceStore.CollectAccount: takes the commit order of the regions as its input, and does not model the gaps that rolled-back inserts leave in the row id sequence.
- RefreshJobs.RefreshRunner.RunInventoryRefresh: is one run left alone; what others do in between is the claim machine's business.
- SlotProgress.SomeoneCanStep: leaves out the leases' expiry, which `Lease` models; here a lease is a pool with one slot.
- Selection.RequestedAccountIDs: trimming is a parameter, so every trimming function is covered.
- DirectoryRuns.RoleStore.SaveAccessRole: the patterns for key, name and description are one flag of the input.
- Capabilities.ValidRolePermissions: trimming and lower-casing are a parameter; idempotence asks that it leaves capability names alone.
- SsoGrants.GrantsMirrorMappings: covers serial runs of whole transactions; a mapping deleted while a sign-in reads it is not modelled.
- SsoGrants.IdentityStore.FinishSignIn: starts where the user of the identity is known; finding or provisioning that user is part of `Identity`.
- Identity.StepKeepsInv: leaves out names, e-mail addresses and passwords; whatever fails because of them is an abort. That adding, updating and deleting ask for an admin's session is left out too, which only adds runs.
- IdentitySafety.RevocationIsPermanent: sessions have no expiry in the model, which only makes more of them count.
- BillingWindow.EighteenCycles: is about the years that four digits can write, since the pattern accepts no others; `BillingWindow.WindowIsExact` covers every date.
- Lost replies and partitions of Redis and PostgreSQL, and isolation anomalies beyond the interleavings above.
- Provider clients, HTTP, JSON, cookies, audit records, logs, mail and report exports: input and output without an invariant.
- Cryptography and federation protocols: tokens are assumed unique and digests collision-free.
- Contents of the EDS and OSS collections: their claim and lease are modelled, their merging repeats the security-group pattern with less state.
- Billing synchronisation and totals: row replacement per account and month, and floating-point sums.
- Listing the effective roles per account for the access page, `sameStrings`, `mergeAccountIDs` and `CanGroup`: easy members.
- Input validators, username search, the legacy import command, the migration runner and the web front end.
