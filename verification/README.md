# Verified models of the data migrations and operational scripts

This project models the parts of the repository that change shared data under crashes, re-runs and concurrency: data
migrations, the scripts that act on the live database, and the message queue. It proves what they are for. Each `.dfy`
file is one component, and its head comment says what is abstracted. `dafny verify dfyconfig.toml` checks everything.

| files | what they model |
|---|---|
| `OnlineMigration`, `MigrationSession` | migration 0080: non-atomic, crash-restartable, under concurrent writers |
| `CheckpointBackfill` | migration 0081: the tenant bridge through the trace table |
| `RowSecurity`, `TenantIsolation`, `StatementEffects`, `RlsMigration` | migrations 0078 and 0082: an evaluator for privileges and row policies, non-interference under it, what each statement does row by row, and the loops that install it |
| `ParentChildVisibility` | where 0080 and 0082 meet: what the migration leaves is what the policies rely on |
| `MessageQueue` | the per-thread message queue: claims with leases, heartbeats, fencing by attempt |
| `SmokeProtocol`, `FkElimination` | the onboarding smoke: locks, ownership proof and destruction as an interleaved state machine; the deletion loop over an unknown foreign-key graph |
| `InboundDedup` | migration 0048: duplicate collapse, repointing, archive |
| `HealthMonitor`, `TraceParser` | the alert state machine over whole runs; the trace-log parser against a grammar |
| `CursorBackfill` | the keyset-cursor hash backfill |
| `SubscriptionChain` | migrations 0041, 0042, 0063 in sequence |
| `EncryptionRewrite` | migration 0029: encrypting rewrite and its inverse |
| `IdentityResolve` | `sreda_resolve_external_identity`, version 1 and version 2 |
| `ShadowAudit` | the policy audit of the shadow report |
| `Options`, `Ordering` | nullable columns; the least id |

Code that changes state is a class whose methods update its fields and are tied to specification functions or
relations; what the migrations promise is proved about those. Crashes and concurrent statements are nondeterministic
choices inside the methods, or steps of a transition system. The fixed table, pair and probe lists are parameters.

Where code and intent differ, the model follows the code. A lemma states exactly when the intent holds, and a concrete
input shows that it can fail:

- A change for the worse that falls into the cooldown is never alerted later, however long the outage lasts: exactly
  when an alert of the probe was recent as it began (`HealthMonitor.LastingOutageIsSilentWhenRecent`,
  `HealthMonitor.OutageAfterAWarningIsSilent`).
- The deletion loop removes every matched row exactly when its ten passes have a timetable
  (`FkElimination.Database.Eliminate`, `FkElimination.ExactlyThePlannedGraphsGo`); given enough passes, exactly when the
  graph is layered (`FkElimination.ExactlyTheLayeredGraphsGo`). A cycle stays, and a clean result hides it when it holds
  no key to the tenant (`FkElimination.CleanCanHideACycle`); ten passes do not finish a chain of eleven tables
  (`FkElimination.ChainLosesOneLinkPerPass`).
- At most one live lease per thread holds exactly as long as no heartbeat extends a lease that has run out while another
  job of the thread has a live one (`MessageQueue.OneLeasePerThread`). The heartbeat statement does not look at the lease,
  and a run from the empty queue does it (`MessageQueue.TwoLeasesOnOneThread`).
- No job of the queue is attempted more often than the limit exactly as long as no claim takes over a last attempt whose
  lease ran out (`MessageQueue.AttemptLimit`). Only reported failures are counted against it
  (`MessageQueue.DeadLetterNeedsAMark`): a message that takes its worker down is claimed again without end
  (`MessageQueue.CrashLoopNeverEnds`, `MessageQueue.FourCrashesPassTheLimit`).
- Re-running 0048 after a downgrade fails exactly when new duplicates have come in while the archive of the first run is
  still there (`InboundDedup.Inbox.Upgrade`, `InboundDedup.ArchiveBlocksTheSecondUpgrade`).
- An insert under an id that is taken tells a session that somebody else uses it, and only then
  (`TenantIsolation.CollidingIdIsVisible`, `RlsMigration.TakenIdIsNoticed`).
- A cascade stays within the tenant exactly when all the children it takes are the tenant's, which the composite keys
  guarantee (`TenantIsolation.CascadeIsLocalExactly`); without them it can cross
  (`TenantIsolation.CascadeNeedsCompositeKey`).
- The hash backfill starts its cursor at the empty string and skips a row with that id
  (`CursorBackfill.BackfillUntilDone`, `CursorBackfill.EmptyIdIsSkipped`).
- Feature keys match plans after 0041 exactly when nothing is granted or a grandfathered plan that was there before is a
  housewife plan (`SubscriptionChain.FeaturesMatchAfter0041`, `SubscriptionChain.GrantCanBreakFeatures`), after 0063 exactly when nothing is moved or both plans
  have the same feature (`SubscriptionChain.MergeKeepsFeatures`, `SubscriptionChain.MergeCanBreakFeatures`), and after
  the whole chain under the condition that `SubscriptionChain.RunChain` states.
- A plaintext that happens to start with `v1:` or `v2:` is not encrypted by 0029, and the downgrade succeeds exactly
  when every such value decrypts (`EncryptionRewrite.RestoringARewrite`, `EncryptionRewrite.NoteBlocksTheDowngrade`).

## Model

| member | source | states |
|---|---|---|
| OnlineMigration.MigratedIgnoresHistory | migrations/versions/20260709_0080_denorm_children_tenant_id.py:137-209 | two databases with the same application rows migrate to the same complete database, whatever leftovers earlier attempts left; a complete database is already its own result |
| OnlineMigration.OriginalIgnoresHistory | migrations/versions/20260709_0080_denorm_children_tenant_id.py:212-235 | the rollback result depends on the application rows only, is pristine, and a pristine database is its own result |
| OnlineMigration.WritePairKeeps | migrations/versions/20260709_0080_denorm_children_tenant_id.py:182-193 | every constraint-respecting insert, update and delete on a pair, cascades included, keeps the phase of its migration: before it no tenant is set, after it every child agrees with its parent |
| OnlineMigration.WriterKeepsRecoverable | migrations/versions/20260709_0080_denorm_children_tenant_id.py:154-203 | no concurrent writer takes the committed database out of the recoverable states or changes the catalog |
| OnlineMigration.WritersGetWhatTheyAsk | migrations/versions/20260709_0080_denorm_children_tenant_id.py:179-193 | a writer of a pair gets what it asks for exactly when no constraint forbids the outcome, the NOT VALID keys included, and otherwise changes nothing |
| OnlineMigration.TenantsComeAndGo | migrations/versions/20260709_0080_denorm_children_tenant_id.py:182-193 | a tenant is deleted exactly while no parent and no keyed child has it |
| MigrationSession.BackfillAgrees | migrations/versions/20260709_0080_denorm_children_tenant_id.py:170-177 | the backfill makes every child agree with its parent exactly when no value already there disagrees, overwrites nothing, changes no other column, and is a no-op once all agree |
| MigrationSession.ServerAnswers | migrations/versions/20260709_0080_denorm_children_tenant_id.py:161-235 | every statement of the migration is executed exactly when it applies and its outcome breaks no promise of the catalog (NOT NULL, validated keys, valid indexes under constraints and keys); a refusal has a reason and success describes a possible state |
| MigrationSession.LeftoverBlocksWithoutTheGuard | migrations/versions/20260709_0080_denorm_children_tenant_id.py:124-134 | the INVALID index of a cut-off build is skipped by the next CREATE and cannot become the constraint; dropped first, it can be built and can |
| MigrationSession.AllowedStays | migrations/versions/20260709_0080_denorm_children_tenant_id.py:124-134 | an autocommitted statement in its guarded state is never refused, and finished or cut off with an INVALID index behind it stays within the pair's phase and undoes nothing complete |
| MigrationSession.Session.Execute | migrations/versions/20260709_0080_denorm_children_tenant_id.py:161-193 | a statement of the open transaction either takes effect in the working view or rolls everything back to the last commit |
| MigrationSession.Session.Autocommit | migrations/versions/20260709_0080_denorm_children_tenant_id.py:131-134 | a statement of an autocommit block is committed, refused, or cut off leaving at most its index INVALID |
| MigrationSession.Session.Commit | migrations/env.py:80-89 | the outer transaction becomes visible as a whole or not at all |
| MigrationSession.Session.EnsureUnique | migrations/versions/20260709_0080_denorm_children_tenant_id.py:154-164 | UNIQUE USING INDEX never meets a missing or INVALID index, from whatever state an earlier run left the index in |
| MigrationSession.Session.AddColumnAndKeys | migrations/versions/20260709_0080_denorm_children_tenant_id.py:166-193 | SET NOT NULL never meets a NULL; column, backfill, NOT NULL and both NOT VALID keys reach commit together |
| MigrationSession.Session.ValidateKeys | migrations/versions/20260709_0080_denorm_children_tenant_id.py:195-203 | VALIDATE never fails, with writers between the commit points |
| MigrationSession.Session.CreateChildIndexConcurrently | migrations/versions/20260709_0080_denorm_children_tenant_id.py:204-209 | the policy index ends valid from absent, INVALID or valid |
| MigrationSession.Session.Upgrade | migrations/versions/20260709_0080_denorm_children_tenant_id.py:137-209 | never refused; cut off anywhere, with writers in between, it leaves a recoverable database and loses nothing finished; completed, every index is valid, every key validated, the column NOT NULL and equal to the parent's tenant; on a migrated database it changes nothing |
| MigrationSession.Session.DropObjects | migrations/versions/20260709_0080_denorm_children_tenant_id.py:221-235 | no drop in the source's order is blocked by a dependent object, and together they leave no trace |
| MigrationSession.Session.Downgrade | migrations/versions/20260709_0080_denorm_children_tenant_id.py:212-235 | from any recoverable state: never refused, no removed object returns, completed it is pristine with the original rows |
| MigrationSession.ConvergesAfterAnyHistory | migrations/versions/20260709_0080_denorm_children_tenant_id.py:124-209 | any sequence of upgrades and downgrades, each cut off anywhere, followed by one uninterrupted upgrade gives the migrated form of the original rows |
| MigrationSession.RollsBackFromAnyHistory | migrations/versions/20260709_0080_denorm_children_tenant_id.py:212-235 | the same history followed by one uninterrupted downgrade restores the original schema and rows |
| MigrationSession.CompletesUnderWriters | migrations/versions/20260709_0080_denorm_children_tenant_id.py:154-203 | under concurrent writers any number of cut-off attempts is never refused, and the first that is not cut off completes |
| CheckpointBackfill.CollectTenantByBase | migrations/versions/20260709_0081_checkpoint_tenant_backfill.py:72-87 | refused exactly when some base has two tenants, naming exactly those bases; otherwise the map is exactly the relation the trace states |
| CheckpointBackfill.PointUpdateExtends | migrations/versions/20260709_0081_checkpoint_tenant_backfill.py:162-165 | one more base extends the join by exactly its own NULL rows, given an injective derivation |
| CheckpointBackfill.JoinIsAFunction | migrations/versions/20260709_0081_checkpoint_tenant_backfill.py:162-165 | the join determines both tables, so the dictionary order of the point updates does not matter |
| CheckpointBackfill.JoinIsIdempotent | migrations/versions/20260709_0081_checkpoint_tenant_backfill.py:162-165 | running the backfill on its own result changes nothing |
| CheckpointBackfill.Checkpoints.Backfill | migrations/versions/20260709_0081_checkpoint_tenant_backfill.py:123-165 | without a secret, or otherwise with an ambiguous base, nothing is written, and the error says which; otherwise both tables are the join of their old rows with the trace: NULL rows of a known base get its tenant, orphans stay NULL, set values stay |
| RowSecurity.ExecKeepsIntact | migrations/versions/20260709_0080_denorm_children_tenant_id.py:182-193 | no statement of any role, cascades included, separates a child from a parent of the same tenant |
| TenantIsolation.AppUsing | migrations/versions/20260709_0082_enable_rls_policies.py:139-157 | under the installed policies the application reads and targets exactly its own rows, and its root row for reading only |
| TenantIsolation.AppCheck | migrations/versions/20260709_0082_enable_rls_policies.py:142-150 | it may write exactly rows of its own tenant outside the root table |
| TenantIsolation.CascadeIsLocal | migrations/versions/20260709_0080_denorm_children_tenant_id.py:182-188 | a cascade, which consults no policy, deletes inside the acting tenant's slice only and as it would on that slice alone |
| TenantIsolation.NothingTorn | migrations/versions/20260709_0080_denorm_children_tenant_id.py:182-193 | an update that keeps the tenant of its targets tears no child from its parent |
| TenantIsolation.UpdateIsLocal | scripts/verify_138_isolation.py:158-167 | an UPDATE answers and acts as on the tenant's slice and leaves every other row alone |
| TenantIsolation.DeleteIsLocal | scripts/verify_138_isolation.py:169-179 | a DELETE answers and acts as on the tenant's slice and leaves every other row alone |
| TenantIsolation.InsertIsLocal | scripts/verify_138_isolation.py:180-211 | an INSERT answers and acts as on the tenant's slice and leaves every other row alone |
| TenantIsolation.StatementIsLocal | migrations/versions/20260709_0082_enable_rls_policies.py:139-157 | every statement of an application session has the effect and the answer it would have on its own slice |
| TenantIsolation.NoContextFailsClosed | scripts/verify_138_isolation.py:126-131 | without a context nothing is visible, nothing changes and nothing is affected |
| StatementEffects.DeniedWithoutPrivilege | migrations/versions/20260706_0078_rls_roles_grants.py:67-91 | on an existing table a statement is denied exactly when a privilege is missing (for UPDATE and DELETE also SELECT), for every role and context, and then changes nothing |
| StatementEffects.ReadNeedsPrivilege | migrations/versions/20260706_0078_rls_roles_grants.py:67-91 | reading answers with exactly the tables that the role may SELECT from |
| StatementEffects.PoliciesDenyByDefault | migrations/versions/20260709_0082_enable_rls_policies.py:126-150 | under row security a role to which no policy of the table applies sees and writes none of its rows |
| StatementEffects.WrittenRowsAreChecked | migrations/versions/20260709_0082_enable_rls_policies.py:139-150 | a granted INSERT or UPDATE is a policy violation exactly when a row it would write fails WITH CHECK or, updated, would become unreadable to its session |
| StatementEffects.ClosedInEveryRun | migrations/versions/20260706_0078_rls_roles_grants.py:67-91 | no run of statements of a role changes a table that the role has no privilege on and no cascade can reach |
| StatementEffects.ReadShowsOwnRows | scripts/verify_138_isolation.py:111-131 | an application session sees exactly its own rows of a tenant table, as stored, and its own root row; without a context nothing |
| StatementEffects.InsertAddsTheRow | scripts/verify_138_isolation.py:180-211 | a row of another tenant is refused by the policy, a taken id or a parent of another tenant by a constraint; otherwise that one row is added |
| StatementEffects.DeleteTakesTheChosen | scripts/verify_138_isolation.py:169-179 | a DELETE takes exactly the own rows it selects and their cascading children, or is refused exactly while a key without cascade holds one of them |
| StatementEffects.UpdateChangesTheChosen | scripts/verify_138_isolation.py:158-167 | an UPDATE changes exactly the own rows it selects, as the statement says, and is refused by the policy exactly when one of them would leave the session |
| StatementEffects.UpdateIsRefusedForAParent | migrations/versions/20260709_0080_denorm_children_tenant_id.py:182-193 | otherwise it is refused exactly when a changed row would have no parent of its tenant |
| ParentChildVisibility.MigratedIsIntact | migrations/versions/20260709_0080_denorm_children_tenant_id.py:182-209 | a completed migration, read as tables, has established exactly the referential integrity the isolation theorems assume |
| ParentChildVisibility.SeenTogetherInEveryRun | migrations/versions/20260709_0082_enable_rls_policies.py:139-150 | from a migrated database on, after any statements of any roles, every child has a parent of its own tenant, and a session granted both tables sees the child exactly when it sees that parent, which is exactly when it owns it |
| TenantIsolation.MaintenanceSeesAll | migrations/versions/20260709_0082_enable_rls_policies.py:147-176 | maintenance passes every policy; identity reads nothing and may only insert into the bundle and the root table |
| TenantIsolation.CollidingIdIsVisible | scripts/verify_138_isolation.py:180-211 | an otherwise acceptable insert tells the shared database from the slice exactly when its id is taken by a row of somebody else |
| RlsMigration.TakenIdIsNoticed | scripts/verify_138_isolation.py:180-211 | under the installed grants and policies, an insert that is refused on the shared database and would go through alone |
| TenantIsolation.CascadeIsLocalExactly | migrations/versions/20260709_0080_denorm_children_tenant_id.py:179-188 | with any keys, a cascade from own rows leaves everybody else's alone exactly when every child it takes is the session's |
| TenantIsolation.CascadeNeedsCompositeKey | migrations/versions/20260709_0080_denorm_children_tenant_id.py:179-188 | a concrete database on which a cascade over the single-column key deletes another tenant's row |
| TenantIsolation.SettingsKept | migrations/versions/20260709_0082_enable_rls_policies.py:139-157 | the hypotheses of isolation hold again after every statement of every tenant |
| TenantIsolation.SharedLooksPrivate | migrations/versions/20260709_0082_enable_rls_policies.py:139-157 | in any interleaving of adaptive sessions each tenant is answered as if alone on a database of its own rows, and its rows end up as there |
| TenantIsolation.NonInterference | migrations/versions/20260709_0082_enable_rls_policies.py:139-157 | databases that agree on a tenant's rows cannot be told apart by that tenant, whatever the other tenants do |
| TenantIsolation.BystandersUntouched | migrations/versions/20260709_0082_enable_rls_policies.py:139-157 | rows without a tenant, the root table and rows of tenants that never act survive every run unchanged |
| RlsMigration.Catalog.GrantRoles | migrations/versions/20260706_0078_rls_roles_grants.py:67-91 | who holds which privilege afterwards, for every role, table and command |
| RlsMigration.AdminTablesAreClosed | migrations/versions/20260706_0078_rls_roles_grants.py:74-85 | after the grants no application statement, in any run and under any context, sees or changes an admin table, and every one on it is denied |
| RlsMigration.Catalog.Upgrade | migrations/versions/20260709_0082_enable_rls_policies.py:126-176 | it fails exactly when one of its policies exists already or a list repeats a table, and then changes nothing; otherwise it adds exactly its policies, and on a clean catalog leaves what the isolation theorems assume |
| RlsMigration.Catalog.Downgrade | migrations/versions/20260709_0082_enable_rls_policies.py:178-199 | it removes exactly what the upgrade installs |
| SmokeProtocol.StepKeepsSafe | scripts/onboard_smoke.py:209-365 | every step of every smoke run and of real traffic keeps the invariant: the advisory and row locks agree with the program counters, and a proof read under the lock stays true while it is held |
| SmokeProtocol.StepKeepsForeign | scripts/onboard_smoke.py:266-274 | no step deletes or alters a committed message with a NULL or non-negative update id |
| SmokeProtocol.RealTenantKeepsItsName | scripts/onboard_smoke.py:223-233 | from the moment a tenant has a committed real message, no interleaving of smoke runs renames or deletes it |
| SmokeProtocol.RealMessagesSurvive | scripts/onboard_smoke.py:236-365 | from any start, in every interleaving of any number of runs with real traffic, a real message once committed is there, unchanged, ever after, and so is its tenant |
| SmokeProtocol.ReachableIsSafe | scripts/onboard_smoke.py:209-365 | the invariant holds in every state any interleaving reaches |
| SmokeProtocol.RealInsertsLand | scripts/onboard_smoke.py:240-243 | in every interleaving a real insert that has begun keeps its tenant, and its commit stores its message |
| SmokeProtocol.OneRunAtATime | scripts/onboard_smoke.py:384-398 | in every interleaving two runs are never at work together |
| SmokeProtocol.ExitZeroIsHonest | scripts/onboard_smoke.py:520-539 | in every interleaving a run that reaches exit code 0 has passed the onboarding, and tenant and messages are gone at that moment |
| SmokeProtocol.ProofRefusalTouchesNothing | scripts/onboard_smoke.py:270-274 | in every interleaving a run that finds real activity under its lock ends with a non-zero code and changes no row |
| SmokeProtocol.PreflightDecides | scripts/onboard_smoke.py:443-457 | no tenant: on to onboarding; a marked one: to its cleanup; any other: the run ends with code 2; no row is changed |
| SmokeProtocol.LeavingReady | scripts/onboard_smoke.py:443-457 | whatever step comes, a run gets past its preflight only with no tenant or a marked one, or ends with code 1 or 2 |
| SmokeProtocol.OutsideTenantIsLeftAlone | scripts/onboard_smoke.py:443-448 | a tenant that no run has marked, with messages or without, keeps its name and messages in every interleaving of runs that find it there |
| SmokeProtocol.WhoseMessage | scripts/onboard_smoke.py:163-180 | a message is real exactly when its update id is NULL or does not start with a minus sign |
| SmokeProtocol.SecondRunIsRefused | scripts/onboard_smoke.py:384-398 | while one run is at work another ends with code 2 and the lock stays where it is |
| SmokeProtocol.RealTrafficPasses | scripts/onboard_smoke.py:240-243 | a real insert begins whenever its tenant is there and not locked and its id is new, so nothing but the row lock stops it |
| SmokeProtocol.OnboardingDecides | scripts/onboard_smoke.py:460-494 | how /start goes on: marking only for a created tenant, a failure noted for anything but a created tenant with the right subscription |
| SmokeProtocol.MarkingIsRefused | scripts/onboard_smoke.py:219-226 | a tenant that has vanished or has a real message is not marked, and the run ends with code 2 |
| SmokeProtocol.CleanupTakes | scripts/onboard_smoke.py:276-365 | cleanup deletes all messages but those it cannot, and the tenant exactly when nothing keyed is left |
| SmokeProtocol.LeftoversMustGo | scripts/onboard_smoke.py:449-454 | the cleanup before onboarding goes on exactly when tenant and signup traces are gone, and ends the run with code 2 otherwise |
| SmokeProtocol.CleanupDecidesTheCode | scripts/onboard_smoke.py:520-539 | the final cleanup exits with 1 exactly after a failed onboarding, with 2 exactly after a good one that leaves something, otherwise with 0 |
| SmokeProtocol.ExitZeroIsEarned | scripts/onboard_smoke.py:460-539 | in every interleaving a run that has ended with code 0 had its /start create the tenant with the right subscription and an assessable, good first turn |
| SmokeProtocol.GoodRunEndsWell | scripts/onboard_smoke.py:436-539 | from no tenant an undisturbed run whose steps succeed marks its own tenant and ends with code 0, tenant and messages gone |
| FkElimination.PassClearsNextLevel | scripts/onboard_smoke.py:306-328 | with all statements below level k already empty, one pass in any statement order empties level k |
| FkElimination.PassesClearLevels | scripts/onboard_smoke.py:306-328 | after n passes every statement of level below n has nothing left |
| FkElimination.NoProgressMeansEmpty | scripts/onboard_smoke.py:327-328 | on a layered graph a pass without progress means that nothing is left at any level |
| FkElimination.ChainLosesOneLinkPerPass | scripts/onboard_smoke.py:306-328 | the bound is tight: parents first, a chain of n tables loses one table per pass |
| FkElimination.Database.Delete | scripts/onboard_smoke.py:309-315 | one savepointed DELETE takes all it matches or, while something left refers to it, nothing |
| FkElimination.ExactlyTheLayeredGraphsGo | scripts/onboard_smoke.py:306-328 | some number of passes leaves no matched row exactly when the graph is layered, and then as many passes as there are rows do |
| FkElimination.ExactlyThePlannedGraphsGo | scripts/onboard_smoke.py:306-328 | n passes leave no matched row exactly when their statements have a timetable: every matched row a statement that takes it, before whose turn all outside references to what it still takes have gone |
| FkElimination.Database.Eliminate | scripts/onboard_smoke.py:306-328 | the rows left are those that ten passes leave; only matched rows go, all of them exactly when ten passes have a timetable, which layered graphs of at most ten levels do; after an early stop exactly when the graph was layered |
| FkElimination.Database.RemoveTenant | scripts/onboard_smoke.py:306-365 | clean exactly when no row with a blocking key to the tenant is left; of the matched rows nothing is left exactly when ten passes have a timetable |
| FkElimination.CleanCanHideACycle | scripts/onboard_smoke.py:306-328 | two rows that refer to each other survive any number of passes |
| InboundDedup.KeptIsTheLeastOfItsGroup | migrations/versions/20260603_0048_inbound_dedup_composite_key.py:85-94 | of every group of equal non-NULL keys exactly the least id is kept, and every row with a NULL in its key is |
| InboundDedup.CollapseIsExact | migrations/versions/20260603_0048_inbound_dedup_composite_key.py:96-140 | the key is unique afterwards, old rows are the disjoint union of kept and archived, a second collapse finds nothing, and there is something to archive exactly when the key was not unique |
| InboundDedup.RepointKeepsReferences | migrations/versions/20260603_0048_inbound_dedup_composite_key.py:108-133 | every reference has a target among the kept rows, in its own group; references to kept rows and NULLs stay |
| InboundDedup.Inbox.DeleteDoomed | migrations/versions/20260603_0048_inbound_dedup_composite_key.py:137-140 | every deleted row leaves a row with its key and a smaller id behind; afterwards the key is unique and no reference has lost its row |
| InboundDedup.Inbox.Dedup | migrations/versions/20260603_0048_inbound_dedup_composite_key.py:47-140 | fails exactly when there are duplicates and an archive is already there; on unique keys it is a no-op |
| InboundDedup.Inbox.Upgrade | migrations/versions/20260603_0048_inbound_dedup_composite_key.py:143-188 | succeeds exactly when there is no index yet and no clash with an old archive. Then every row is as it was, save that a NULL bot becomes "sreda"; a row goes exactly if an older one has its channel, update id and bot, NULL counting as "sreda"; references move to the row that stayed of the same message, the archive holds what went, and the key is unique. Rows that all have a bot and no copy stay untouched, and so does everything on a failure |
| InboundDedup.ArchiveBlocksTheSecondUpgrade | migrations/versions/20260603_0048_inbound_dedup_composite_key.py:191-196 | upgrade on two equal messages, downgrade, one new duplicate: the second upgrade is refused |
| InboundDedup.BotsAreKeptApart | migrations/versions/20260603_0048_inbound_dedup_composite_key.py:172-175 | two bots with the same update id: neither message is collapsed |
| HealthMonitor.Monitor.Handle | scripts/monitor_health.py:1023-1060 | one probe result updates the state and sends what the transition function says, an unreadable saved time not suppressing |
| HealthMonitor.Monitor.RunProbes | scripts/monitor_health.py:1012-1062 | a run is the fold of its results over the saved state |
| HealthMonitor.OneResult | scripts/monitor_health.py:1023-1060 | one result: status and message are taken over, the state dates from the change, and one alert with the new status is sent unless the status stays or a new alert falls within 900 seconds of a readable last one; only a new alert moves the record |
| HealthMonitor.RunsCompose | scripts/monitor_health.py:1014-1062 | runs with the state saved in between are one long run, in state and in alerts |
| HealthMonitor.ProbesAreIndependent | scripts/monitor_health.py:1017-1060 | a probe's state and alerts are those of a monitor given its results only |
| HealthMonitor.StateRemembersLastAlert | scripts/monitor_health.py:1037-1050 | the saved time is that of the last alert raised, over any run |
| HealthMonitor.AlertsAreSpaced | scripts/monitor_health.py:1027-1035 | with a forward clock and intact state, alerts i and j of a probe are at least j - i cooldowns apart |
| HealthMonitor.AlertsPerWindow | scripts/monitor_health.py:1027-1035 | a window of W holds at most W / 15 minutes + 1 alerts of a probe |
| HealthMonitor.TransitionAlertedUnlessRecent | scripts/monitor_health.py:1026-1050 | a change for the worse goes unalerted exactly when an alert of that probe lies less than the cooldown back |
| HealthMonitor.RecoveryIsAlwaysSent | scripts/monitor_health.py:1026-1041 | every return to ok sends exactly one recovery |
| HealthMonitor.LastingOutageIsSilentWhenRecent | scripts/monitor_health.py:1026-1060 | an outage that lasts, whatever other probes report meanwhile, is never alerted exactly when an alert of its probe was less than the cooldown old as it began |
| HealthMonitor.OutageAfterAWarningIsSilent | scripts/monitor_health.py:1026-1060 | a warning, a recovery and an outage one tick later: the outage is never reported, however often it is seen |
| TraceParser.RecentTraces | scripts/monitor_health.py:698-762 | the one-pass parser returns exactly the blocks of the grammar, none older than the cutoff |
| TraceParser.HeaderBeforeIsLast | scripts/monitor_health.py:720-727 | the open block's header is the last good header with no other boundary since |
| TraceParser.TailFindsASuffix | scripts/monitor_health.py:711-718 | reading any tail of the log, cut in mid-line or not, finds a suffix of what the whole log holds |
| TraceParser.ParsePrintRoundTrip | scripts/monitor_health.py:698-703 | parsing printed blocks gives back what every recent block says, in order |
| CursorBackfill.SelectBatch | scripts/backfill_normalized_title_hash.py:161-171 | the batch is the least pending ids behind the cursor, in order, and short only when no more are pending |
| CursorBackfill.Table.RunBatch | scripts/backfill_normalized_title_hash.py:175-198 | each row of the batch gets its own hash or, with an empty one, stays; the counters add up; a dry run writes nothing |
| CursorBackfill.CountIsTheNumber | scripts/backfill_normalized_title_hash.py:175-198 | the filled counter is the number of visited rows that hash to something |
| CursorBackfill.Table.BackfillTable | scripts/backfill_normalized_title_hash.py:130-213 | under concurrent inserts: no row twice, cursor increasing, filled + skipped = scanned, dry runs change nothing; a run that is not cut off finishes the table |
| CursorBackfill.AttemptsCompose | scripts/backfill_normalized_title_hash.py:151-213 | attempts one after the other reach as far as the further one |
| CursorBackfill.FinishedIsStable | scripts/backfill_normalized_title_hash.py:161-198 | on a finished table another run changes nothing |
| CursorBackfill.BackfillUntilDone | scripts/backfill_normalized_title_hash.py:151-213 | any number of crashed attempts with any batch sizes and one full run equal the simple map: every initially NULL row with non-empty id and hash has its own hash, everything else is as it was |
| CursorBackfill.EmptyIdIsSkipped | scripts/backfill_normalized_title_hash.py:151-171 | a row whose id is the empty string keeps its NULL |
| SubscriptionChain.TwoPlansKeeps | migrations/versions/20260507_0041_subscription_quotas.py:216-245 | the plan inserts fail exactly when a plan id is taken under another key; otherwise old plans stay and both keys exist |
| SubscriptionChain.GrantsAreSound | migrations/versions/20260507_0041_subscription_quotas.py:308-331 | step 10 keeps every reference, doubles no active subscription, and leaves every approved tenant entitled |
| SubscriptionChain.Billing.GrantMissing | migrations/versions/20260507_0041_subscription_quotas.py:296-331 | in any order, exactly the approved tenants without an active housewife subscription get one grandfathered one each |
| SubscriptionChain.Billing.Upgrade0041 | migrations/versions/20260507_0041_subscription_quotas.py:159-331 | refused exactly for a row left without feature key or a taken plan id, changing nothing. Otherwise an empty feature key becomes the plan's; a row gains the flag exactly if it is an unflagged active housewife subscription of an approved tenant, and is otherwise as it was; the two plans are added where their keys were free; new rows are flagged housewife subscriptions of approved tenants that had none; every approved tenant is entitled |
| SubscriptionChain.PendingUntouched | migrations/versions/20260507_0041_subscription_quotas.py:267-331 | a pending tenant's subscriptions gain their feature key and nothing else, and it gets none |
| SubscriptionChain.FeaturesMatchAfter0041 | migrations/versions/20260507_0041_subscription_quotas.py:159-331 | every subscription's feature key equals its plan's exactly when those already set did, and either nothing is granted or an existing grandfathered plan is a housewife plan |
| SubscriptionChain.GrantCanBreakFeatures | migrations/versions/20260507_0041_subscription_quotas.py:231-245 | a database on which 0041 runs through and grants a plan of another feature |
| SubscriptionChain.Billing.Upgrade0042 | migrations/versions/20260507_0042_active_sub_unique.py:39-85 | refused exactly while two active subscriptions share tenant and feature, or when the index exists already |
| SubscriptionChain.Billing.DropPlanIfUnreferenced | migrations/versions/20260622_0063_merge_housewife_free_plans.py:42-69 | no reference dangles; the plan stays exactly while it is referenced, and then retired; no other plan changes |
| SubscriptionChain.Billing.Upgrade0063 | migrations/versions/20260622_0063_merge_housewife_free_plans.py:72-116 | every subscription active on the base plan is on the free plan, with its old flag or, if it had none, flagged now; every other subscription is exactly as it was; the two old plans stay, retired, exactly while something refers to them, and other plans are as they were. Refused exactly for two active housewife subscriptions of a tenant, which the 0042 index excludes, or without a free plan to move to, and then nothing changes |
| SubscriptionChain.MergedRows | migrations/versions/20260622_0063_merge_housewife_free_plans.py:102-112 | the merge puts exactly the active base subscriptions on the free plan and flags those without a flag; it loses no grandfathering, no entitlement and no subscription, and keeps single-active both ways |
| SubscriptionChain.MergesDecides | migrations/versions/20260622_0063_merge_housewife_free_plans.py:101-116 | what the upgrade promises of rows and plans leaves one result |
| SubscriptionChain.MergeIsIdempotent | migrations/versions/20260622_0063_merge_housewife_free_plans.py:72-116 | a second merge changes nothing and does not fail |
| SubscriptionChain.MergeKeepsFeatures | migrations/versions/20260622_0063_merge_housewife_free_plans.py:72-116 | at the end of 0063 feature keys match plans exactly when nothing was moved or both plans have the same feature |
| SubscriptionChain.MergeCanBreakFeatures | migrations/versions/20260622_0063_merge_housewife_free_plans.py:102-112 | a sound database on which they no longer match |
| SubscriptionChain.RunChain | migrations/versions/20260507_0041_subscription_quotas.py:159-331 | 0041, 0042 and 0063 in order: completed, every approved tenant is entitled under the index, no old subscription lost anything, and feature keys match plans exactly when moves and grants go to plans of the right feature; refused as duplicate exactly for duplicates that were there before |
| MessageQueue.RunKeepsValid | src/sreda/db/models/message_jobs.py:94-119 | in every run the dedup key stays unique and status and times satisfy the table's CHECK |
| MessageQueue.SpentForever | src/sreda/workers/message_queue.py:299-456 | once an attempt has been marked or superseded, no heartbeat and no mark of it takes effect, ever after and whatever happens in between |
| MessageQueue.AttemptEnds | src/sreda/workers/message_queue.py:345-456 | an attempt is ended by a landing mark or a later claim, and by nothing else |
| MessageQueue.TerminalForever | src/sreda/workers/message_queue.py:345-456 | a done or dead-lettered job never changes again |
| MessageQueue.ClaimFollowsTheOrder | src/sreda/workers/message_queue.py:150-158 | a claim takes the oldest open job of its thread: everything enqueued there before it is finished |
| MessageQueue.ClaimFindsWork | src/sreda/workers/message_queue.py:208-240 | there is something to claim exactly when some job waits: pending or under way, in a thread without a lease that still runs |
| MessageQueue.NextHasWaitedLongest | src/sreda/workers/message_queue.py:208-240 | a claim takes exactly a waiting job that no other waiting job was enqueued before |
| MessageQueue.StepKeepsExclusive | src/sreda/db/models/message_jobs.py:3-6 | from one live lease per thread, a step leads to two exactly when it is a heartbeat on a lease that ran out while another job of the thread has a live one |
| MessageQueue.OneLeasePerThread | src/sreda/db/models/message_jobs.py:3-6 | in every run, at most one live lease per thread throughout exactly when no such heartbeat occurs |
| MessageQueue.TwoLeasesOnOneThread | src/sreda/workers/message_queue.py:299-338 | a run from the empty queue that puts one thread under two live leases |
| MessageQueue.DeadLetterNeedsAMark | src/sreda/workers/message_queue.py:383-456 | a job is dead-lettered by a landing failure of an attempt at or above the limit, and by nothing else |
| MessageQueue.DoneNeedsAMark | src/sreda/workers/message_queue.py:345-380 | a job becomes done by a landing mark of its running attempt, and by nothing else |
| MessageQueue.FailedIsRetried | src/sreda/workers/message_queue.py:404-424 | a landing failure below the limit leaves the job open, without lease, worker and times, with its thread, key, attempt and enqueue time, and claimable as soon as its thread is idle |
| MessageQueue.MessagesStay | src/sreda/workers/message_queue.py:83-133 | no step loses a job or changes its thread, key or enqueue time |
| MessageQueue.StepKeepsLimit | src/sreda/workers/message_queue.py:150-163 | within the attempt limit, a step leads past it exactly when it claims a job whose last attempt let its lease run out |
| MessageQueue.AttemptLimit | src/sreda/workers/message_queue.py:25-26 | in every run attempts stay within the limit throughout exactly when no such claim occurs |
| MessageQueue.CrashLoopNeverEnds | src/sreda/workers/message_queue.py:150-163 | for every n there is a run after which a job has been claimed n times and is still open |
| MessageQueue.FourCrashesPassTheLimit | src/sreda/workers/message_queue.py:25-26 | a run from the empty queue that attempts a job more often than the limit |
| MessageQueue.Queue.EnqueueMessage | src/sreda/workers/message_queue.py:83-133 | a message whose key is known is reported with the job that has it, and not stored again |
| MessageQueue.Queue.ClaimNextJob | src/sreda/workers/message_queue.py:141-246 | finds a job exactly when one waits, takes an oldest, gives it a lease of 300 seconds, the worker and the next attempt number, hands out a token that holds, and keeps one lease per thread |
| MessageQueue.Queue.ExtendLease | src/sreda/workers/message_queue.py:299-338 | answers whether the token holds, and then the lease runs 300 seconds from now and nothing else changes; keeps one lease per thread exactly when it does not revive |
| MessageQueue.Queue.MarkJobDone | src/sreda/workers/message_queue.py:345-380 | lands exactly when the token holds; then the attempt is over and the job done, without a lease |
| MessageQueue.Queue.MarkJobFailed | src/sreda/workers/message_queue.py:383-456 | lands exactly when the token holds; then the attempt is over, and the job is pending again without worker, lease and times, or from the third attempt on dead-lettered |
| EncryptionRewrite.ViewsKept | migrations/versions/20260428_0029_encrypt_message_content.py:66-87 | the application reads the same values before, during and after the rewrite, and a plain row as its plaintext |
| EncryptionRewrite.RewrittenMeans | migrations/versions/20260428_0029_encrypt_message_content.py:66-87 | a complete rewrite turns every value that is not NULL, empty or prefixed with v1: or v2: into a v2: envelope of itself, and touches nothing else |
| EncryptionRewrite.PassesCompose | migrations/versions/20260428_0029_encrypt_message_content.py:77-78 | a pass over a partly rewritten column completes it, and a pass over a rewritten one changes nothing |
| EncryptionRewrite.RestoringARewrite | migrations/versions/20260428_0029_encrypt_message_content.py:97-118 | decrypting succeeds exactly when every value that began with a prefix decrypts, and brings back every row that began without one |
| EncryptionRewrite.PrefixedPlaintextIsSkipped | migrations/versions/20260428_0029_encrypt_message_content.py:77-78 | a plaintext with a prefix stays plain, reads as broken and blocks the downgrade |
| EncryptionRewrite.NoteBlocksTheDowngrade | migrations/versions/20260428_0029_encrypt_message_content.py:77-78 | a sound cipher and a column for which that happens |
| EncryptionRewrite.Columns.EncryptColumn | migrations/versions/20260428_0029_encrypt_message_content.py:66-87 | no non-empty plaintext is left, every other value stays, and the count is the number of plain rows |
| EncryptionRewrite.Columns.DecryptColumn | migrations/versions/20260428_0029_encrypt_message_content.py:97-118 | fails exactly at a prefixed value that does not decrypt; otherwise every envelope is its plaintext and counted |
| EncryptionRewrite.Columns.Downgrade | migrations/versions/20260428_0029_encrypt_message_content.py:127-137 | all columns or none |
| EncryptionRewrite.RoundTrip | migrations/versions/20260428_0029_encrypt_message_content.py:121-137 | upgrade and downgrade restore every row that began unprefixed |
| IdentityResolve.V2RefinesV1 | migrations/versions/20260711_0083_identity_resolve_v2_and_counters.py:39-62 | no match: nothing; one: version 1's row, which is the user with its own tenant and that tenant's two times, with count 1; several: a row of NULLs with the count, where version 1 returns nothing |
| IdentityResolve.FoundByTheirAccount | migrations/versions/20260711_0083_identity_resolve_v2_and_counters.py:56-59 | a key finds exactly the users of an existing tenant whose telegram hash, or on the max channel whose max id, it is; other channels and NULL keys find nobody |
| IdentityResolve.AnyOrderWillDo | migrations/versions/20260711_0083_identity_resolve_v2_and_counters.py:48-61 | the result does not depend on the row LIMIT keeps |
| IdentityResolve.AmbiguityRevealsOnlyTheCount | migrations/versions/20260711_0083_identity_resolve_v2_and_counters.py:8-11 | an ambiguous answer depends on the number of matches and on nothing else in the database |
| IdentityResolve.TelegramIsUnambiguous | migrations/versions/20260427_0027_add_tg_account_hash.py:75-80 | telegram keys are never ambiguous exactly when hashes are unique among the users of existing tenants |
| ShadowAudit.Compute | scripts/analysis_285_shadow_report.py:46-110 | the row loop computes the audit of the rows |
| ShadowAudit.CountersPartition | scripts/analysis_285_shadow_report.py:55-110 | rows split into those with and without policy, and mismatches are among the former |
| ShadowAudit.CountersAreExact | scripts/analysis_285_shadow_report.py:55-110 | each counter is the number of rows it is named for: with a policy, without a readable one, broken under a web-only policy, broken under any other |
| ShadowAudit.ToolsAreTheStrays | scripts/analysis_285_shadow_report.py:88-109 | in each row a tool is named once for each of its executed, observed calls outside the policy |
| ShadowAudit.WindowIsExact | scripts/analysis_285_shadow_report.py:48-51 | the window runs from the first to the last time of a row that has one |
| ShadowAudit.ExitZeroIsExact | scripts/analysis_285_shadow_report.py:140-147 | exit 0 exactly when some row has a policy and no executed, observed call of a policy row is outside it, otherwise 1 |
| ShadowAudit.AuditConcat | scripts/analysis_285_shadow_report.py:46-110 | auditing two windows and combining equals auditing both |

## Left out

- Writers inside an open migration transaction of 0080: its ACCESS EXCLUSIVE lock keeps them off the pair's tables, so writers act between transactions only.
- Lock waiting, lock and statement timeouts, permission errors: a wait is a step that changes nothing, a timeout is a crash.
- SQLite branches of the migrations: PostgreSQL only.
- The index step and the column addition of 0081: they repeat the restart guards of 0080.
- Primary-key updates, single-column SET NULL references, tables without row security and the foreign key to the root table in the isolation model: outside its statement.
- TenantIsolation.SharedLooksPrivate: ids that a session chooses for new rows are assumed not to be taken by other tenants, because primary keys are shared; `CollidingIdIsVisible` shows what happens otherwise.
- An empty-string context: taken as no context, because no tenant has the empty string as id.
- Keys with ON DELETE CASCADE in the deletion loop: they enter only as rows a statement takes along, and never block; the final delete of the tenant row is followed for blocking keys only.
- Clock skew between queue workers, the dispatch of a claimed message, and the re-check of a claim's sub-query under concurrent updates: operations are atomic under one clock.
- Real traffic that deletes or merges tenants in the smoke protocol, and the grants check before it (a refusal there is a crash step).
- The signup-attempts row in the smoke: only whether some of it is left.
- The reason texts next to the grandfathering time in 0041 and 0063; freshness of generated subscription ids is a precondition.
- TraceParser.RecentTraces: splitting and classifying the text of a line is not modelled; a line is the answers to the questions the parser asks of it.
- CheckpointBackfill.Checkpoints.Backfill: the derivation is arbitrary, and the join is promised where it is injective on the traced bases.
- HealthMonitor.AlertsAreSpaced: needs a clock that does not run backwards and a saved time that reads back, as the code's cooldown does.
- EncryptionRewrite.Columns.EncryptColumn: cryptography is abstract; of a cipher only the prefix and the inverse are known.
- The informational tallies of the shadow report (variants, events, result kinds, confirm rows, orphans) and its rendering.
- The signup counters and the plan lookup of 0083: single counting queries.
- Individual health probes, percentiles, message formatting, Telegram, reading and writing state files.
- Plain schema migrations, LLM benches, replay and evaluation scripts, one-off repairs, the document tooling.
- The rest of the application under `src/sreda` is not part of this model.
