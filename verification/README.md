# A verified model of the E2B infrastructure control plane

The project models the parts of the control plane whose correctness rests on
agreement between several pieces of code or several tables, and proves what they
promise over every input, every run and every schedule.

**The store** (`Schema`, `Database`). The tables behind templates, builds, tag
assignments and paused sandboxes, and the SQL statements that change them. `Schema`
gives each statement a meaning on values, including key and foreign-key failures,
cascades, and the trigger that derives `status_group`. `Database` is the store in
place: one method per statement, each proved equal to that meaning, with PostgreSQL's
rule that the parts of a CTE see the tables as they were. Transactions are serial,
each has a later `NOW()` than the one before, and rows written by one transaction
share its `NOW()`. On that base:

- `ActiveIndex`: `active_template_builds` lists exactly the registered builds that are
  pending or in progress, over a run, if and only if every status statement is guarded;
  then the fast per-team count is the recomputed one.
- `PendingBuilds`: at most one pending build per template and tag.
- `ServedBuild`: which ready build a template and tag resolve to, and that this never
  goes back unless something is retracted.
- `PausedEnvs`: each paused sandbox has an env of its own, marked by its source.
- `SnapshotHistory`: `GetLastSnapshot` refines the history of upserts, with the exact
  condition on the other statements and the callers' check that meets it.
- `SnapshotDeletion`: what deleting a killed sandbox's snapshot or a template forgets, and
  what it keeps.
- `TemplateDeletion`: which builds may go with a template.
- `Ordering`, `Keyset`, `Listing`: keyset pages in mixed order, cursors that compare
  uuid text while the order compares uuid values, walks over pages while the table
  changes, over-fetching with exclusion, and the merged sandbox list.

**Cluster instances** (`Instances`, `InstancePool`, `TemplateBuilders`). The health of
an instance as a function of its sync history, convergence of the pool to discovery,
and the choice of a builder under an arbitrary shuffle.

**Sandboxes** (`SandboxTransitions`, `SandboxLifecycle`, `MountPaths`, `VolumeMounts`).
The locked transition protocol under any number of concurrent requests, what the
get, resume, pause, kill and connect endpoints answer, and mount validation with the path
normal form it relies on.

**Small algorithms** (`FilterLiteral`, `LogWindow`).

## What the code does that its text does not say

- A build superseded by a newer registration can still be marked as building by a late
  `SetStatus`. It then runs without a row in the active index and escapes the
  concurrency count (`ActiveIndex.LateStartEscapesTheCount`). The count is exact
  precisely for runs without such a step (`ActiveIndex.IndexAgreesThroughout`).
- Deleting a template leaves its builds in the active index, where they still count but
  can no longer be listed for cancelling (`ActiveIndex.DeletedTemplateStillCounts`; exactly
  when, in `ActiveIndex.CancellableIsWhatCounts`).
- Nothing in the assignment statements protects the default tag of a paused sandbox's env:
  a foreign default assignment would replace the snapshot a resume uses
  (`SnapshotHistory.ForeignAssignmentTakesOver`). No handler makes one. Every env for a
  registration or a tag is generated, or looked up by a query that returns only envs of
  source template or snapshot template, and the tag endpoint refuses to delete the default
  tag. That check is enough in every state and exact while no paused env has lost its
  sandbox (`SnapshotHistory.SourceCheckThroughout`, `SnapshotHistory.CallersRefineHistory`).
- `snapshots.base_env_id` cascades too: deleting a base removes the snapshot rows of the
  sandboxes started from it and leaves their envs behind (`SnapshotDeletion.OthersAfterRemoval`,
  `PausedEnvs.StepKeepsNoOrphans`). For a template the handler's check for paused sandboxes is
  exactly what keeps every row (`SnapshotDeletion.CheckedDeletionKeepsSnapshots`).
- The pool is matched by unique identifier but keyed by node, so an allocation that
  changes node keeps its old entry for as long as it is listed
  (`InstancePool.MovedEntryStays`). Without such moves the pool always converges.
- Waiters of a failed snapshot transition are told it is done
  (`SandboxTransitions.FailedSnapshotReadsAsDone`); for pause and kill the answer is
  honest (`SandboxTransitions.AlreadyDoneIsHonest`).
- Pause answers "already paused" for a sandbox that is being killed and has a snapshot,
  while get and resume answer "not found" (`SandboxLifecycle.AlreadyPausedDisagreement`).
- A mount path is refused for an empty component as well, although the message names
  only "." and ".." (`MountPaths.AcceptedByComponents`).

## Model

| member | source | states |
|---|---|---|
| Database.Database.CreateOrUpdateTemplate | packages/db/queries/create_template.sql.go:15-38 | an existing template keeps its row, a new one gets one with the transaction's time |
| Database.Database.InvalidateUnstartedTemplateBuilds | packages/db/queries/create_template.sql.go:101-128 | exactly the pending builds assigned to one of the tags of the template become failed and leave the active index |
| Database.Database.ClaimTags | packages/api/internal/template/register_build.go:166-201 | the two statements before the build insert compose: the invalidation is the same with or without the new template row |
| Database.Database.CreateTemplateBuild | packages/db/queries/create_template.sql.go:40-99 | inserts the build, or fails on a used id and changes nothing |
| Database.Database.CreateTemplateBuildAssignment | packages/db/queries/create_template_build_assignment.sql.go:14-29 | appends the tag edge, or fails on a missing env or build |
| Database.Database.CreateTagAssignments | packages/api/internal/template/register_build.go:326-341 | one assignment per tag, in order, all with one time |
| Database.Database.CreateActiveTemplateBuild | packages/db/queries/active_template_builds.sql.go:14-43 | inserts the index row, or fails if there is one |
| Database.Database.RegisterBuild | packages/api/internal/template/register_build.go:148-370 | the registration commits all its statements, or on a conflict none: the state is the old one |
| Database.Database.UpdateEnvBuildStatus | packages/db/queries/update_template_build_status.sql.go:47-72 | writes the status of an existing build and nothing else |
| Database.Database.DeleteActiveTemplateBuild | packages/db/queries/active_template_builds.sql.go:45-53 | removes the index row and nothing else |
| Database.Database.FinishTemplateBuild | packages/db/queries/finish_template_build.sql.go:15-44 | status change and index removal both happen, whether or not the other finds a row |
| Database.Database.FailTemplateBuildAndDeactivate | packages/db/queries/update_template_build_status.sql.go:16-45 | the same for failing |
| Database.Database.UpsertSnapshot | packages/db/queries/create_new_snapshot.sql.go:16-113 | the four CTEs through RETURNING: what is stored, what is returned, and exactly when a key or foreign key refuses it; the placeholder only meets ON CONFLICT |
| Database.Database.CreateSnapshotTemplateEnv | packages/db/queries/create_snapshot_template_env.sql.go:14-67 | a new env sharing an existing build, or a refusal that changes nothing |
| Database.Database.DeleteTemplateTags | packages/db/queries/delete_template_build_assignment.sql.go:12-26 | removes exactly the env's assignments with one of the tags |
| Database.Database.DeleteTemplate | packages/db/queries/delete_template.sql.go:14-57 | removes the team's env with its cascade and returns the alias keys read before it; another team's env stays and no key is returned |
| Database.Database.ReadAliasKeys | packages/db/queries/delete_template.sql.go:15-22 | the keys of the env's aliases, qualified by namespace if there is one |
| Database.AliasKeysAppend | packages/db/queries/delete_template.sql.go:15-22 | which keys there are: one per alias of the env, its name after its namespace and a slash if it has one, in order |
| Database.Database.RemoveEnvRow | packages/db/migrations/20250206105106_add_snapshot_constraints.sql:4-16 | removing an env removes its assignments, the snapshots that reference it as env or base, its snapshot template row and its aliases |
| Schema.NewestIsMaximal | packages/db/queries/get_template_with_build_by_tag.sql.go:33-35 | ORDER BY created_at DESC LIMIT 1 gives a row of the list than which none is newer, and none only for no rows |
| Schema.RunChronological | packages/db/migrations/20251218160000_allow_m_n_builds_with_tags.sql:17-34 | in every reachable state assignment times follow insertion, and rows of one time belong to one build |
| Schema.ExecAppends | packages/db/queries/create_template_build_assignment.sql.go:14-17 | every statement but the two deletions only appends assignments, and exactly its own |
| Schema.DeletionIsExact | packages/db/queries/delete_template.sql.go:22-27 | row by row what a deletion takes and what it keeps; another team's call takes nothing |
| Schema.UpsertBrings | packages/db/queries/create_new_snapshot.sql.go:17-25 | an env only for a new sandbox, and always a build of the given status |
| Schema.RefusedExactly | packages/db/queries/create_new_snapshot.sql.go:17-100 | which registrations, upserts, snapshot templates and assignments keys or foreign keys refuse; a refused one changes nothing, an accepted one always something |
| Schema.ExecResolves | packages/db/migrations/20251218160000_allow_m_n_builds_with_tags.sql:25-33 | every statement keeps all assignment and snapshot references resolved |
| Schema.RunResolves | packages/db/migrations/20250206105106_add_snapshot_constraints.sql:4-16 | so does every run |
| ActiveIndex.StepAgrees | packages/db/queries/active_template_builds.sql.go:14-48 | one statement keeps index and statuses in agreement if and only if it is guarded, a test on the build's status before the call |
| ActiveIndex.IndexAgreesThroughout | packages/db/queries/finish_template_build.sql.go:15-27 | over a whole run the index agrees in every state if and only if every statement is guarded |
| ActiveIndex.CountIsExact | packages/db/queries/get_inprogress_builds.sql.go:143-152 | after every guarded run the count over the index is the count over registrations and statuses, with the same age limit and template and tag exclusion |
| ActiveIndex.ExclusionIsExact | packages/db/queries/get_inprogress_builds.sql.go:146-151 | the count is the team's registered builds that have not ended and are younger than a day, less exactly those of the excluded template that share a tag with the excluded list |
| ActiveIndex.SetStatusKeepsAgreement | packages/api/internal/template-manager/template_status.go:260-293 | SetStatus keeps the agreement if and only if it does not reopen a registered build that ended |
| ActiveIndex.SetFinishedKeepsAgreement | packages/api/internal/template-manager/template_status.go:295-308 | SetFinished always keeps it and always leaves the index |
| ActiveIndex.LateStartEscapesTheCount | packages/api/internal/template-manager/template_status.go:281-288 | the run in which a superseded build is started late: it is building, and not in the index |
| ActiveIndex.CancellableIsWhatCounts | packages/db/queries/get_inprogress_builds.sql.go:14-22 | as many builds can be cancelled as are counted, if and only if every counted build's template still exists |
| ActiveIndex.DeletedTemplateStillCounts | packages/db/queries/get_inprogress_builds.sql.go:14-22 | the run in which it does not: one build counts, none can be cancelled |
| PendingBuilds.RegisterSupersedes | packages/db/queries/create_template.sql.go:101-117 | after a registration its build is the only pending one at each of its tags, and the builds it replaced are failed and out of the index |
| PendingBuilds.RegistrationEffect | packages/db/queries/create_template.sql.go:101-117 | of the earlier builds exactly those that wait under a registered tag of the template fail and leave the index; every other keeps its row and its index row |
| PendingBuilds.RegistrationAdds | packages/api/internal/template/register_build.go:63-67 | a waiting build, its index row and one assignment per tag in order, the default tag standing for no tags |
| PendingBuilds.OtherTagsKeepWaiting | packages/db/queries/create_template.sql.go:108-112 | a build waiting under other tags or for another template goes on waiting |
| PendingBuilds.StepKeepsOne | packages/db/queries/create_template.sql.go:101-117 | one statement keeps at most one pending build per template and tag if and only if it does not return to pending, or newly assign while pending, a build where another is pending |
| PendingBuilds.OnePendingPerTag | packages/api/internal/template/register_build.go:184-201 | the same over whole runs, in both directions |
| ServedBuild.ServedIsNewestReady | packages/db/queries/get_template_with_build_by_tag.sql.go:12-36 | the served assignment is a ready match than which no ready match is newer; nothing is served only if there is no ready match |
| ServedBuild.ServedIsAskedFor | packages/db/queries/get_template_with_build_by_tag.sql.go:15-32 | what is served is of the template asked for and of a ready build, under the tag asked for or meant by its id; the env of a paused sandbox serves nothing |
| ServedBuild.AskedForIsServed | packages/db/queries/get_template_with_build_by_tag.sql.go:15-35 | every ready row under the tag asked for has something at least as new served |
| ServedBuild.TagsAreSeparate | packages/db/queries/get_template_with_build_by_tag.sql.go:18-21 | an assignment under one tag leaves the answer for another tag or template, unless that tag means the build |
| ServedBuild.QuietStatementsServeTheSame | packages/db/queries/get_template_with_build_by_tag.sql.go:13-35 | registering, invalidating, starting or failing builds that are not ready changes no answer |
| ServedBuild.FinishingServesOnlyNewer | packages/db/queries/finish_template_build.sql.go:15-27 | making a build ready switches an answer only to that build, and if and only if its assignment is newer |
| ServedBuild.AssigningReadyServesIt | packages/db/queries/create_template_build_assignment.sql.go:14-17 | a new assignment of a ready build is served at once where it matches |
| ServedBuild.ServedNeverOlder | packages/db/queries/get_template_with_build_by_tag.sql.go:13-35 | a statement makes what is served older, or takes it away, if and only if it takes back the served build's readiness, all ready matches of that time, or the template |
| ServedBuild.ServedNeverGoesBack | packages/db/queries/get_template_with_build_by_tag.sql.go:13-35 | over a run the served assignment never gets older if and only if no statement does that; then it is at the end at least as new |
| ServedBuild.FailingServedBuildGoesBack | packages/db/queries/update_template_build_status.sql.go:16-26 | failing the served build does go back: what is served then, if anything, is another build with an older assignment |
| PausedEnvs.ExecPausesOwnEnvs | packages/db/queries/create_new_snapshot.sql.go:16-64 | every statement keeps each paused sandbox with an env of its own, of its team, with the snapshot source |
| PausedEnvs.StepKeepsNoOrphans | packages/db/queries/exists_template_snapshots.sql.go:12-18 | a statement leaves no env with the snapshot source without its sandbox, if and only if it deletes no base of another paused sandbox |
| SnapshotHistory.SourceCheck | packages/db/queries/get_template_by_id.sql.go:15-20 | the callers' check on the env's source keeps a statement away from paused sandboxes in every state, and is exact while none has lost its row |
| SnapshotHistory.StepLinks | packages/db/queries/create_new_snapshot.sql.go:16-113 | a statement keeps tables and history linked, if and only if it leaves the default rows of paused sandboxes' envs to the upserts |
| SnapshotHistory.AnswersSurviveExactly | packages/db/queries/get_last_snapshot.sql.go:12-27 | after a statement all answers stay right for every later readiness of the builds, if and only if it does so or only assigns a newest build once more |
| SnapshotHistory.RunLinks | packages/db/queries/create_new_snapshot.sql.go:16-113 | over whole runs tables and history stay linked in every state if and only if every statement does so |
| SnapshotHistory.SourceCheckThroughout | packages/db/queries/get_template.sql.go:14-21 | the callers' check over a run is enough, and exact if no deletion takes a paused sandbox's base |
| SnapshotHistory.GetLastSnapshotRefinesHistory | packages/db/queries/get_last_snapshot.sql.go:12-27 | after any such run GetLastSnapshot is the newest upsert since the last delete whose build is ready now, or nothing, with the row of the first upsert's env |
| SnapshotHistory.CallersRefineHistory | packages/db/queries/get_last_snapshot.sql.go:12-27 | so it is after any run whose callers check the source of the env; if deletions spare bases, no other runs stay linked |
| SnapshotHistory.LifeOfPause | packages/api/internal/orchestrator/pause_instance.go:30-69 | a pause that is being snapshotted changes no sandbox's build; once it is a success its build is the answer, with the upsert's metadata and start time, and no other answer has changed |
| SnapshotHistory.UpsertKeepsFirstEnv | packages/db/queries/create_new_snapshot.sql.go:46-63 | a later upsert keeps and returns the env of the first, whatever env it offers |
| SnapshotHistory.ForeignAssignmentTakesOver | packages/db/queries/create_template_build_assignment.sql.go:14-17 | the unguarded case at an input: a ready default assignment from elsewhere is at once the answer |
| SnapshotHistory.PlaceholderNeverStored | packages/db/queries/create_new_snapshot.sql.go:46-47 | no reachable state has an env, snapshot or assignment with the placeholder id |
| Database.Database.DeleteSnapshot | packages/api/internal/handlers/sandbox_kill.go:23-42 | deletes the env of the team's snapshot row, or reports that there is none and changes nothing |
| SnapshotDeletion.DeleteSnapshotForgets | packages/api/internal/handlers/sandbox_kill.go:23-42 | in every reachable state it makes GetLastSnapshot forget exactly that sandbox and those started from its env; all other answers and all builds stay |
| SnapshotDeletion.OthersAfterRemoval | packages/db/migrations/20250206105106_add_snapshot_constraints.sql:11-16 | removing an env leaves a sandbox paused elsewhere without an answer if the env was its base, and with the same answer otherwise |
| SnapshotDeletion.DeletionKeepsAnswers | packages/db/queries/delete_template.sql.go:22-27 | deleting an env changes no answer if and only if no sandbox with an answer is paused in it or based on it |
| SnapshotDeletion.CheckedDeletionKeepsSnapshots | packages/api/internal/handlers/template_delete.go:67-91 | for an env that is not a paused one the handler's check is exactly what keeps every snapshot row, and so every answer |
| TemplateDeletion.ExclusiveBuildsAreExactlySafe | packages/db/queries/get_exclusive_builds_for_template_deletion.sql.go:14-24 | removing a template with a set of builds leaves no dangling assignment and no orphaned build if and only if the set is the query's answer |
| TemplateDeletion.DeletionLeavesNoDanglingReference | packages/db/queries/get_exclusive_builds_for_template_deletion.sql.go:14-24 | after it every reference resolves and other templates keep their builds and assignments |
| TemplateDeletion.SharedBuildSurvives | packages/db/queries/create_snapshot_template_env.sql.go:14-42 | a build shared with a snapshot template survives the deletion of its first env |
| Ordering.UuidTextOrder | packages/db/queries/get_template_with_builds.sql.go:17-19 | bytewise order of the canonical uuid text (section 4 of RFC 9562) is bytewise order of the sixteen bytes |
| Ordering.UuidTextInjective | packages/db/queries/get_template_with_builds.sql.go:17-19 | and different uuids have different texts |
| Ordering.UuidTextParts | packages/db/queries/get_template_with_builds.sql.go:17-19 | the text is 4, 2, 2, 2 and 6 bytes in hexadecimal with hyphens between (section 4 of RFC 9562) |
| Ordering.HexExample | packages/db/queries/get_template_with_builds.sql.go:17-19 | the digits, each of the sixteen in lower case |
| Keyset.PageUnique | packages/db/queries/get_snapshots_with_cursor.sql.go:45-51 | cursor condition, ORDER BY and LIMIT determine the page |
| Keyset.ResponseIsPage | packages/api/internal/utils/pagination.go:92-116 | fetching one row more than the limit: the response is the page, and it carries a token, its last row, if and only if more rows follow |
| Keyset.WalkInOrder | packages/api/internal/utils/pagination.go:106-116 | following tokens while rows come and go yields rows in order, none twice, all after the start |
| Keyset.WalkFindsStableRows | packages/api/internal/utils/pagination.go:106-116 | a row that stays in place and qualifying through a walk to its end is among them |
| Keyset.RowsLeft | packages/api/internal/utils/pagination.go:106-116 | on one table each token leaves strictly fewer rows after it |
| Keyset.FixedTableWalk | packages/api/internal/utils/pagination.go:106-116 | on a fixed table the pages together are all rows after the start, each once, in order |
| Keyset.FixedTableFinishes | packages/api/internal/utils/pagination.go:106-116 | and the walk ends within as many requests as there are rows, plus one |
| Keyset.OverFetchIsExact | packages/api/internal/handlers/sandboxes_list.go:47-83 | fetching as many more rows as can be excluded, excluding and trimming is the page of the rows not excluded |
| Keyset.MergeIsExact | packages/api/internal/handlers/sandboxes_list.go:199-245 | complete lists merged with one fetched up to the page size, sorted and trimmed, give the page of them all |
| Keyset.SortOfDistinct | packages/api/internal/utils/sandboxes_list.go:94-104 | sorting a list without repetition is strictly sorted with the same elements |
| Listing.SnapshotsPage | packages/db/queries/get_snapshots_with_cursor.sql.go:45-51 | the crossed row comparison selects exactly the rows after the cursor in the mixed order, so the query is the keyset page, and only it |
| Listing.PausedWalk | packages/db/queries/get_snapshots_with_cursor.sql.go:17-52 | walking the paused list over changing tables: in order, no repetition, and every sandbox that stays is found |
| Listing.ListAgreesWithGet | packages/db/queries/get_snapshots_with_cursor.sql.go:17-52 | without filter and limit a sandbox is listed, once, if and only if GetLastSnapshot finds it for the team after the cursor, and both choose the same build |
| Listing.FilteredListIsExact | packages/db/queries/get_snapshots_with_cursor.sql.go:45-51 | with any filter a sandbox is listed if and only if GetLastSnapshot finds it for the team after the cursor and every item of the filter is an item of its metadata |
| Listing.SameBuild | packages/db/queries/get_snapshots_with_cursor.sql.go:28-44 | the lateral join and GetLastSnapshot choose the same assignment |
| Listing.TemplateBuildsPage | packages/db/queries/get_template_with_builds.sql.go:13-21 | with the cursor on text and the order on values the query is still the keyset page of the uuid order |
| Listing.TemplateBuildsWalk | packages/db/queries/get_template_with_builds.sql.go:13-21 | following it visits each distinct build of the template once, however many tags point to it |
| Listing.TeamBuildsPage | packages/db/queries/get_builds_paginated.sql.go:40-47 | each of the four queries is the keyset page of its rows in the uuid order |
| Listing.TeamAndTemplateListsAgree | packages/db/queries/get_builds_paginated.sql.go:285-317 | the page by template lists exactly the template's builds that are the team's with a status asked for, and each row shows that template |
| Listing.TeamListsByTemplate | packages/db/queries/get_builds_paginated.sql.go:102-228 | the page without filter is that of any template, the page by alias that of any template with the alias, the page by id the one build of the first |
| Listing.ShownIsNewest | packages/db/queries/get_builds_paginated.sql.go:26-32 | the template a row shows is that of the newest assignment the join may pick |
| Listing.SnapshotTemplatesPage | packages/db/queries/list_team_snapshot_templates.sql.go:15-56 | the query is the keyset page of the team's snapshot templates that have a ready build |
| Listing.NewSnapshotTemplateIsListed | packages/db/queries/create_snapshot_template_env.sql.go:14-42 | a new snapshot template is listed for its team and under its sandbox's filter if and only if its build is ready; no other listing changes |
| Listing.OnlySnapshotTemplates | packages/db/queries/list_team_snapshot_templates.sql.go:28-56 | what is listed is a snapshot template of the team, of the sandbox asked for, with a ready build |
| Listing.PausedListIsExact | packages/api/internal/handlers/sandboxes_list.go:33-88 | the paused list is the page of the sandboxes that are only paused |
| Listing.OneKeyPerSandbox | packages/api/internal/handlers/sandboxes_list.go:214-234 | with the live ids excluded no sandbox is listed as running and pausing, nor as live and paused |
| Listing.ListedSandboxes | packages/api/internal/handlers/sandboxes_list.go:184-248 | which sandboxes a request lists: running, pausing as paused, and those GetLastSnapshot answers for, by their start time, if their metadata has every item of the filter |
| Listing.SandboxListIsExact | packages/api/internal/handlers/sandboxes_list.go:135-248 | the sorted appended lists give the page of all running, pausing and paused sandboxes asked for, each sandbox once, with the right token |
| Instances.Instance.Sync | packages/api/internal/clusters/instance.go:114-161 | an error counts and from the third on makes unhealthy; an answer replaces every field and resets the count; the fields stay those of the history |
| Instances.NewInstance | packages/api/internal/clusters/instance.go:64-110 | there is an instance only if its first sync answered, and then it holds that answer |
| Instances.HealthIsHistory | packages/api/internal/clusters/instance.go:114-161 | for every history the fields are those of the last answer, the count is the failure run since, and three make unhealthy |
| Instances.LastAnswerExists | packages/api/internal/clusters/instance.go:93-110 | an instance that was created always has a last answer |
| Instances.UnhealthyExactly | packages/api/internal/clusters/instance.go:123-138 | unhealthy if and only if the last answer said so or the last three calls failed |
| Instances.Instance.StatusOfHistory | packages/api/internal/clusters/instance.go:114-161 | the same for the fields of an instance in place |
| InstancePool.DiscoveredPointwise | packages/api/internal/clusters/instances_sync.go:53-80 | an insert pass keeps every entry and adds only listed nodes that answered, each with its item's identifier |
| InstancePool.InsertOrderDoesNotShow | packages/shared/pkg/synchronization/synchronization.go:102-123 | with distinct nodes the order in which the pass's goroutines run does not show |
| InstancePool.PassesConverge | packages/shared/pkg/synchronization/synchronization.go:87-148 | any schedule with a remove pass and later an insert pass in which all creations succeed leaves exactly the source, from any pool, if and only if no entry had moved |
| InstancePool.TwoRoundsConverge | packages/api/internal/clusters/instances_sync.go:33-98 | two rounds do, whichever pass of a round comes first |
| InstancePool.SourceIsUnique | packages/api/internal/clusters/instances_sync.go:33-57 | the source determines that pool |
| InstancePool.MovedEntryStays | packages/api/internal/clusters/instances_sync.go:33-42 | an identifier that moved to another node keeps its old entry through any passes |
| InstancePool.HistoryConverges | packages/api/internal/clusters/instances_sync.go:33-98 | if identifiers keep their nodes, then after any history, failures included, two good rounds over one source make the pool that source |
| InstancePool.Pool.SourceExists | packages/api/internal/clusters/instances_sync.go:33-42 | true if and only if some item has the instance's identifier |
| InstancePool.Pool.PoolList | packages/api/internal/clusters/instances_sync.go:44-51 | every pooled instance once, in some order |
| InstancePool.Pool.PoolExists | packages/api/internal/clusters/instances_sync.go:53-57 | looks up the node id, not the identifier |
| InstancePool.Pool.PoolInsert | packages/api/internal/clusters/instances_sync.go:59-80 | a new instance under its item's node, over whatever was there, or no change if creation fails |
| InstancePool.Pool.PoolUpdate | packages/api/internal/clusters/instances_sync.go:82-84 | one sync of that instance |
| InstancePool.Pool.PoolRemove | packages/api/internal/clusters/instances_sync.go:86-98 | closes the instance once and removes exactly its entry |
| InstancePool.Pool.SyncDiscovered | packages/shared/pkg/synchronization/synchronization.go:102-123 | the insert pass computes its meaning on values; old instances stay the same objects, new ones are new, keys are node ids |
| InstancePool.Pool.SyncOutdated | packages/shared/pkg/synchronization/synchronization.go:125-148 | the remove pass computes its meaning on values; each kept instance gets one sync, each removed one is closed once |
| InstancePool.Pool.Sync | packages/shared/pkg/synchronization/synchronization.go:87-100 | a round composes both; an error from discovery changes nothing |
| TemplateBuilders.Shuffle | packages/api/internal/clusters/cluster.go:215-216 | the swaps in place give the shuffled list of the draws |
| TemplateBuilders.ShufflePermutes | packages/api/internal/clusters/cluster.go:215-216 | for all draws nothing is lost or repeated |
| TemplateBuilders.EveryCandidateCanBePicked | packages/api/internal/clusters/cluster.go:209-225 | for every matching instance some draws pick it |
| TemplateBuilders.Cluster.GetRandomInstance | packages/api/internal/clusters/cluster.go:209-225 | the first match of the shuffled listing; none only if nothing matches |
| TemplateBuilders.Cluster.GetAvailableTemplateBuilder | packages/api/internal/clusters/cluster.go:227-250 | for every shuffle it succeeds if and only if some pooled instance is healthy, a builder and compatible, and returns such an instance |
| TemplateBuilders.FitsIsCompatible | packages/shared/pkg/machineinfo/machine_info.go:22-24 | two machines are compatible if and only if they are equal up to model name and flags |
| TemplateBuilders.Cluster.GetAvailableBuildClient | packages/api/internal/template-manager/template_manager.go:109-142 | the machine preference is honoured when possible and never costs availability |
| TemplateBuilders.Cluster.GetTemplateBuilderByNodeID | packages/api/internal/clusters/cluster.go:185-196 | succeeds if and only if the node's instance is a builder and not unhealthy |
| TemplateBuilders.BuilderSelectionFollowsHistory | packages/api/internal/clusters/cluster.go:185-250 | which builders serve and which take new builds, from the sync history: available implies serving, three failures take both away |
| SandboxTransitions.MemorySandbox.StartRemoving | packages/api/internal/sandbox/storage/memory/operations.go:154-218 | the locked section answers by the log of transitions, and state and slot stay those of the log |
| SandboxTransitions.MemorySandbox.Complete | packages/api/internal/sandbox/storage/memory/operations.go:220-247 | finishing restores a snapshotted sandbox, frees the slot or leaves a failed removal in it, and signals errors of removals only |
| SandboxTransitions.LogShape | packages/api/internal/sandbox/states.go:51-55 | whatever the requests, nothing starts after a kill, and after a pause only a kill, and only if the pause succeeded |
| SandboxTransitions.RunKeepsSound | packages/api/internal/sandbox/storage/memory/operations.go:154-250 | every step of every interleaving keeps the log lawful, every request justified by it, and every transition with exactly one performer |
| SandboxTransitions.RemovedOnce | packages/api/internal/sandbox/storage/memory/operations.go:154-250 | among any number of concurrent requests at most one pauses the sandbox and at most one kills it |
| SandboxTransitions.OneOwner | packages/api/internal/sandbox/storage/memory/operations.go:217-218 | at most one request at a time holds the sandbox, in its own target state |
| SandboxTransitions.AlreadyDoneIsHonest | packages/api/internal/sandbox/storage/memory/operations.go:191-207 | a pause or kill is reported as already done only if another request performed it successfully |
| SandboxTransitions.FailedSnapshotReadsAsDone | packages/api/internal/sandbox/storage/memory/operations.go:225-233 | for a snapshot that is false, with the run |
| SandboxTransitions.WaitersCanWake | packages/api/internal/sandbox/storage/memory/operations.go:186-201 | a waiting request can move on, at once or after the performer it waits for finishes |
| SandboxTransitions.StatesMoveLawfully | packages/api/internal/sandbox/states.go:51-55 | every step changes the state along an allowed transition or not at all |
| SandboxTransitions.RemovalIsFinal | packages/api/internal/sandbox/states.go:51-55 | killing is final, and pausing can only become killing |
| SandboxTransitions.EvictionNeedsExpiry | packages/api/internal/sandbox/storage/memory/operations.go:158-173 | an eviction starts its action only if it finds the sandbox expired and the slot free, and a running sandbox with a free slot if and only if it is expired; it never waits |
| SandboxTransitions.RefusedOnlyByState | packages/api/internal/sandbox/storage/memory/operations.go:175-218 | in every reachable state what a request meets: a kill is never refused, a pause only by a kill, a snapshot by either; with the slot taken it waits, else it starts or is done |
| SandboxTransitions.StateFollowsLast | packages/api/internal/sandbox/storage/memory/operations.go:220-247 | the state while a request holds the sandbox and after it finishes, and when the slot stays taken |
| SandboxTransitions.WaitersLearn | packages/api/internal/sandbox/storage/memory/operations.go:186-200 | what a waiter is told when the transition it waits for is over |
| SandboxLifecycle.AnswersFollowTheView | packages/api/internal/handlers/sandbox_get.go:48-176 | with all services well, get and resume answer by one view of store and snapshot; the answers per view |
| SandboxLifecycle.RunningIsConflict | packages/api/internal/handlers/sandbox_resume.go:66-110 | get reports running exactly when resume answers conflict, if and only if the stored state is a known one |
| SandboxLifecycle.PausedAgreement | packages/api/internal/handlers/sandbox_pause.go:67-103 | for a sandbox the store does not have for the team, get shows paused, resume starts and pause answers already paused in exactly the same cases |
| SandboxLifecycle.PauseOutcomes | packages/api/internal/handlers/sandbox_pause.go:42-64 | which store states give 204, which a conflict, and which leave the answer to the snapshot |
| SandboxLifecycle.ServiceFailures | packages/api/internal/handlers/sandbox_resume.go:76-125 | each failing service has its own answer, and only where it is asked |
| SandboxLifecycle.AlreadyPausedDisagreement | packages/api/internal/orchestrator/delete_instance.go:49-69 | pause calls a sandbox paused that get does not show as paused, if and only if it is being killed over a snapshot |
| SandboxLifecycle.NotFoundAgreement | packages/api/internal/handlers/sandbox_resume.go:84-126 | get and resume agree on not found, if and only if it is not a pausing sandbox whose snapshot never came; both say so while killing |
| SandboxLifecycle.KillAgreesWithGet | packages/api/internal/handlers/sandbox_kill.go:68-106 | kill succeeds for all that get shows, if and only if its state is a known one; for anything else exactly if it is being killed already or has a snapshot row without a ready build |
| SandboxLifecycle.ConnectSandbox | packages/api/internal/handlers/sandbox_connect.go:61-129 | under arbitrary answers the retry loop makes the calls of the specified outcome, and gives its response |
| SandboxLifecycle.ConnectIsBounded | packages/api/internal/handlers/sandbox_connect.go:62-106 | at most three keep-alives, three waits and one start |
| SandboxLifecycle.ConnectIsJustified | packages/api/internal/handlers/sandbox_connect.go:64-129 | the attempts that were waited out, call by call; 200 if and only if the last call is a successful keep-alive, a conflict if and only if it found the sandbox being killed; the snapshot path if and only if not in the store or three waited attempts; a start if and only if the snapshot there is the team's |
| SandboxLifecycle.ConnectIsDetermined | packages/api/internal/handlers/sandbox_connect.go:64-129 | the answers of the world determine response and calls |
| MountPaths.AcceptedAreNormalForms | packages/api/internal/handlers/sandbox_create.go:356-370 | accepted are exactly "/" and the joined lists of directory names |
| MountPaths.AcceptedByComponents | packages/api/internal/handlers/sandbox_create.go:365-367 | an absolute path is accepted if and only if it is "/" or every component is a non-empty name |
| MountPaths.CleanIsAccepted | packages/api/internal/handlers/sandbox_create.go:365-367 | cleaning any absolute path gives an accepted path to the same location, and is idempotent |
| MountPaths.LocationStep | packages/api/internal/handlers/sandbox_create.go:365-367 | what a further component does: a name enters, ".." leaves unless at the root, "." and an empty one stay |
| MountPaths.FaultsByTest | packages/api/internal/handlers/sandbox_create.go:356-370 | which of the three tests refuses a path |
| MountPaths.AcceptedTextIsLocation | packages/api/internal/handlers/sandbox_create.go:334-339 | accepted paths are the same text if and only if they lead to the same location |
| VolumeMounts.VolumesByName | packages/api/internal/handlers/sandbox_create.go:381-384 | the map holds exactly the rows' names, each with a row of that name |
| VolumeMounts.CheckMounts | packages/api/internal/handlers/sandbox_create.go:315-347 | the reported indices are, increasing, exactly those refused, each with its first reason; without any there is one result per mount, in order |
| VolumeMounts.RefusalReasons | packages/api/internal/handlers/sandbox_create.go:320-339 | which reason a mount is reported with, in terms of the request and the volume rows |
| VolumeMounts.ConvertVolumeMounts | packages/api/internal/handlers/sandbox_create.go:294-354 | succeeds if and only if every name is known, every path a normal form and all locations differ; no mounts succeed even when the feature is off |
| VolumeMounts.NoRefusals | packages/api/internal/handlers/sandbox_create.go:318-339 | the raw-text check of used paths is enough for distinct mount points |
| FilterLiteral.ScanEscape | packages/nomad-nodepool-apm/plugin/plugin.go:42-45 | scanning an escaped name stops at the quote the format adds and gives the name back, whatever follows |
| FilterLiteral.FilterNamesThePool | packages/nomad-nodepool-apm/plugin/plugin.go:121-124 | the literal in a filter is the pool name and nothing follows it |
| FilterLiteral.FilterInjective | packages/nomad-nodepool-apm/plugin/plugin.go:121-124 | different pools give different filters |
| FilterLiteral.RawNamesMisread | packages/nomad-nodepool-apm/plugin/plugin.go:39-41 | without escaping exactly the names free of quotes and backslashes would be read back |
| FilterLiteral.Query | packages/nomad-nodepool-apm/plugin/plugin.go:110-148 | counts the ready and eligible nodes listed; an empty name is refused |
| LogWindow.WindowIsExact | packages/api/internal/clusters/resources.go:34-66 | among entries younger than the retention limit the window holds exactly those the cursor asks for |
| LogWindow.WindowIsBounded | packages/api/internal/clusters/resources.go:49-65 | in order, within retention, at most seven days |
| LogWindow.WindowWithoutCursor | packages/api/internal/clusters/resources.go:28-37 | without a cursor the window is the last seven days |
| LogWindow.WindowFollowsTheClock | packages/api/internal/clusters/resources.go:34-66 | neither end moves back in time or further than the clock |
| LogWindow.WindowsCoincide | packages/api/internal/clusters/resources_local.go:171-174 | the two calls of one build-log request see one window if and only if the cursor is still within reach at the second |
| LogWindow.GetBuildLogs | packages/api/internal/clusters/resources.go:184-239 | the first wanted source that answers, temporary before persistent; no entries and no error if none does |

## Left out

- Row-scanning loops of the `:many` queries: each SELECT is its answer, without the loop that copies rows.
- Concurrent transactions, isolation anomalies, retries, and two transactions with the same or decreasing `NOW()`.
- Text collations other than bytewise, NULL `sandbox_started_at`, and rounding of timestamps in tokens.
- Base64 and the text format of page tokens; a token is the pair it encodes.
- Columns that no modelled query reads: reasons, sizes, machine data, counters, `updated_at`, public flags, spawn counts.
- The `team_id` column of builds, filled by a trigger, is an arbitrary function in `TeamBuildKeys`; the alias a team build row shows is left out.
- Alias claims, alias conflicts and the concurrency limit inside registration; registration is modelled from its template statement to its commit without them.
- The uuid reading of a tag is an arbitrary partial function; the parser is not modelled.
- Garbage collection of builds: nothing in the repository deletes build rows, so `TemplateDeletion` says what a deletion with the exclusive builds would do.
- The handlers' own comparison of teams after a store lookup: the store already answers not found for another team's row.
- Caches of templates, snapshots and builds, and their invalidation.
- Two goroutines of one insert pass that both find the same node missing: items of a pass are taken one after the other, which for distinct nodes is every interleaving.
- Counting of a pooled instance's closes when the whole cluster closes, and errors of closing.
- Time-outs and cancellation in sync calls other than as a failed call; gRPC itself.
- The redis store of sandboxes and its migration; `SandboxTransitions` follows the in-memory store.
- Removal of a sandbox from the store after its transition, routing tables, nodes and analytics.
- The evictor's removals, except for their entry into the transition protocol.
- Request parsing, limits on timeouts, ownership beyond a team flag, and token contents; tokens succeed or fail with a code.
- SandboxLifecycle.GetSandbox: the response body is left out, only the kind of answer is modelled.
- `filepath.Clean` of relative paths, which are refused before, and on systems with volume names or other separators.
- The filter language beyond its quoted literal.
- Loki, ClickHouse and edge API queries, telemetry, generated code and process start-up.
