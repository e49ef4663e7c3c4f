/** The listing queries: paused sandboxes, the builds of a template and of a team, snapshot templates, and the merged sandbox list. */
module Listing {
  import opened Wrappers
  import opened Sequences
  import opened Schema
  import opened Ordering
  import opened Keyset
  import opened SnapshotHistory

  /** A timestamp and a text id: what page tokens carry. */
  datatype TimeKey = TimeKey(time: int, id: string)

  /** ORDER BY sandbox_started_at DESC, sandbox_id ASC. */
  predicate SandboxBefore(x: TimeKey, y: TimeKey) {
    x.time > y.time || (x.time == y.time && TextLess(x.id, y.id))
  }

  /** ORDER BY created_at DESC, id DESC on a text id. */
  predicate NewestFirst(x: TimeKey, y: TimeKey) {
    x.time > y.time || (x.time == y.time && TextLess(y.id, x.id))
  }

  lemma SandboxOrder()
    ensures StrictTotal(SandboxBefore) && StrictTotal(NewestFirst)
  {
    TextOrder();
  }

  // ---------------------------------------------------------------- paused sandboxes

  /** The lateral join of the list query: the newest default assignment of the env whose build is ready. */
  function LatestReadyBuild(t: Tables, env: EnvId): Option<Assignment> {
    Newest(Filter(t.assignments, (a: Assignment) => a.env == env && a.tag == DEFAULT_TAG && t.IsReady(a.build)))
  }

  /** metadata @> filter */
  predicate Contains(metadata: Metadata, filter: Metadata) {
    forall k :: k in filter ==> k in metadata && metadata[k] == filter[k]
  }

  predicate IsPaused(t: Tables, team: TeamId, filter: Metadata, s: SandboxId) {
    && s in t.snapshots && t.snapshots[s].team == team && Contains(t.snapshots[s].metadata, filter)
    && LatestReadyBuild(t, t.snapshots[s].env).Some?
  }

  function KeyOf(t: Tables, s: SandboxId): TimeKey
    requires s in t.snapshots
  {
    TimeKey(t.snapshots[s].startedAt, s)
  }

  /** The rows of GetSnapshotsWithCursor before its cursor condition, ORDER BY and LIMIT. */
  function PausedKeys(t: Tables, team: TeamId, filter: Metadata): set<TimeKey> {
    set s | s in t.snapshots && IsPaused(t, team, filter, s) :: KeyOf(t, s)
  }

  /** The row condition (sandbox_started_at, cursor id) < (cursor time, sandbox_id). */
  predicate SnapshotCursorCondition(k: TimeKey, cursorTime: int, cursorId: string) {
    k.time < cursorTime || (k.time == cursorTime && TextLess(cursorId, k.id))
  }

  ghost predicate IsSnapshotsPage(t: Tables, team: TeamId, filter: Metadata, cursorTime: int, cursorId: string, n: nat, page: seq<TimeKey>) {
    IsTop((set k | k in PausedKeys(t, team, filter) && SnapshotCursorCondition(k, cursorTime, cursorId)), SandboxBefore, n, page)
  }

  /** The mixed-direction row comparison selects exactly the rows after the cursor in the mixed order. */
  lemma SnapshotsPage(t: Tables, team: TeamId, filter: Metadata, cursor: TimeKey, n: nat, page: seq<TimeKey>)
    ensures StrictTotal(SandboxBefore)
    ensures IsSnapshotsPage(t, team, filter, cursor.time, cursor.id, n, page)
            <==> page == Page(PausedKeys(t, team, filter), SandboxBefore, cursor, n)
  {
    SandboxOrder();
    var rows := PausedKeys(t, team, filter);
    assert (set k | k in rows && SnapshotCursorCondition(k, cursor.time, cursor.id)) == After(rows, SandboxBefore, cursor);
    PageIsPage(rows, SandboxBefore, cursor, n);
    if IsPage(rows, SandboxBefore, cursor, n, page) {
      PageUnique(rows, SandboxBefore, cursor, n, page, Page(rows, SandboxBefore, cursor, n));
    }
  }

  /**
   Following the tokens of the paused list while rows come and go: the collected keys are in
   order without repetition, and a row that stays in place through a finished walk is among them.
   */
  lemma PausedWalk(states: seq<Tables>, team: TeamId, filter: Metadata, cursor: TimeKey, limit: nat)
    requires limit >= 1
    ensures StrictTotal(SandboxBefore)
    ensures var tables := seq(|states|, i requires 0 <= i < |states| => PausedKeys(states[i], team, filter));
            var walk := Walk(tables, SandboxBefore, cursor, limit);
            && Sorted(walk, SandboxBefore)
            && (Finished(tables, SandboxBefore, cursor, limit) ==>
                  forall k :: SandboxBefore(cursor, k) && (forall t :: t in states ==> k in PausedKeys(t, team, filter)) ==> k in walk)
  {
    SandboxOrder();
    var tables := seq(|states|, i requires 0 <= i < |states| => PausedKeys(states[i], team, filter));
    WalkInOrder(tables, SandboxBefore, cursor, limit);
    if Finished(tables, SandboxBefore, cursor, limit) {
      forall k | SandboxBefore(cursor, k) && (forall t :: t in states ==> k in PausedKeys(t, team, filter))
        ensures k in Walk(tables, SandboxBefore, cursor, limit)
      {
        assert forall i :: 0 <= i < |tables| ==> k in tables[i];
        WalkFindsStableRows(tables, SandboxBefore, cursor, limit, k);
      }
    }
  }

  /** Both queries choose the same build. */
  lemma SameBuild(t: Tables, env: EnvId)
    ensures LatestReadyBuild(t, env) == Newest(ReadyDefaultRows(t, env))
  {
    FilterFilter(t.assignments, DefaultMatch(env), HasReadyBuild(t),
                 (a: Assignment) => a.env == env && a.tag == DEFAULT_TAG && t.IsReady(a.build));
  }

  /** A page large enough for all rows holds all rows after the cursor, each once. */
  lemma WholePage<K(!new)>(rows: set<K>, lt: (K, K) -> bool, cursor: K, n: nat, page: seq<K>)
    requires StrictTotal(lt) && n >= |rows| && page == Page(rows, lt, cursor, n)
    ensures forall k :: k in page <==> k in After(rows, lt, cursor)
    ensures forall i, j :: 0 <= i < j < |page| ==> page[i] != page[j]
  {
    PageIsPage(rows, lt, cursor, n);
    SortedIsDistinct(page, lt);
    forall k | k in After(rows, lt, cursor) ensures k in page {
      if k !in page { SmallerSet((set x | x in page) + {k}, rows); }
    }
    forall i, j | 0 <= i < j < |page| ensures page[i] != page[j] {
      assert lt(page[i], page[j]);
    }
  }

  /**
   List and get agree: without filter and limit a sandbox is listed, once, exactly if
   GetLastSnapshot finds it for the team and it comes after the cursor, with the same build.
   */
  lemma ListAgreesWithGet(t: Tables, team: TeamId, cursor: TimeKey, n: nat, page: seq<TimeKey>, s: SandboxId)
    requires IsSnapshotsPage(t, team, map[], cursor.time, cursor.id, n, page)
    requires n >= |PausedKeys(t, team, map[])|
    ensures (exists k :: k in page && k.id == s)
            <==> GetLastSnapshot(t, s).Some? && GetLastSnapshot(t, s).value.snapshot.team == team
                 && SnapshotCursorCondition(KeyOf(t, s), cursor.time, cursor.id)
    ensures forall i, j :: 0 <= i < j < |page| ==> !(page[i].id == s && page[j].id == s)
    ensures s in t.snapshots && GetLastSnapshot(t, s).Some? ==>
              LatestReadyBuild(t, t.snapshots[s].env).Some?
              && LatestReadyBuild(t, t.snapshots[s].env).value.build == GetLastSnapshot(t, s).value.build
  {
    var rows := PausedKeys(t, team, map[]);
    if s in t.snapshots {
      SameBuild(t, t.snapshots[s].env);
      assert IsPaused(t, team, map[], s) ==> KeyOf(t, s) in rows;
    }
    PausedPage(t, team, map[], cursor, n, page);
    assert forall k :: k in rows ==> k.id in t.snapshots && k == KeyOf(t, k.id) && IsPaused(t, team, map[], k.id);
    forall i, j | 0 <= i < j < |page| ensures !(page[i].id == s && page[j].id == s) {
      assert page[i] in page && page[j] in page && page[i] != page[j];
    }
  }

  /**
   With a filter too: on a page large enough, a sandbox is listed exactly if GetLastSnapshot
   finds it for the team, after the cursor, and every item of the filter is an item of the
   metadata of its row.
   */
  lemma FilteredListIsExact(t: Tables, team: TeamId, filter: Metadata, cursor: TimeKey, n: nat, page: seq<TimeKey>, s: SandboxId)
    requires IsSnapshotsPage(t, team, filter, cursor.time, cursor.id, n, page)
    requires n >= |PausedKeys(t, team, filter)|
    ensures (exists k :: k in page && k.id == s) <==>
              && GetLastSnapshot(t, s).Some?
              && var row := GetLastSnapshot(t, s).value.snapshot;
              && row.team == team && filter.Items <= row.metadata.Items
              && (row.startedAt < cursor.time || (row.startedAt == cursor.time && TextLess(cursor.id, s)))
  {
    var rows := PausedKeys(t, team, filter);
    PausedPage(t, team, filter, cursor, n, page);
    if s in t.snapshots {
      SameBuild(t, t.snapshots[s].env);
      ContainsIsItems(t.snapshots[s].metadata, filter);
      assert IsPaused(t, team, filter, s) ==> TimeKey(t.snapshots[s].startedAt, s) in rows;
    }
    assert forall k :: k in rows ==> k.id in t.snapshots && k.time == t.snapshots[k.id].startedAt && IsPaused(t, team, filter, k.id);
  }

  lemma ContainsIsItems(metadata: Metadata, filter: Metadata)
    ensures Contains(metadata, filter) <==> filter.Items <= metadata.Items
  {
    if filter.Items <= metadata.Items {
      forall k | k in filter ensures k in metadata && metadata[k] == filter[k] { assert (k, filter[k]) in filter.Items; }
    }
  }

  lemma PausedPage(t: Tables, team: TeamId, filter: Metadata, cursor: TimeKey, n: nat, page: seq<TimeKey>)
    requires IsSnapshotsPage(t, team, filter, cursor.time, cursor.id, n, page)
    requires n >= |PausedKeys(t, team, filter)|
    ensures forall k :: k in page <==> k in PausedKeys(t, team, filter) && SnapshotCursorCondition(k, cursor.time, cursor.id)
    ensures forall i, j :: 0 <= i < j < |page| ==> page[i] != page[j]
  {
    SandboxOrder();
    SnapshotsPage(t, team, filter, cursor, n, page);
    WholePage(PausedKeys(t, team, filter), SandboxBefore, cursor, n, page);
  }

  // ---------------------------------------------------------------- the builds of a template

  datatype BuildKey = BuildKey(createdAt: int, id: BuildId)

  /** ORDER BY created_at DESC, id DESC on the uuid value. */
  predicate BuildBefore(x: BuildKey, y: BuildKey) {
    x.createdAt > y.createdAt || (x.createdAt == y.createdAt && UuidLess(y.id, x.id))
  }

  lemma BuildOrder()
    ensures StrictTotal(BuildBefore)
  {
    UuidOrder();
  }

  /** SELECT DISTINCT: one row per build of the template, however many tags point to it. */
  function TemplateBuildKeys(t: Tables, env: EnvId): set<BuildKey> {
    set a | a in t.assignments && a.env == env && a.build in t.builds :: BuildKey(t.builds[a.build].createdAt, a.build)
  }

  /** The row condition (created_at, id::text) < (cursor time, cursor id text). */
  predicate BuildCursorCondition(k: BuildKey, cursorTime: int, cursorId: string) {
    k.createdAt < cursorTime || (k.createdAt == cursorTime && TextLess(UuidText(k.id), cursorId))
  }

  ghost predicate IsTemplateBuildsPage(t: Tables, env: EnvId, cursorTime: int, cursorId: string, n: nat, page: seq<BuildKey>) {
    IsTop((set k | k in TemplateBuildKeys(t, env) && BuildCursorCondition(k, cursorTime, cursorId)), BuildBefore, n, page)
  }

  /** Although the cursor compares text and the order compares uuids, the page is the keyset page of the uuid order. */
  lemma TemplateBuildsPage(t: Tables, env: EnvId, cursor: BuildKey, n: nat, page: seq<BuildKey>)
    ensures StrictTotal(BuildBefore)
    ensures IsTemplateBuildsPage(t, env, cursor.createdAt, UuidText(cursor.id), n, page)
            <==> page == Page(TemplateBuildKeys(t, env), BuildBefore, cursor, n)
  {
    BuildOrder();
    var rows := TemplateBuildKeys(t, env);
    forall k ensures BuildCursorCondition(k, cursor.createdAt, UuidText(cursor.id)) <==> BuildBefore(cursor, k) {
      UuidTextOrder(k.id, cursor.id);
    }
    assert (set k | k in rows && BuildCursorCondition(k, cursor.createdAt, UuidText(cursor.id))) == After(rows, BuildBefore, cursor);
    PageIsPage(rows, BuildBefore, cursor, n);
    if IsPage(rows, BuildBefore, cursor, n, page) {
      PageUnique(rows, BuildBefore, cursor, n, page, Page(rows, BuildBefore, cursor, n));
    }
  }

  /** Following (created_at, text) cursors over a fixed template visits each of its distinct builds after the start exactly once. */
  lemma TemplateBuildsWalk(t: Tables, env: EnvId, cursor: BuildKey, limit: nat, requests: nat, b: BuildId)
    requires limit >= 1 && requests > |TemplateBuildKeys(t, env)|
    ensures StrictTotal(BuildBefore)
    ensures var walk := Walk(seq(requests, _ => TemplateBuildKeys(t, env)), BuildBefore, cursor, limit);
            && Sorted(walk, BuildBefore)
            && ((exists k :: k in walk && k.id == b) <==>
                  b in t.builds && (exists a :: a in t.assignments && a.env == env && a.build == b)
                  && BuildBefore(cursor, BuildKey(t.builds[b].createdAt, b)))
            && forall i, j :: 0 <= i < j < |walk| ==> !(walk[i].id == b && walk[j].id == b)
  {
    BuildOrder();
    var rows := TemplateBuildKeys(t, env);
    SmallerSet(After(rows, BuildBefore, cursor), rows);
    FixedTableWalk(rows, BuildBefore, cursor, limit, requests);
    var tables := seq(requests, _ => rows);
    WalkInOrder(tables, BuildBefore, cursor, limit);
    var walk := Walk(tables, BuildBefore, cursor, limit);
    assert forall k :: k in walk ==> k in rows && k == BuildKey(t.builds[k.id].createdAt, k.id);
    if b in t.builds && exists a :: a in t.assignments && a.env == env && a.build == b {
      assert BuildKey(t.builds[b].createdAt, b) in rows;
    }
    forall i, j | 0 <= i < j < |walk| ensures !(walk[i].id == b && walk[j].id == b) {
      assert walk[i] in walk && walk[j] in walk && BuildBefore(walk[i], walk[j]);
      assert !BuildBefore(walk[i], walk[i]);
    }
  }

  // ---------------------------------------------------------------- the builds of a team

  /** The four build queries of a team differ in which assignments their lateral join may pick, and in a fixed build id. */
  datatype BuildFilter = AnyBuild | ById(build: BuildId) | ByTemplateAlias(alias: string) | ByTemplateId(env: EnvId)

  predicate MayPick(t: Tables, filter: BuildFilter, b: BuildId, a: Assignment) {
    && a.build == b
    && match filter
       case ByTemplateId(env) => a.env == env
       case ByTemplateAlias(alias) => exists x :: x in t.aliases && x.env == a.env && x.name == alias
       case _ => true
  }

  /** The template a row shows: that of the newest assignment the join may pick; without one there is no row. */
  function ShownTemplate(t: Tables, filter: BuildFilter, b: BuildId): Option<EnvId> {
    match Newest(Filter(t.assignments, (a: Assignment) => MayPick(t, filter, b, a)))
    case None => None
    case Some(a) => Some(a.env)
  }

  /** `teamOf` is the team_id column of the builds. */
  function TeamBuildKeys(t: Tables, teamOf: BuildId -> Option<TeamId>, team: TeamId, filter: BuildFilter, groups: set<StatusGroup>): set<BuildKey> {
    set b | b in t.builds && teamOf(b) == Some(team) && Group(t.builds[b].status) in groups
            && (filter.ById? ==> b == filter.build)
            && ShownTemplate(t, filter, b).Some?
          :: BuildKey(t.builds[b].createdAt, b)
  }

  /** The row condition (created_at, id) < (cursor time, cursor id), on uuid values. */
  predicate TeamBuildCursorCondition(k: BuildKey, cursorTime: int, cursorId: BuildId) {
    k.createdAt < cursorTime || (k.createdAt == cursorTime && UuidLess(k.id, cursorId))
  }

  lemma TeamBuildsPage(t: Tables, teamOf: BuildId -> Option<TeamId>, team: TeamId, filter: BuildFilter, groups: set<StatusGroup>,
                       cursor: BuildKey, n: nat, page: seq<BuildKey>)
    ensures StrictTotal(BuildBefore)
    ensures IsTop((set k | k in TeamBuildKeys(t, teamOf, team, filter, groups) && TeamBuildCursorCondition(k, cursor.createdAt, cursor.id)),
                  BuildBefore, n, page)
            <==> page == Page(TeamBuildKeys(t, teamOf, team, filter, groups), BuildBefore, cursor, n)
  {
    BuildOrder();
    var rows := TeamBuildKeys(t, teamOf, team, filter, groups);
    assert (set k | k in rows && TeamBuildCursorCondition(k, cursor.createdAt, cursor.id)) == After(rows, BuildBefore, cursor);
    PageIsPage(rows, BuildBefore, cursor, n);
    if IsPage(rows, BuildBefore, cursor, n, page) {
      PageUnique(rows, BuildBefore, cursor, n, page, Page(rows, BuildBefore, cursor, n));
    }
  }

  /**
   The team's page by template and the template's own page list the same builds: those
   of the template that are the team's and of a status asked for. Each row by template
   shows that template, even if the build was later assigned to another.
   */
  lemma TeamAndTemplateListsAgree(t: Tables, teamOf: BuildId -> Option<TeamId>, team: TeamId, env: EnvId, groups: set<StatusGroup>, k: BuildKey)
    ensures k in TeamBuildKeys(t, teamOf, team, ByTemplateId(env), groups)
            <==> k in TemplateBuildKeys(t, env) && teamOf(k.id) == Some(team) && Group(t.builds[k.id].status) in groups
    ensures k in TemplateBuildKeys(t, env) ==> ShownTemplate(t, ByTemplateId(env), k.id) == Some(env)
  {
    var picks := Filter(t.assignments, (a: Assignment) => MayPick(t, ByTemplateId(env), k.id, a));
    NewestIsMaximal(picks);
    if k in TemplateBuildKeys(t, env) {
      var a :| a in t.assignments && a.env == env && a.build == k.id;
      assert a in picks;
    }
    if ShownTemplate(t, ByTemplateId(env), k.id).Some? {
      assert Newest(picks).value in picks;
    }
  }

  /** The other three queries by the one by template: any template, any template with the alias, and the one build. */
  lemma TeamListsByTemplate(t: Tables, teamOf: BuildId -> Option<TeamId>, team: TeamId, groups: set<StatusGroup>, k: BuildKey, alias: string, b: BuildId)
    ensures k in TeamBuildKeys(t, teamOf, team, AnyBuild, groups)
            <==> exists env :: k in TeamBuildKeys(t, teamOf, team, ByTemplateId(env), groups)
    ensures k in TeamBuildKeys(t, teamOf, team, ByTemplateAlias(alias), groups)
            <==> exists x :: x in t.aliases && x.name == alias && k in TeamBuildKeys(t, teamOf, team, ByTemplateId(x.env), groups)
    ensures k in TeamBuildKeys(t, teamOf, team, ById(b), groups) <==> k.id == b && k in TeamBuildKeys(t, teamOf, team, AnyBuild, groups)
  {
    forall filter ensures ShownTemplate(t, filter, k.id).Some? <==> exists a :: a in t.assignments && MayPick(t, filter, k.id, a) {
      ShownIfPicked(t, filter, k.id);
    }
    if a :| a in t.assignments && MayPick(t, AnyBuild, k.id, a) {
      assert MayPick(t, ByTemplateId(a.env), k.id, a);
    }
    if a :| a in t.assignments && MayPick(t, ByTemplateAlias(alias), k.id, a) {
      assert MayPick(t, ByTemplateId(a.env), k.id, a);
    }
  }

  /** The template shown has an assignment of the build, and none the join may pick is newer. */
  lemma ShownIsNewest(t: Tables, filter: BuildFilter, b: BuildId)
    ensures match ShownTemplate(t, filter, b)
            case None => forall a :: a in t.assignments ==> !MayPick(t, filter, b, a)
            case Some(env) => exists a :: a in t.assignments && a.build == b && a.env == env && MayPick(t, filter, b, a)
                                          && forall c :: c in t.assignments && MayPick(t, filter, b, c) ==> c.createdAt <= a.createdAt
  {
    var picks := Filter(t.assignments, (a: Assignment) => MayPick(t, filter, b, a));
    NewestIsMaximal(picks);
    if picks == [] {
      forall a | a in t.assignments ensures !MayPick(t, filter, b, a) { assert a !in picks; }
    } else {
      var a := Newest(picks).value;
      assert a in picks && forall c :: c in t.assignments && MayPick(t, filter, b, c) ==> c in picks;
    }
  }

  lemma ShownIfPicked(t: Tables, filter: BuildFilter, b: BuildId)
    ensures ShownTemplate(t, filter, b).Some? <==> exists a :: a in t.assignments && MayPick(t, filter, b, a)
  {
    var picks := Filter(t.assignments, (a: Assignment) => MayPick(t, filter, b, a));
    NewestIsMaximal(picks);
    if picks != [] { assert picks[0] in picks; }
  }

  // ---------------------------------------------------------------- snapshot templates

  predicate HasListableBuild(t: Tables, env: EnvId) {
    exists a :: a in t.assignments && a.env == env && a.build in t.builds && t.builds[a.build].status in {Success, Uploaded, Ready}
  }

  /** The rows of ListTeamSnapshotTemplates; its raw status list is the ready group. */
  function SnapshotTemplateKeys(t: Tables, team: TeamId, sandbox: Option<SandboxId>): set<TimeKey> {
    set e | e in t.envs && t.envs[e].team == team && t.envs[e].source == SnapshotTemplateEnv && e in t.snapshotTemplates
            && (sandbox.Some? ==> t.snapshotTemplates[e] == sandbox.value)
            && HasListableBuild(t, e)
          :: TimeKey(t.envs[e].createdAt, e)
  }

  ghost predicate IsSnapshotTemplatesPage(t: Tables, team: TeamId, sandbox: Option<SandboxId>, cursorTime: int, cursorId: string, n: nat, page: seq<TimeKey>) {
    IsTop((set k | k in SnapshotTemplateKeys(t, team, sandbox)
                   && (k.time < cursorTime || (k.time == cursorTime && TextLess(k.id, cursorId)))), NewestFirst, n, page)
  }

  /**
   A snapshot template made of a build is listed for its team, and under its sandbox's
   filter, at once if the build is ready; no other listing changes.
   */
  lemma NewSnapshotTemplateIsListed(t: Tables, env: EnvId, team: TeamId, sandbox: SandboxId, b: BuildId, tag: Tag,
                                    asker: TeamId, filter: Option<SandboxId>, k: TimeKey)
    requires ReferencesResolve(t) && env !in t.envs && b in t.builds
    requires forall e :: e in t.snapshotTemplates ==> e in t.envs
    ensures var after := Exec(t, CreateSnapshotTemplateEnv(env, team, sandbox, b, tag));
            k in SnapshotTemplateKeys(after, asker, filter) <==>
              if k.id == env then
                k.time == t.clock && asker == team && (filter == None || filter == Some(sandbox)) && Group(t.builds[b].status) == ReadyGroup
              else k in SnapshotTemplateKeys(t, asker, filter)
  {
    var after := Exec(t, CreateSnapshotTemplateEnv(env, team, sandbox, b, tag));
    var row := Assignment(env, b, tag, t.clock);
    assert after.assignments == t.assignments + [row];
    assert row in after.assignments;
    assert forall a :: a in after.assignments <==> a in t.assignments || a == row;
    assert forall a :: a in t.assignments ==> a.env != env;
    assert HasListableBuild(after, env) <==> Group(t.builds[b].status) == ReadyGroup;
    assert k.id != env ==> (HasListableBuild(after, k.id) <==> HasListableBuild(t, k.id));
    assert filter.None? || filter == Some(filter.value);
  }

  /** Only snapshot templates are listed: those with a row of their own and a ready build; other envs are not. */
  lemma OnlySnapshotTemplates(t: Tables, team: TeamId, filter: Option<SandboxId>, k: TimeKey)
    requires k in SnapshotTemplateKeys(t, team, filter)
    ensures k.id in t.envs && t.envs[k.id] == Env(team, SnapshotTemplateEnv, k.time) && k.id in t.snapshotTemplates
    ensures filter.Some? ==> t.snapshotTemplates[k.id] == filter.value
    ensures exists a :: a in t.assignments && a.env == k.id && t.IsReady(a.build)
  {
    assert HasListableBuild(t, k.id);
    var a :| a in t.assignments && a.env == k.id && a.build in t.builds && t.builds[a.build].status in {Success, Uploaded, Ready};
  }

  lemma SnapshotTemplatesPage(t: Tables, team: TeamId, sandbox: Option<SandboxId>, cursor: TimeKey, n: nat, page: seq<TimeKey>)
    ensures StrictTotal(NewestFirst)
    ensures IsSnapshotTemplatesPage(t, team, sandbox, cursor.time, cursor.id, n, page)
            <==> page == Page(SnapshotTemplateKeys(t, team, sandbox), NewestFirst, cursor, n)
  {
    SandboxOrder();
    var rows := SnapshotTemplateKeys(t, team, sandbox);
    assert (set k | k in rows && (k.time < cursor.time || (k.time == cursor.time && TextLess(k.id, cursor.id))))
        == After(rows, NewestFirst, cursor);
    PageIsPage(rows, NewestFirst, cursor, n);
    if IsPage(rows, NewestFirst, cursor, n, page) {
      PageUnique(rows, NewestFirst, cursor, n, page, Page(rows, NewestFirst, cursor, n));
    }
  }

  // ---------------------------------------------------------------- the merged list

  /** A sandbox in the running or pausing state, as the orchestrator knows it. */
  datatype LiveSandbox = LiveSandbox(startedAt: int, metadata: Option<Metadata>, pausing: bool)
  type LiveSandboxes = map<SandboxId, LiveSandbox>

  /** FilterSandboxesOnMetadata: a sandbox without metadata matches only a missing filter. */
  predicate LiveMatches(sbx: LiveSandbox, filter: Option<Metadata>) {
    filter.None? || (sbx.metadata.Some? && Contains(sbx.metadata.value, filter.value))
  }

  function LiveKeys(live: LiveSandboxes, pausing: bool, filter: Option<Metadata>): set<TimeKey> {
    set s | s in live && live[s].pausing == pausing && LiveMatches(live[s], filter) :: TimeKey(live[s].startedAt, s)
  }

  function QueryFilter(filter: Option<Metadata>): Metadata {
    if filter.Some? then filter.value else map[]
  }

  function NotAmong(ids: seq<SandboxId>): TimeKey -> bool {
    (k: TimeKey) => k.id !in ids
  }

  /** getPausedSandboxes: over-fetch by the number of excluded ids, drop those, trim. */
  ghost function PausedList(t: Tables, exclude: seq<SandboxId>, team: TeamId, filter: Metadata,
                            order: (TimeKey, TimeKey) -> bool, cursor: TimeKey, n: nat): seq<TimeKey>
    requires StrictTotal(order)
  {
    TrimResults(Filter(Page(PausedKeys(t, team, filter), order, cursor, n + |exclude|), NotAmong(exclude)), n)
  }

  /** Paused sandboxes that are not excluded. */
  ghost function PausedOnlyKeys(t: Tables, exclude: seq<SandboxId>, team: TeamId, filter: Metadata): set<TimeKey> {
    Kept(PausedKeys(t, team, filter), NotAmong(exclude))
  }

  /** Rows with different ids drawn from a set are no more than its members. */
  lemma {:induction false} FewerThanIds(rows: set<TimeKey>, ids: set<string>)
    requires forall k :: k in rows ==> k.id in ids
    requires forall k, l :: k in rows && l in rows && k.id == l.id ==> k == l
    ensures |rows| <= |ids|
  {
    if k :| k in rows { FewerThanIds(rows - {k}, ids - {k.id}); }
  }

  /** Over-fetching loses no row: the paused list is the page of the sandboxes that are only paused. */
  lemma PausedListIsExact(t: Tables, exclude: seq<SandboxId>, team: TeamId, filter: Metadata,
                          order: (TimeKey, TimeKey) -> bool, cursor: TimeKey, n: nat)
    requires StrictTotal(order)
    ensures PausedList(t, exclude, team, filter, order, cursor, n) == Page(PausedOnlyKeys(t, exclude, team, filter), order, cursor, n)
  {
    FewExcluded(t, exclude, team, filter);
    OverFetchIsExact(PausedKeys(t, team, filter), order, cursor, n, |exclude|, NotAmong(exclude));
  }

  lemma FewExcluded(t: Tables, exclude: seq<SandboxId>, team: TeamId, filter: Metadata)
    ensures |Dropped(PausedKeys(t, team, filter), NotAmong(exclude))| <= |exclude|
  {
    FewerThanIds(Dropped(PausedKeys(t, team, filter), NotAmong(exclude)), set s | s in exclude);
    AtMostLength(exclude);
  }

  /** Every sandbox the request's states ask for. */
  ghost function ListedKeys(t: Tables, live: LiveSandboxes, exclude: seq<SandboxId>, team: TeamId, filter: Option<Metadata>, running: bool, paused: bool): set<TimeKey> {
    (if running then LiveKeys(live, false, filter) else {})
    + (if paused then LiveKeys(live, true, filter) + PausedOnlyKeys(t, exclude, team, QueryFilter(filter)) else {})
  }

  /** What a filter asks of the metadata of a live sandbox; a missing filter asks nothing, and missing metadata meets no filter. */
  predicate MetadataHas(metadata: Option<Metadata>, filter: Option<Metadata>) {
    match filter
    case None => true
    case Some(f) => metadata.Some? && f.Items <= metadata.value.Items
  }

  /**
   The sandboxes a request lists: the team's running ones, its pausing ones as paused, and
   those out of the store for which GetLastSnapshot has an answer, each by its own start
   time and only if its metadata has every item of the filter.
   */
  lemma ListedSandboxes(t: Tables, live: LiveSandboxes, exclude: seq<SandboxId>, team: TeamId, filter: Option<Metadata>, running: bool, paused: bool, k: TimeKey)
    requires ExcludesLive(exclude, live)
    ensures k in ListedKeys(t, live, exclude, team, filter, running, paused) <==>
              if k.id in live then
                live[k.id].startedAt == k.time && MetadataHas(live[k.id].metadata, filter) && (if live[k.id].pausing then paused else running)
              else
                paused && GetLastSnapshot(t, k.id).Some?
                && var row := GetLastSnapshot(t, k.id).value.snapshot;
                row.team == team && row.startedAt == k.time && MetadataHas(Some(row.metadata), filter)
  {
    assert k.id in exclude <==> k.id in (set s | s in exclude);
    if k.id in live && live[k.id].metadata.Some? && filter.Some? { ContainsIsItems(live[k.id].metadata.value, filter.value); }
    if k.id in t.snapshots {
      SameBuild(t, t.snapshots[k.id].env);
      ContainsIsItems(t.snapshots[k.id].metadata, QueryFilter(filter));
    }
  }

  /** The list holds each key of a set once, in any order. */
  ghost predicate Enumerates(list: seq<TimeKey>, keys: set<TimeKey>) {
    Distinct(list) && forall k :: k in list <==> k in keys
  }

  /** The lists GetV2Sandboxes appends: the cursor-filtered running sandboxes, the fetched paused ones, the cursor-filtered pausing ones. */
  datatype Appended = Appended(running: seq<TimeKey>, paused: seq<TimeKey>, pausing: seq<TimeKey>)
  {
    function All(): seq<TimeKey> { running + paused + pausing }
  }

  ghost predicate AreAppended(lists: Appended, t: Tables, live: LiveSandboxes, exclude: seq<SandboxId>, team: TeamId, filter: Option<Metadata>,
                              running: bool, paused: bool, order: (TimeKey, TimeKey) -> bool, cursor: TimeKey, limit: nat)
    requires StrictTotal(order)
  {
    && Enumerates(lists.running, if running then After(LiveKeys(live, false, filter), order, cursor) else {})
    && Enumerates(lists.pausing, if paused then After(LiveKeys(live, true, filter), order, cursor) else {})
    && lists.paused == if paused then PausedList(t, exclude, team, QueryFilter(filter), order, cursor, limit + 1) else []
  }

  /** The excluded ids are those of the live sandboxes. */
  predicate ExcludesLive(exclude: seq<SandboxId>, live: LiveSandboxes) {
    (set s | s in exclude) == live.Keys
  }

  /** Excluding the live ids, no sandbox is listed under two keys: not as running and pausing, nor as live and paused. */
  lemma OneKeyPerSandbox(t: Tables, live: LiveSandboxes, exclude: seq<SandboxId>, team: TeamId, filter: Option<Metadata>, running: bool, paused: bool,
                         k: TimeKey, l: TimeKey)
    requires ExcludesLive(exclude, live)
    requires k in ListedKeys(t, live, exclude, team, filter, running, paused) && l in ListedKeys(t, live, exclude, team, filter, running, paused)
    requires k.id == l.id
    ensures k == l
    ensures k.id in live ==> k !in PausedOnlyKeys(t, exclude, team, QueryFilter(filter))
  {
    assert k.id in exclude <==> k.id in (set s | s in exclude);
  }

  lemma AppendedAreDistinct(lists: Appended, t: Tables, live: LiveSandboxes, exclude: seq<SandboxId>, team: TeamId, filter: Option<Metadata>,
                            running: bool, paused: bool, order: (TimeKey, TimeKey) -> bool, cursor: TimeKey, limit: nat)
    requires StrictTotal(order) && ExcludesLive(exclude, live)
    requires AreAppended(lists, t, live, exclude, team, filter, running, paused, order, cursor, limit)
    ensures Distinct(lists.All())
  {
    FetchedAreDistinct(t, exclude, team, filter, order, cursor, limit + 1);
    assert forall k :: k in lists.running ==> k.id in live && !live[k.id].pausing;
    assert forall k :: k in lists.pausing ==> k.id in live && live[k.id].pausing;
    forall k | k in lists.paused ensures k.id !in live { assert k.id !in (set s | s in exclude); }
    DistinctConcat(lists.running, lists.paused);
    DistinctConcat(lists.running + lists.paused, lists.pausing);
  }

  lemma DistinctConcat<K(!new)>(a: seq<K>, b: seq<K>)
    requires Distinct(a) && Distinct(b) && forall k :: k in a ==> k !in b
    ensures Distinct(a + b)
  {
    forall i, j | 0 <= i < j < |a + b| ensures (a + b)[i] != (a + b)[j] {
      if i < |a| <= j { assert a[i] in a && b[j - |a|] in b; }
    }
  }

  lemma FetchedAreDistinct(t: Tables, exclude: seq<SandboxId>, team: TeamId, filter: Option<Metadata>,
                           order: (TimeKey, TimeKey) -> bool, cursor: TimeKey, n: nat)
    requires StrictTotal(order)
    ensures var list := PausedList(t, exclude, team, QueryFilter(filter), order, cursor, n);
            Distinct(list) && forall k :: k in list ==> k in PausedOnlyKeys(t, exclude, team, QueryFilter(filter)) && k.id !in exclude
  {
    var rows := PausedOnlyKeys(t, exclude, team, QueryFilter(filter));
    PausedListIsExact(t, exclude, team, QueryFilter(filter), order, cursor, n);
    PageIsPage(rows, order, cursor, n);
    var page := Page(rows, order, cursor, n);
    forall i, j | 0 <= i < j < |page| ensures page[i] != page[j] { assert order(page[i], page[j]); }
  }

  function AllLive(live: LiveSandboxes, filter: Option<Metadata>, running: bool, paused: bool): set<TimeKey> {
    (if running then LiveKeys(live, false, filter) else {}) + (if paused then LiveKeys(live, true, filter) else {})
  }

  ghost function PausedOnly(t: Tables, exclude: seq<SandboxId>, team: TeamId, filter: Option<Metadata>, paused: bool): set<TimeKey> {
    if paused then PausedOnlyKeys(t, exclude, team, QueryFilter(filter)) else {}
  }

  lemma AppendedAreUnion(lists: Appended, t: Tables, live: LiveSandboxes, exclude: seq<SandboxId>, team: TeamId, filter: Option<Metadata>,
                         running: bool, paused: bool, order: (TimeKey, TimeKey) -> bool, cursor: TimeKey, limit: nat)
    requires StrictTotal(order)
    requires AreAppended(lists, t, live, exclude, team, filter, running, paused, order, cursor, limit)
    ensures forall k :: k in lists.All() <==>
              k in After(AllLive(live, filter, running, paused), order, cursor)
              || k in Page(PausedOnly(t, exclude, team, filter, paused), order, cursor, limit + 1)
  {
    if paused { PausedListIsExact(t, exclude, team, QueryFilter(filter), order, cursor, limit + 1); }
  }

  /**
   The response of GetV2Sandboxes, which sorts by `SandboxBefore`, is the exact page of all
   sandboxes asked for, running and paused, it lists no sandbox twice, and it carries a
   token exactly if more follow; so its tokens can be followed as in Keyset.Walk.
   */
  lemma SandboxListIsExact(lists: Appended, t: Tables, live: LiveSandboxes, exclude: seq<SandboxId>, team: TeamId, filter: Option<Metadata>,
                           running: bool, paused: bool, order: (TimeKey, TimeKey) -> bool, cursor: TimeKey, limit: nat, merged: seq<TimeKey>)
    requires StrictTotal(order) && limit >= 1 && ExcludesLive(exclude, live)
    requires AreAppended(lists, t, live, exclude, team, filter, running, paused, order, cursor, limit)
    requires IsSortOf(merged, lists.All(), order)
    ensures var fetched := Page(ListedKeys(t, live, exclude, team, filter, running, paused), order, cursor, limit + 1);
            TrimResults(merged, limit) == TrimResults(fetched, limit) && NextToken(merged, limit) == NextToken(fetched, limit)
    ensures var page := TrimResults(merged, limit);
            forall i, j :: 0 <= i < j < |page| ==> page[i].id != page[j].id
  {
    MergedIsPage(lists, t, live, exclude, team, filter, running, paused, order, cursor, limit, merged);
    TrimTwice(merged, limit);
    PageListsOnce(t, live, exclude, team, filter, running, paused, order, cursor, limit + 1);
  }

  lemma MergedIsPage(lists: Appended, t: Tables, live: LiveSandboxes, exclude: seq<SandboxId>, team: TeamId, filter: Option<Metadata>,
                     running: bool, paused: bool, order: (TimeKey, TimeKey) -> bool, cursor: TimeKey, limit: nat, merged: seq<TimeKey>)
    requires StrictTotal(order) && ExcludesLive(exclude, live)
    requires AreAppended(lists, t, live, exclude, team, filter, running, paused, order, cursor, limit)
    requires IsSortOf(merged, lists.All(), order)
    ensures TrimResults(merged, limit + 1) == Page(ListedKeys(t, live, exclude, team, filter, running, paused), order, cursor, limit + 1)
  {
    var full, only := AllLive(live, filter, running, paused), PausedOnly(t, exclude, team, filter, paused);
    AppendedAreDistinct(lists, t, live, exclude, team, filter, running, paused, order, cursor, limit);
    SortOfDistinct(merged, lists.All(), order);
    AppendedAreUnion(lists, t, live, exclude, team, filter, running, paused, order, cursor, limit);
    MergeIsExact(full, only, order, cursor, limit + 1, merged);
    assert full + only == ListedKeys(t, live, exclude, team, filter, running, paused);
  }

  lemma PageListsOnce(t: Tables, live: LiveSandboxes, exclude: seq<SandboxId>, team: TeamId, filter: Option<Metadata>, running: bool, paused: bool,
                      order: (TimeKey, TimeKey) -> bool, cursor: TimeKey, n: nat)
    requires StrictTotal(order) && ExcludesLive(exclude, live)
    ensures var page := Page(ListedKeys(t, live, exclude, team, filter, running, paused), order, cursor, n);
            forall i, j :: 0 <= i < j < |page| ==> page[i].id != page[j].id
  {
    var rows := ListedKeys(t, live, exclude, team, filter, running, paused);
    var page := Page(rows, order, cursor, n);
    PageIsPage(rows, order, cursor, n);
    forall i, j | 0 <= i < j < |page| ensures page[i].id != page[j].id {
      assert order(page[i], page[j]) && page[i] != page[j];
      assert page[i] in page && page[j] in page;
      if page[i].id == page[j].id {
        OneKeyPerSandbox(t, live, exclude, team, filter, running, paused, page[i], page[j]);
      }
    }
  }
}
