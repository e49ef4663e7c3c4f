/**
 The tables behind the template, build and snapshot store, and what each SQL
 statement does to them.

 `Tables` is the committed state. Every statement runs in a transaction of its own
 (registration is one transaction of several statements), transactions are serial,
 and `clock` is the NOW() of the latest one.
 */
module Schema {
  import opened Wrappers
  import opened Sequences

  type EnvId = string
  type SandboxId = string
  type Tag = string
  type TeamId = nat
  type Metadata = map<string, string>

  type Byte = b: int | 0 <= b < 256

  /** A uuid column value: 16 bytes. */
  datatype Uuid = Uuid(bytes: seq<Byte>)
  type BuildId = u: Uuid | |u.bytes| == 16 witness Uuid(seq(16, i => 0))

  const DEFAULT_TAG: Tag := "default"

  datatype BuildStatus =
    | Pending | Waiting
    | InProgress | Building | Snapshotting
    | Ready | Uploaded | Success
    | Failed
    | Other(text: string)

  datatype StatusGroup = PendingGroup | InProgressGroup | ReadyGroup | FailedGroup

  /** The trigger that derives env_builds.status_group from the raw status. */
  function Group(status: BuildStatus): StatusGroup {
    match status
    case Pending | Waiting => PendingGroup
    case InProgress | Building | Snapshotting => InProgressGroup
    case Ready | Uploaded | Success => ReadyGroup
    case Failed => FailedGroup
    case Other(_) => FailedGroup
  }

  predicate IsActive(status: BuildStatus) {
    Group(status) == PendingGroup || Group(status) == InProgressGroup
  }

  datatype EnvSource = TemplateEnv | SnapshotEnv | SnapshotTemplateEnv

  datatype Env = Env(team: TeamId, source: EnvSource, createdAt: int)
  datatype Build = Build(status: BuildStatus, createdAt: int)
  datatype Assignment = Assignment(env: EnvId, build: BuildId, tag: Tag, createdAt: int)
  datatype Snapshot = Snapshot(env: EnvId, base: EnvId, team: TeamId, metadata: Metadata, startedAt: int)
  datatype ActiveBuild = ActiveBuild(team: TeamId, template: EnvId, tags: seq<Tag>, createdAt: int)
  datatype Alias = Alias(env: EnvId, namespace: Option<string>, name: string)

  datatype Tables = Tables(
    clock: int,
    envs: map<EnvId, Env>,
    builds: map<BuildId, Build>,
    assignments: seq<Assignment>,
    snapshots: map<SandboxId, Snapshot>,
    active: map<BuildId, ActiveBuild>,
    snapshotTemplates: map<EnvId, SandboxId>,
    aliases: seq<Alias>)
  {
    predicate HasGroup(b: BuildId, g: StatusGroup) {
      b in builds && Group(builds[b].status) == g
    }

    predicate IsReady(b: BuildId) {
      HasGroup(b, ReadyGroup)
    }
  }

  const EMPTY_TABLES: Tables := Tables(0, map[], map[], [], map[], map[], map[], [])

  // ---------------------------------------------------------------- statements

  datatype UpsertParams = UpsertParams(
    sandbox: SandboxId,
    env: EnvId,
    base: EnvId,
    team: TeamId,
    metadata: Metadata,
    startedAt: int,
    status: BuildStatus)

  /** One committed transaction. A generated build id is part of the statement. */
  datatype Statement =
    | RegisterBuild(template: EnvId, team: TeamId, tags: seq<Tag>, build: BuildId)
    | UpdateEnvBuildStatus(build: BuildId, status: BuildStatus)
    | FinishTemplateBuild(build: BuildId, status: BuildStatus)
    | FailTemplateBuildAndDeactivate(build: BuildId, status: BuildStatus)
    | DeleteActiveTemplateBuild(build: BuildId)
    | UpsertSnapshot(params: UpsertParams, build: BuildId)
    | CreateSnapshotTemplateEnv(env: EnvId, team: TeamId, sandbox: SandboxId, build: BuildId, tag: Tag)
    | CreateTemplateBuildAssignment(env: EnvId, build: BuildId, tag: Tag)
    | DeleteTemplateTags(env: EnvId, tags: seq<Tag>)
    | DeleteTemplate(env: EnvId, team: TeamId)

  /** The builds InvalidateUnstartedTemplateBuilds marks as failed. */
  function Unstarted(t: Tables, template: EnvId, tags: seq<Tag>): set<BuildId> {
    set a | a in t.assignments && a.env == template && a.tag in tags && t.HasGroup(a.build, PendingGroup) :: a.build
  }

  function FailBuilds(builds: map<BuildId, Build>, failed: set<BuildId>): map<BuildId, Build> {
    map b | b in builds :: if b in failed then builds[b].(status := Failed) else builds[b]
  }

  function InvalidateUnstarted(t: Tables, template: EnvId, tags: seq<Tag>): Tables {
    var gone := Unstarted(t, template, tags);
    t.(builds := FailBuilds(t.builds, gone), active := t.active - gone)
  }

  /** The assignment rows one registration adds, one per tag. */
  function TagRows(template: EnvId, build: BuildId, tags: seq<Tag>, now: int): seq<Assignment> {
    Map(tags, tag => Assignment(template, build, tag, now))
  }

  function EffectiveTags(tags: seq<Tag>): seq<Tag> {
    if tags == [] then [DEFAULT_TAG] else tags
  }

  predicate RegisterAccepted(t: Tables, build: BuildId) {
    build !in t.builds && build !in t.active
  }

  /** The whole registration transaction; a key conflict rolls it back. */
  function Register(t: Tables, template: EnvId, team: TeamId, requested: seq<Tag>, build: BuildId): Tables {
    if !RegisterAccepted(t, build) then t else
    var tags := EffectiveTags(requested);
    var cleared := InvalidateUnstarted(t, template, tags);
    cleared.(
      envs := if template in t.envs then t.envs else t.envs[template := Env(team, TemplateEnv, t.clock)],
      builds := cleared.builds[build := Build(Waiting, t.clock)],
      assignments := t.assignments + TagRows(template, build, tags, t.clock),
      active := cleared.active[build := ActiveBuild(team, template, tags, t.clock)])
  }

  function SetStatus(t: Tables, build: BuildId, status: BuildStatus): Tables {
    if build in t.builds then t.(builds := t.builds[build := t.builds[build].(status := status)]) else t
  }

  function Deactivate(t: Tables, build: BuildId): Tables {
    t.(active := t.active - {build})
  }

  /** Key and foreign-key checks of UpsertSnapshot; an update of an existing row checks only the build key. */
  predicate UpsertAccepted(t: Tables, p: UpsertParams, build: BuildId) {
    && build !in t.builds
    && (p.sandbox in t.snapshots || (p.env !in t.envs && (p.base in t.envs || p.base == p.env)))
  }

  /** The env a snapshot upsert returns: the stored one, or the offered one for a new sandbox. */
  function UpsertEnv(t: Tables, p: UpsertParams): EnvId {
    if p.sandbox in t.snapshots then t.snapshots[p.sandbox].env else p.env
  }

  function Upsert(t: Tables, p: UpsertParams, build: BuildId): Tables {
    if !UpsertAccepted(t, p, build) then t else
    var known := p.sandbox in t.snapshots;
    var row := if known then t.snapshots[p.sandbox].(metadata := p.metadata, startedAt := p.startedAt)
               else Snapshot(p.env, p.base, p.team, p.metadata, p.startedAt);
    t.(envs := if known then t.envs else t.envs[p.env := Env(p.team, SnapshotEnv, t.clock)],
       snapshots := t.snapshots[p.sandbox := row],
       builds := t.builds[build := Build(p.status, t.clock)],
       assignments := t.assignments + [Assignment(row.env, build, DEFAULT_TAG, t.clock)])
  }

  predicate SnapshotTemplateAccepted(t: Tables, env: EnvId, build: BuildId) {
    env !in t.envs && build in t.builds
  }

  function AddSnapshotTemplate(t: Tables, env: EnvId, team: TeamId, sandbox: SandboxId, build: BuildId, tag: Tag): Tables {
    if !SnapshotTemplateAccepted(t, env, build) then t else
    t.(envs := t.envs[env := Env(team, SnapshotTemplateEnv, t.clock)],
       snapshotTemplates := t.snapshotTemplates[env := sandbox],
       assignments := t.assignments + [Assignment(env, build, tag, t.clock)])
  }

  function Assign(t: Tables, env: EnvId, build: BuildId, tag: Tag): Tables {
    if env in t.envs && build in t.builds
    then t.(assignments := t.assignments + [Assignment(env, build, tag, t.clock)])
    else t
  }

  function DropTags(t: Tables, env: EnvId, tags: seq<Tag>): Tables {
    t.(assignments := Filter(t.assignments, (a: Assignment) => !(a.env == env && a.tag in tags)))
  }

  predicate DeleteAccepted(t: Tables, env: EnvId, team: TeamId) {
    env in t.envs && t.envs[env].team == team
  }

  /** Removing an env row, with the rows that reference it removed by the cascading foreign keys. */
  function RemoveEnv(t: Tables, env: EnvId): Tables {
    t.(envs := t.envs - {env},
       assignments := Filter(t.assignments, (a: Assignment) => a.env != env),
       snapshots := map s | s in t.snapshots && t.snapshots[s].env != env && t.snapshots[s].base != env :: t.snapshots[s],
       snapshotTemplates := t.snapshotTemplates - {env},
       aliases := Filter(t.aliases, (x: Alias) => x.env != env))
  }

  function Delete(t: Tables, env: EnvId, team: TeamId): Tables {
    if DeleteAccepted(t, env, team) then RemoveEnv(t, env) else t
  }

  function Exec(t: Tables, s: Statement): Tables {
    match s
    case RegisterBuild(template, team, tags, build) => Register(t, template, team, tags, build)
    case UpdateEnvBuildStatus(build, status) => SetStatus(t, build, status)
    case FinishTemplateBuild(build, status) => Deactivate(SetStatus(t, build, status), build)
    case FailTemplateBuildAndDeactivate(build, status) => Deactivate(SetStatus(t, build, status), build)
    case DeleteActiveTemplateBuild(build) => Deactivate(t, build)
    case UpsertSnapshot(p, build) => Upsert(t, p, build)
    case CreateSnapshotTemplateEnv(env, team, sandbox, build, tag) => AddSnapshotTemplate(t, env, team, sandbox, build, tag)
    case CreateTemplateBuildAssignment(env, build, tag) => Assign(t, env, build, tag)
    case DeleteTemplateTags(env, tags) => DropTags(t, env, tags)
    case DeleteTemplate(env, team) => Delete(t, env, team)
  }

  /** The rows one statement appends to the assignment table. */
  function AddedRows(t: Tables, s: Statement): seq<Assignment> {
    match s
    case RegisterBuild(template, _, tags, b) =>
      if RegisterAccepted(t, b) then TagRows(template, b, EffectiveTags(tags), t.clock) else []
    case UpsertSnapshot(p, b) =>
      if UpsertAccepted(t, p, b) then [Assignment(UpsertEnv(t, p), b, DEFAULT_TAG, t.clock)] else []
    case CreateSnapshotTemplateEnv(e, _, _, b, g) =>
      if SnapshotTemplateAccepted(t, e, b) then [Assignment(e, b, g, t.clock)] else []
    case CreateTemplateBuildAssignment(e, b, g) =>
      if e in t.envs && b in t.builds then [Assignment(e, b, g, t.clock)] else []
    case _ => []
  }

  lemma ExecAppends(t: Tables, s: Statement)
    requires !s.DeleteTemplateTags? && !s.DeleteTemplate?
    ensures Exec(t, s).assignments == t.assignments + AddedRows(t, s)
    ensures forall e :: e in t.envs ==> e in Exec(t, s).envs && Exec(t, s).envs[e].source == t.envs[e].source
    ensures forall e :: e in Exec(t, s).envs && Exec(t, s).envs[e].source != SnapshotEnv && e !in t.envs ==> !s.UpsertSnapshot?
  {
    if s.RegisterBuild? { assert Register(t, s.template, s.team, s.tags, s.build) == Exec(t, s); }
  }

  /**
   Deleting a template, row by row: what references the env goes and all else stays, builds
   and the active index included; for a missing env or one of another team nothing happens.
   */
  lemma DeletionIsExact(t: Tables, env: EnvId, team: TeamId)
    ensures var after := Exec(t, DeleteTemplate(env, team));
            if env in t.envs && t.envs[env].team == team then
              && (forall e :: e in after.envs <==> e in t.envs && e != env) && (forall e :: e in after.envs ==> after.envs[e] == t.envs[e])
              && (forall a :: a in after.assignments <==> a in t.assignments && a.env != env)
              && (forall s :: s in after.snapshots <==> s in t.snapshots && env !in {t.snapshots[s].env, t.snapshots[s].base})
              && (forall s :: s in after.snapshots ==> after.snapshots[s] == t.snapshots[s])
              && (forall e :: e in after.snapshotTemplates <==> e in t.snapshotTemplates && e != env)
              && (forall e :: e in after.snapshotTemplates ==> after.snapshotTemplates[e] == t.snapshotTemplates[e])
              && (forall x :: x in after.aliases <==> x in t.aliases && x.env != env)
              && after.builds == t.builds && after.active == t.active && after.clock == t.clock
            else after == t
  {
  }

  /**
   The statements that keys or foreign keys can refuse, and when: a used build or env id,
   or a missing env or build to refer to. A refused statement changes nothing, and an
   accepted one always does.
   */
  lemma RefusedExactly(t: Tables, s: Statement)
    requires s.RegisterBuild? || s.UpsertSnapshot? || s.CreateSnapshotTemplateEnv? || s.CreateTemplateBuildAssignment?
    ensures Exec(t, s) == t <==>
              match s
              case RegisterBuild(_, _, _, build) => build in t.builds || build in t.active
              case UpsertSnapshot(p, build) =>
                build in t.builds || (p.sandbox !in t.snapshots && (p.env in t.envs || (p.base !in t.envs && p.base != p.env)))
              case CreateSnapshotTemplateEnv(env, _, _, build, _) => env in t.envs || build !in t.builds
              case CreateTemplateBuildAssignment(env, build, _) => env !in t.envs || build !in t.builds
              case _ => true
  {
    var after := Exec(t, s);
    if after == t {
      assert |after.assignments| == |t.assignments|;
    }
    if s.RegisterBuild? && RegisterAccepted(t, s.build) { assert s.build in after.builds; }
  }

  /** An upsert of a new sandbox brings an env, an upsert of a known one leaves the envs; both bring a build of the given status. */
  lemma UpsertBrings(t: Tables, p: UpsertParams, build: BuildId)
    requires UpsertAccepted(t, p, build)
    ensures var after := Exec(t, UpsertSnapshot(p, build));
            && after.envs == (if p.sandbox in t.snapshots then t.envs else t.envs[p.env := Env(p.team, SnapshotEnv, t.clock)])
            && after.builds == t.builds[build := Build(p.status, t.clock)]
            && after.active == t.active && after.aliases == t.aliases && after.snapshotTemplates == t.snapshotTemplates
  {
  }

  // ---------------------------------------------------------------- runs

  /** A transaction that commits `1 + delay` time units after the previous one. */
  datatype Event = Event(delay: nat, stmt: Statement)

  function Tick(t: Tables, e: Event): Tables {
    t.(clock := t.clock + 1 + e.delay)
  }

  function Apply(t: Tables, e: Event): Tables {
    Exec(Tick(t, e), e.stmt)
  }

  /** The state after a serial run. */
  function Run(t: Tables, events: seq<Event>): Tables
    decreases |events|
  {
    if events == [] then t else Run(Apply(t, events[0]), events[1..])
  }

  // ---------------------------------------------------------------- newest row

  /** The row `ORDER BY created_at DESC LIMIT 1` returns; among rows of one instant, the last inserted. */
  function Newest(rows: seq<Assignment>): Option<Assignment> {
    if rows == [] then None else
    var front, last := Newest(rows[..|rows| - 1]), rows[|rows| - 1];
    if front.None? || front.value.createdAt <= last.createdAt then Some(last) else front
  }

  lemma {:induction false} NewestIsMaximal(rows: seq<Assignment>)
    ensures Newest(rows).None? <==> rows == []
    ensures Newest(rows).Some? ==>
              Newest(rows).value in rows && forall a :: a in rows ==> a.createdAt <= Newest(rows).value.createdAt
  {
    if rows != [] {
      var front := rows[..|rows| - 1];
      NewestIsMaximal(front);
      assert rows == front + [rows[|rows| - 1]];
    }
  }

  lemma NewestAfterAppend(rows: seq<Assignment>, row: Assignment)
    requires forall a :: a in rows ==> a.createdAt <= row.createdAt
    ensures Newest(rows + [row]) == Some(row)
  {
    NewestIsMaximal(rows);
    assert (rows + [row])[..|rows|] == rows;
  }

  /**
   Assignment times follow insertion order, and rows of one instant belong to one
   build: only the rows of a single registration share their transaction's NOW().
   */
  ghost predicate Chronological(rows: seq<Assignment>, clock: int) {
    && (forall i :: 0 <= i < |rows| ==> rows[i].createdAt <= clock)
    && (forall i, j :: 0 <= i < j < |rows| ==>
          rows[i].createdAt <= rows[j].createdAt
          && (rows[i].createdAt == rows[j].createdAt ==> rows[i].build == rows[j].build))
  }

  predicate NotAfter(a: Assignment, b: Assignment) {
    a.createdAt <= b.createdAt && (a.createdAt == b.createdAt ==> a.build == b.build)
  }

  lemma ChronologicalSnoc(rows: seq<Assignment>, last: Assignment, clock: int)
    requires Chronological(rows, clock) && last.createdAt <= clock
    requires forall a :: a in rows ==> NotAfter(a, last)
    ensures Chronological(rows + [last], clock)
  {
    var all := rows + [last];
    forall i, j | 0 <= i < j < |all| ensures NotAfter(all[i], all[j]) {
      if j == |rows| { assert all[i] in rows; }
    }
  }

  lemma {:induction false} ChronologicalFilter(rows: seq<Assignment>, keep: Assignment -> bool, clock: int)
    requires Chronological(rows, clock)
    ensures Chronological(Filter(rows, keep), clock)
  {
    if rows != [] {
      var front, last := rows[..|rows| - 1], rows[|rows| - 1];
      ChronologicalFilter(front, keep, clock);
      forall a | a in front ensures NotAfter(a, last) {
        var k :| 0 <= k < |front| && front[k] == a;
        assert rows[k] == front[k];
      }
      if keep(last) { ChronologicalSnoc(Filter(front, keep), last, clock); }
    }
  }

  lemma ChronologicalAppend(rows: seq<Assignment>, added: seq<Assignment>, clock: int, now: int)
    requires Chronological(rows, clock) && clock < now
    requires forall a :: a in added ==> a.createdAt == now
    requires forall a, b :: a in added && b in added ==> a.build == b.build
    ensures Chronological(rows + added, now)
  {
    var all := rows + added;
    forall i | 0 <= i < |all| ensures i < |rows| || all[i] in added { }
  }

  /** In chronological rows the newest one is the last one, and every row as new has its build. */
  lemma {:induction false} NewestIsLast(rows: seq<Assignment>, clock: int)
    requires Chronological(rows, clock)
    ensures Newest(rows) == if rows == [] then None else Some(rows[|rows| - 1])
    ensures forall a :: a in rows && a.createdAt == rows[|rows| - 1].createdAt ==> a.build == rows[|rows| - 1].build
  {
    if rows != [] {
      NewestIsLast(rows[..|rows| - 1], clock);
    }
  }

  lemma ExecChronological(t: Tables, s: Statement, before: int)
    requires Chronological(t.assignments, before) && before < t.clock
    ensures Chronological(Exec(t, s).assignments, t.clock)
  {
    var rows := t.assignments;
    match s
    case DeleteTemplateTags(env, tags) =>
      ChronologicalFilter(rows, (a: Assignment) => !(a.env == env && a.tag in tags), t.clock);
    case DeleteTemplate(env, team) =>
      ChronologicalFilter(rows, (a: Assignment) => a.env != env, t.clock);
    case _ =>
      var added := AddedRows(t, s);
      ExecAppends(t, s);
      ChronologicalAppend(rows, added, before, t.clock);
  }

  /** Every reachable state has chronological assignments. */
  lemma {:induction false} RunChronological(t: Tables, events: seq<Event>)
    requires Chronological(t.assignments, t.clock)
    ensures Chronological(Run(t, events).assignments, Run(t, events).clock)
    decreases |events|
  {
    if events != [] {
      ExecChronological(Tick(t, events[0]), events[0].stmt, t.clock);
      RunChronological(Apply(t, events[0]), events[1..]);
    }
  }

  // ---------------------------------------------------------------- foreign keys

  /** The foreign keys of assignments and snapshots resolve. */
  ghost predicate ReferencesResolve(t: Tables) {
    && (forall a :: a in t.assignments ==> a.env in t.envs && a.build in t.builds)
    && (forall s :: s in t.snapshots ==> t.snapshots[s].env in t.envs && t.snapshots[s].base in t.envs)
  }

  lemma ExecResolves(t: Tables, s: Statement)
    requires ReferencesResolve(t)
    ensures ReferencesResolve(Exec(t, s))
  {
    match s
    case DeleteTemplateTags(env, tags) =>
    case DeleteTemplate(env, team) =>
    case _ => AppendingResolves(t, s);
  }

  lemma AppendingResolves(t: Tables, s: Statement)
    requires ReferencesResolve(t) && !s.DeleteTemplateTags? && !s.DeleteTemplate?
    ensures ReferencesResolve(Exec(t, s))
  {
    var after, added := Exec(t, s), AddedRows(t, s);
    ExecAppends(t, s);
    AddedRowsResolve(t, s);
    forall a | a in t.assignments + added ensures a.env in after.envs && a.build in after.builds {
      if a !in added { assert a in t.assignments; }
    }
    UpsertResolves(t, s);
  }

  lemma AddedRowsResolve(t: Tables, s: Statement)
    requires ReferencesResolve(t) && !s.DeleteTemplateTags? && !s.DeleteTemplate?
    ensures forall a :: a in AddedRows(t, s) ==> a.env in Exec(t, s).envs && a.build in Exec(t, s).builds
    ensures t.builds.Keys <= Exec(t, s).builds.Keys
  {
  }

  lemma UpsertResolves(t: Tables, s: Statement)
    requires ReferencesResolve(t) && !s.DeleteTemplateTags? && !s.DeleteTemplate?
    ensures forall x :: x in Exec(t, s).snapshots ==> Exec(t, s).snapshots[x].env in Exec(t, s).envs && Exec(t, s).snapshots[x].base in Exec(t, s).envs
  {
    ExecAppends(t, s);
    if s.UpsertSnapshot? && UpsertAccepted(t, s.params, s.build) {
      assert UpsertEnv(t, s.params) in Exec(t, s).envs;
    } else {
      assert Exec(t, s).snapshots == t.snapshots;
    }
  }

  lemma {:induction false} RunResolves(t: Tables, events: seq<Event>)
    requires ReferencesResolve(t)
    ensures ReferencesResolve(Run(t, events))
    decreases |events|
  {
    if events != [] {
      assert ReferencesResolve(Tick(t, events[0]));
      ExecResolves(Tick(t, events[0]), events[0].stmt);
      RunResolves(Apply(t, events[0]), events[1..]);
    }
  }
}
