/**
 The store as the queries change it: one field per table, one method per statement.
 The sub-statements of a CTE all read the tables as they were before the statement and
 pass values on only through RETURNING; each method is proved against the statement's
 meaning in Schema.
 */
module Database {
  import opened Wrappers
  import opened Sequences
  import opened Schema
  import SnapshotDeletion

  datatype SqlError = ConstraintViolation | SnapshotNotFound

  /** The cache key of an alias: qualified by its namespace if it has one. */
  function AliasKey(x: Alias): string {
    if x.namespace.Some? then x.namespace.value + "/" + x.name else x.name
  }

  /** The keys of the aliases of one env. */
  function AliasKeys(aliases: seq<Alias>, env: EnvId): seq<string> {
    Map(Filter(aliases, (x: Alias) => x.env == env), AliasKey)
  }

  /** The keys are exactly the names of the env's aliases, after their namespace and a slash if they have one, in the order of the aliases. */
  lemma AliasKeysAppend(aliases: seq<Alias>, x: Alias, env: EnvId)
    ensures AliasKeys([], env) == []
    ensures AliasKeys(aliases + [x], env) == AliasKeys(aliases, env) +
              if x.env != env then []
              else match x.namespace
                   case None => [x.name]
                   case Some(ns) => [ns + "/" + x.name]
  {
    FilterLast(aliases + [x], aliases, x, (y: Alias) => y.env == env);
  }

  /** The rows that meet a condition, in order. */
  method Retain<T(!new)>(rows: seq<T>, keep: T -> bool) returns (kept: seq<T>)
    ensures kept == Filter(rows, keep)
  {
    kept := [];
    for i := 0 to |rows|
      invariant kept == Filter(rows[..i], keep)
    {
      assert rows[..i + 1][..i] == rows[..i];
      if keep(rows[i]) { kept := kept + [rows[i]]; }
    }
    assert rows[..|rows|] == rows;
  }

  lemma InvalidationIgnoresEnvs(t: Tables, envs: map<EnvId, Env>, template: EnvId, tags: seq<Tag>)
    ensures InvalidateUnstarted(t.(envs := envs), template, tags) == InvalidateUnstarted(t, template, tags).(envs := envs)
  {
    assert Unstarted(t.(envs := envs), template, tags) == Unstarted(t, template, tags);
  }

  class Database {
    var clock: int
    var envs: map<EnvId, Env>
    var builds: map<BuildId, Build>
    var assignments: seq<Assignment>
    var snapshots: map<SandboxId, Snapshot>
    var active: map<BuildId, ActiveBuild>
    var snapshotTemplates: map<EnvId, SandboxId>
    var aliases: seq<Alias>

    function State(): Tables
      reads this
    {
      Tables(clock, envs, builds, assignments, snapshots, active, snapshotTemplates, aliases)
    }

    constructor ()
      ensures State() == EMPTY_TABLES
    {
      clock := 0;
      envs, builds, assignments, snapshots := map[], map[], [], map[];
      active, snapshotTemplates, aliases := map[], map[], [];
    }

    /** Starts a transaction: NOW() moves on. */
    method Begin(delay: nat)
      modifies this`clock
      ensures forall s :: State() == Tick(old(State()), Event(delay, s))
    {
      clock := clock + 1 + delay;
    }

    /** Undoes every statement since `saved`. */
    method Rollback(saved: Tables)
      modifies this
      ensures State() == saved
    {
      clock, envs, builds, assignments := saved.clock, saved.envs, saved.builds, saved.assignments;
      snapshots, active, snapshotTemplates, aliases := saved.snapshots, saved.active, saved.snapshotTemplates, saved.aliases;
    }

    // -------------------------------------------------------------- registration

    /** An existing template keeps its row; only counters this model leaves out change. */
    method CreateOrUpdateTemplate(template: EnvId, team: TeamId)
      modifies this`envs
      ensures envs == if template in old(envs) then old(envs) else old(envs)[template := Env(team, TemplateEnv, clock)]
    {
      if template !in envs {
        envs := envs[template := Env(team, TemplateEnv, clock)];
      }
    }

    method InvalidateUnstartedTemplateBuilds(template: EnvId, tags: seq<Tag>)
      modifies this`builds, this`active
      ensures State() == InvalidateUnstarted(old(State()), template, tags)
    {
      var before := builds;
      ghost var t := State();
      var invalidated: set<BuildId> := {};
      for i := 0 to |assignments|
        invariant invalidated == set a | a in assignments[..i] && a.env == template && a.tag in tags && t.HasGroup(a.build, PendingGroup) :: a.build
        invariant builds == FailBuilds(before, invalidated)
        invariant active == old(active)
      {
        var a := assignments[i];
        assert assignments[..i + 1] == assignments[..i] + [a];
        if a.env == template && a.tag in tags && a.build in before && Group(before[a.build].status) == PendingGroup {
          builds := builds[a.build := before[a.build].(status := Failed)];
          invalidated := invalidated + {a.build};
        }
      }
      assert assignments[..|assignments|] == assignments;
      assert invalidated == Unstarted(t, template, tags);
      active := active - invalidated;
    }

    method CreateTemplateBuild(build: BuildId, status: BuildStatus) returns (r: Result<(), SqlError>)
      modifies this`builds
      ensures r.Ok? <==> build !in old(builds)
      ensures builds == if r.Ok? then old(builds)[build := Build(status, clock)] else old(builds)
    {
      if build in builds { return Err(ConstraintViolation); }
      builds := builds[build := Build(status, clock)];
      return Ok(());
    }

    method CreateTemplateBuildAssignment(env: EnvId, build: BuildId, tag: Tag) returns (r: Result<(), SqlError>)
      modifies this`assignments
      ensures r.Ok? <==> env in envs && build in builds
      ensures State() == Exec(old(State()), Statement.CreateTemplateBuildAssignment(env, build, tag))
    {
      if env !in envs || build !in builds { return Err(ConstraintViolation); }
      assignments := assignments + [Assignment(env, build, tag, clock)];
      return Ok(());
    }

    method CreateActiveTemplateBuild(build: BuildId, team: TeamId, template: EnvId, tags: seq<Tag>) returns (r: Result<(), SqlError>)
      modifies this`active
      ensures r.Ok? <==> build !in old(active)
      ensures active == if r.Ok? then old(active)[build := ActiveBuild(team, template, tags, clock)] else old(active)
    {
      if build in active { return Err(ConstraintViolation); }
      active := active[build := ActiveBuild(team, template, tags, clock)];
      return Ok(());
    }

    /** One assignment per tag. */
    method CreateTagAssignments(env: EnvId, build: BuildId, tags: seq<Tag>)
      requires env in envs && build in builds
      modifies this`assignments
      ensures assignments == old(assignments) + TagRows(env, build, tags, clock)
    {
      for i := 0 to |tags|
        invariant assignments == old(assignments) + TagRows(env, build, tags[..i], clock)
      {
        var added := CreateTemplateBuildAssignment(env, build, tags[i]);
        assert tags[..i + 1] == tags[..i] + [tags[i]];
      }
      assert tags[..|tags|] == tags;
    }

    /** The first two statements of a registration. */
    method ClaimTags(template: EnvId, team: TeamId, tags: seq<Tag>)
      modifies this`envs, this`builds, this`active
      ensures template in envs
      ensures State() == InvalidateUnstarted(old(State()), template, tags).(
                envs := if template in old(envs) then old(envs) else old(envs)[template := Env(team, TemplateEnv, clock)])
    {
      ghost var before := State();
      CreateOrUpdateTemplate(template, team);
      InvalidationIgnoresEnvs(before, envs, template, tags);
      InvalidateUnstartedTemplateBuilds(template, tags);
    }

    /** The registration transaction: all of its statements, or none. */
    method RegisterBuild(template: EnvId, team: TeamId, requested: seq<Tag>, build: BuildId) returns (r: Result<(), SqlError>)
      modifies this
      ensures r.Ok? <==> RegisterAccepted(old(State()), build)
      ensures State() == Exec(old(State()), Statement.RegisterBuild(template, team, requested, build))
    {
      var saved := State();
      var tags := if requested == [] then [DEFAULT_TAG] else requested;
      ClaimTags(template, team, tags);
      ghost var cleared := State();
      var created := CreateTemplateBuild(build, Waiting);
      if created.Err? {
        Rollback(saved);
        return Err(ConstraintViolation);
      }
      CreateTagAssignments(template, build, tags);
      assert State() == cleared.(
        builds := cleared.builds[build := Build(Waiting, clock)],
        assignments := saved.assignments + TagRows(template, build, tags, clock));
      r := CreateActiveTemplateBuild(build, team, template, tags);
      if r.Err? { Rollback(saved); }
    }

    // -------------------------------------------------------------- build statuses

    method UpdateEnvBuildStatus(build: BuildId, status: BuildStatus)
      modifies this`builds
      ensures State() == Exec(old(State()), Statement.UpdateEnvBuildStatus(build, status))
    {
      if build in builds {
        builds := builds[build := builds[build].(status := status)];
      }
    }

    method DeleteActiveTemplateBuild(build: BuildId)
      modifies this`active
      ensures State() == Exec(old(State()), Statement.DeleteActiveTemplateBuild(build))
    {
      active := active - {build};
    }

    /** WITH deactivated AS (DELETE ...) UPDATE ...: both halves always run. */
    method FinishTemplateBuild(build: BuildId, status: BuildStatus)
      modifies this`builds, this`active
      ensures State() == Exec(old(State()), Statement.FinishTemplateBuild(build, status))
    {
      DeleteActiveTemplateBuild(build);
      UpdateEnvBuildStatus(build, status);
    }

    method FailTemplateBuildAndDeactivate(build: BuildId, status: BuildStatus)
      modifies this`builds, this`active
      ensures State() == Exec(old(State()), Statement.FailTemplateBuildAndDeactivate(build, status))
    {
      DeleteActiveTemplateBuild(build);
      UpdateEnvBuildStatus(build, status);
    }

    // -------------------------------------------------------------- snapshots

    /** The four CTEs of the upsert; the returned env is the stored one, never the placeholder for a known sandbox. */
    method UpsertSnapshot(p: UpsertParams, build: BuildId) returns (r: Result<(BuildId, EnvId), SqlError>)
      modifies this
      ensures r.Ok? <==> UpsertAccepted(old(State()), p, build)
      ensures r.Ok? ==> r.value == (build, UpsertEnv(old(State()), p))
      ensures State() == Exec(old(State()), Statement.UpsertSnapshot(p, build))
    {
      // new_template: inserted only if no snapshot row exists; RETURNING id is null otherwise
      var newTemplate := if p.sandbox in snapshots then None else Some(p.env);
      if newTemplate.Some? && newTemplate.value in envs { return Err(ConstraintViolation); }
      var envsAfter := if newTemplate.Some? then envs[newTemplate.value := Env(p.team, SnapshotEnv, clock)] else envs;
      // snapshot: COALESCE(new_template id, ''), then ON CONFLICT (sandbox_id) DO UPDATE
      var coalesced := if newTemplate.Some? then newTemplate.value else "";
      var proposed := Snapshot(coalesced, p.base, p.team, p.metadata, p.startedAt);
      var stored := if p.sandbox in snapshots
                    then snapshots[p.sandbox].(metadata := proposed.metadata, startedAt := proposed.startedAt)
                    else proposed;
      if p.sandbox !in snapshots && stored.base !in envsAfter { return Err(ConstraintViolation); }
      // new_build
      if build in builds { return Err(ConstraintViolation); }
      envs := envsAfter;
      snapshots := snapshots[p.sandbox := stored];
      builds := builds[build := Build(p.status, clock)];
      // build_assignment: (template_id of snapshot, build_id of new_build, 'default')
      assignments := assignments + [Assignment(stored.env, build, DEFAULT_TAG, clock)];
      return Ok((build, stored.env));
    }

    method CreateSnapshotTemplateEnv(env: EnvId, team: TeamId, sandbox: SandboxId, build: BuildId, tag: Tag)
      returns (r: Result<EnvId, SqlError>)
      modifies this`envs, this`snapshotTemplates, this`assignments
      ensures r.Ok? <==> SnapshotTemplateAccepted(old(State()), env, build)
      ensures r.Ok? ==> r.value == env
      ensures State() == Exec(old(State()), Statement.CreateSnapshotTemplateEnv(env, team, sandbox, build, tag))
    {
      if env in envs || build !in builds { return Err(ConstraintViolation); }
      envs := envs[env := Env(team, SnapshotTemplateEnv, clock)];
      snapshotTemplates := snapshotTemplates[env := sandbox];
      assignments := assignments + [Assignment(env, build, tag, clock)];
      return Ok(env);
    }

    // -------------------------------------------------------------- deletion

    method DeleteTemplateTags(env: EnvId, tags: seq<Tag>)
      modifies this`assignments
      ensures State() == Exec(old(State()), Statement.DeleteTemplateTags(env, tags))
    {
      assignments := Retain(assignments, (a: Assignment) => !(a.env == env && a.tag in tags));
    }

    method ReadAliasKeys(env: EnvId) returns (keys: seq<string>)
      ensures keys == AliasKeys(aliases, env)
    {
      var mine := Retain(aliases, (x: Alias) => x.env == env);
      keys := [];
      for i := 0 to |mine|
        invariant keys == Map(mine[..i], AliasKey)
      {
        keys := keys + [AliasKey(mine[i])];
      }
      assert mine[..|mine|] == mine;
    }

    /** DELETE FROM envs, with its cascading foreign keys. */
    method RemoveEnvRow(env: EnvId)
      modifies this
      ensures State() == RemoveEnv(old(State()), env)
    {
      envs := envs - {env};
      assignments := Retain(assignments, (a: Assignment) => a.env != env);
      snapshots := map s | s in snapshots && snapshots[s].env != env && snapshots[s].base != env :: snapshots[s];
      snapshotTemplates := snapshotTemplates - {env};
      aliases := Retain(aliases, (x: Alias) => x.env != env);
    }

    /** Deletes the template of the team and returns the alias keys read before the cascade; nothing if there is no such row. */
    method DeleteTemplate(env: EnvId, team: TeamId) returns (keys: seq<string>)
      modifies this
      ensures State() == Exec(old(State()), Statement.DeleteTemplate(env, team))
      ensures keys == if DeleteAccepted(old(State()), env, team) then AliasKeys(old(aliases), env) else []
    {
      keys := [];
      if env in envs && envs[env].team == team {
        keys := ReadAliasKeys(env);
        RemoveEnvRow(env);
      }
    }

    /** The delete step of a kill: the env of the team's snapshot goes, with all that references it. */
    method DeleteSnapshot(sandbox: SandboxId, team: TeamId) returns (r: Result<seq<string>, SqlError>)
      modifies this
      ensures State() == SnapshotDeletion.DeleteSnapshot(old(State()), team, sandbox)
      ensures r.Ok? <==> SnapshotDeletion.HasSnapshot(old(State()), team, sandbox)
      ensures r.Err? ==> r.error == SnapshotNotFound
    {
      if sandbox !in snapshots || snapshots[sandbox].team != team { return Err(SnapshotNotFound); }
      var aliasKeys := DeleteTemplate(snapshots[sandbox].env, team);
      return Ok(aliasKeys);
    }
  }
}
