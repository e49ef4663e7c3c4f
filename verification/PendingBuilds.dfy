/** A template and tag have at most one build waiting to start: each registration supersedes the earlier ones. */
module PendingBuilds {
  import opened Schema

  /** `b` is waiting to start under (env, tag). */
  ghost predicate PendingAt(t: Tables, env: EnvId, tag: Tag, b: BuildId) {
    t.HasGroup(b, PendingGroup) && exists a :: a in t.assignments && a.env == env && a.tag == tag && a.build == b
  }

  ghost predicate AtMostOnePending(t: Tables) {
    forall env, tag, b, c :: PendingAt(t, env, tag, b) && PendingAt(t, env, tag, c) ==> b == c
  }

  /** Some other build already waits under a template and tag that `b` is assigned to. */
  ghost predicate Contended(t: Tables, b: BuildId) {
    exists env, tag, c :: c != b && PendingAt(t, env, tag, c)
      && exists a :: a in t.assignments && a.env == env && a.tag == tag && a.build == b
  }

  ghost predicate OtherPendingAt(t: Tables, env: EnvId, tag: Tag, b: BuildId) {
    exists c :: c != b && PendingAt(t, env, tag, c)
  }

  /** What each statement has to meet; registration and deletion meet it always. */
  ghost predicate Safe(t: Tables, s: Statement) {
    match s
    case UpdateEnvBuildStatus(b, status) => b in t.builds && Group(status) == PendingGroup ==> !Contended(t, b)
    case FinishTemplateBuild(b, status) => b in t.builds && Group(status) == PendingGroup ==> !Contended(t, b)
    case FailTemplateBuildAndDeactivate(b, status) => b in t.builds && Group(status) == PendingGroup ==> !Contended(t, b)
    case UpsertSnapshot(p, b) =>
      UpsertAccepted(t, p, b) && Group(p.status) == PendingGroup ==> !OtherPendingAt(t, UpsertEnv(t, p), DEFAULT_TAG, b)
    case CreateTemplateBuildAssignment(env, b, tag) =>
      env in t.envs && t.HasGroup(b, PendingGroup) ==> !OtherPendingAt(t, env, tag, b)
    case _ => true
  }

  /** Registration invalidates every build waiting under its tags, drops it from the active index, and leaves its own. */
  lemma RegisterSupersedes(t: Tables, template: EnvId, team: TeamId, requested: seq<Tag>, build: BuildId)
    requires ReferencesResolve(t) && RegisterAccepted(t, build)
    ensures var after, tags := Exec(t, RegisterBuild(template, team, requested, build)), EffectiveTags(requested);
            && (forall tag, b :: tag in tags ==> (PendingAt(after, template, tag, b) <==> b == build))
            && (forall tag, b :: tag in tags && PendingAt(t, template, tag, b) ==>
                  after.builds[b].status == Failed && b !in after.active)
            && (forall env, tag, b :: !(env == template && tag in tags) && PendingAt(after, env, tag, b) ==> PendingAt(t, env, tag, b))
  {
    var s, tags := RegisterBuild(template, team, requested, build), EffectiveTags(requested);
    var after := Exec(t, s);
    var added := TagRows(template, build, tags, t.clock);
    var gone := Unstarted(t, template, tags);
    assert after.assignments == t.assignments + added;
    assert after.builds == FailBuilds(t.builds, gone)[build := Build(Waiting, t.clock)];
    forall tag, b | tag in tags && PendingAt(t, template, tag, b)
      ensures b in gone && after.builds[b].status == Failed && b !in after.active
    { }
    forall tag | tag in tags ensures PendingAt(after, template, tag, build) {
      var i :| 0 <= i < |tags| && tags[i] == tag;
      assert added[i] in after.assignments;
    }
    forall env, tag, b | PendingAt(after, env, tag, b) && !(env == template && tag in tags && b == build)
      ensures PendingAt(t, env, tag, b) && !(env == template && tag in tags)
    {
      var a :| a in after.assignments && a.env == env && a.tag == tag && a.build == b;
      assert a in added ==> a.env == template && a.tag in tags && a.build == build;
      assert a in t.assignments;
      assert b != build;
    }
  }

  /** The build is assigned to the template under one of the tags of a registration; without tags that is the default one. */
  predicate AssignedUnder(t: Tables, template: EnvId, requested: seq<Tag>, b: BuildId) {
    exists a :: a in t.assignments && a.env == template && a.build == b
                && (if requested == [] then a.tag == "default" else a.tag in requested)
  }

  /**
   What a registration does to every earlier build: one that waits to start and is
   assigned under a registered tag fails and leaves the active index; every other one
   keeps its row and its place in the index.
   */
  lemma RegistrationEffect(t: Tables, template: EnvId, team: TeamId, requested: seq<Tag>, build: BuildId, b: BuildId)
    requires build !in t.builds && build !in t.active
    requires b in t.builds
    ensures var after := Exec(t, RegisterBuild(template, team, requested, build));
            if t.builds[b].status in {Pending, Waiting} && AssignedUnder(t, template, requested, b) then
              after.builds[b] == Build(Failed, t.builds[b].createdAt) && b !in after.active
            else
              after.builds[b] == t.builds[b]
              && (b in after.active <==> b in t.active) && (b in t.active ==> after.active[b] == t.active[b])
  {
    var gone := Unstarted(t, template, EffectiveTags(requested));
    assert b in gone <==> t.builds[b].status in {Pending, Waiting} && AssignedUnder(t, template, requested, b);
  }

  /** What it adds: a waiting build, an index row with the registered tags, and one assignment per tag; the default tag stands for none. */
  lemma RegistrationAdds(t: Tables, template: EnvId, team: TeamId, requested: seq<Tag>, build: BuildId)
    requires build !in t.builds && build !in t.active
    ensures var after := Exec(t, RegisterBuild(template, team, requested, build));
            var tags := if requested == [] then ["default"] else requested;
            && after.builds.Keys == t.builds.Keys + {build} && after.builds[build] == Build(Waiting, t.clock)
            && build in after.active && after.active[build] == ActiveBuild(team, template, tags, t.clock)
            && |after.assignments| == |t.assignments| + |tags| && after.assignments[..|t.assignments|] == t.assignments
            && (forall i :: 0 <= i < |tags| ==> after.assignments[|t.assignments| + i] == Assignment(template, build, tags[i], t.clock))
            && template in after.envs && (template in t.envs ==> after.envs == t.envs)
            && (template !in t.envs ==> after.envs == t.envs[template := Env(team, TemplateEnv, t.clock)])
  {
  }

  /** So a build waiting under other tags only goes on waiting. */
  lemma OtherTagsKeepWaiting(t: Tables, template: EnvId, team: TeamId, requested: seq<Tag>, build: BuildId, env: EnvId, tag: Tag, b: BuildId)
    requires build !in t.builds && build !in t.active
    requires PendingAt(t, env, tag, b) && !AssignedUnder(t, template, requested, b)
    ensures PendingAt(Exec(t, RegisterBuild(template, team, requested, build)), env, tag, b)
  {
    var after := Exec(t, RegisterBuild(template, team, requested, build));
    RegistrationEffect(t, template, team, requested, build, b);
    RegistrationAdds(t, template, team, requested, build);
    var a :| a in t.assignments && a.env == env && a.tag == tag && a.build == b;
    assert a in after.assignments[..|t.assignments|];
  }

  lemma RegisterKeepsOne(t: Tables, s: Statement)
    requires ReferencesResolve(t) && AtMostOnePending(t) && s.RegisterBuild?
    ensures AtMostOnePending(Exec(t, s))
  {
    if RegisterAccepted(t, s.build) {
      RegisterSupersedes(t, s.template, s.team, s.tags, s.build);
    }
  }

  /** A status write: pending rows elsewhere do not move. */
  lemma StatusKeepsOne(t: Tables, after: Tables, b: BuildId, status: BuildStatus)
    requires AtMostOnePending(t) && b in t.builds
    requires after.builds == t.builds[b := t.builds[b].(status := status)] && after.assignments == t.assignments
    ensures AtMostOnePending(after) <==> (Group(status) == PendingGroup ==> !Contended(t, b))
  {
    assert forall env, tag, c :: c != b ==> (PendingAt(after, env, tag, c) <==> PendingAt(t, env, tag, c));
    if Group(status) == PendingGroup && Contended(t, b) {
      var env, tag, c :| c != b && PendingAt(t, env, tag, c)
        && exists a :: a in t.assignments && a.env == env && a.tag == tag && a.build == b;
      assert PendingAt(after, env, tag, b) && PendingAt(after, env, tag, c);
    }
  }

  /** Appending one row for build `b`, whose status may be new. */
  lemma AppendKeepsOne(t: Tables, after: Tables, a: Assignment)
    requires AtMostOnePending(t)
    requires after.assignments == t.assignments + [a]
    requires forall c :: c != a.build ==> (after.HasGroup(c, PendingGroup) <==> t.HasGroup(c, PendingGroup))
    requires t.HasGroup(a.build, PendingGroup) != after.HasGroup(a.build, PendingGroup) ==>
               forall x :: x in t.assignments ==> x.build != a.build
    ensures AtMostOnePending(after)
            <==> (after.HasGroup(a.build, PendingGroup) ==> !OtherPendingAt(t, a.env, a.tag, a.build))
  {
    assert a in after.assignments;
    forall env, tag, c ensures PendingAt(after, env, tag, c)
        <==> PendingAt(t, env, tag, c) || (after.HasGroup(c, PendingGroup) && env == a.env && tag == a.tag && c == a.build)
    {
      if x :| x in after.assignments && x.env == env && x.tag == tag && x.build == c {
        assert x in t.assignments || x == a;
      }
    }
    if after.HasGroup(a.build, PendingGroup) && OtherPendingAt(t, a.env, a.tag, a.build) {
      var c :| c != a.build && PendingAt(t, a.env, a.tag, c);
      assert PendingAt(after, a.env, a.tag, c) && PendingAt(after, a.env, a.tag, a.build);
    }
  }

  lemma FewerRowsKeepOne(t: Tables, after: Tables)
    requires AtMostOnePending(t) && after.builds == t.builds
    requires forall a :: a in after.assignments ==> a in t.assignments
    ensures AtMostOnePending(after)
  {
    assert forall env, tag, b :: PendingAt(after, env, tag, b) ==> PendingAt(t, env, tag, b);
  }

  /** One statement keeps at most one pending build per template and tag exactly when it is safe. */
  lemma StepKeepsOne(t: Tables, s: Statement)
    requires ReferencesResolve(t) && AtMostOnePending(t)
    ensures AtMostOnePending(Exec(t, s)) <==> Safe(t, s)
  {
    var after := Exec(t, s);
    match s
    case RegisterBuild(_, _, _, _) => RegisterKeepsOne(t, s);
    case UpdateEnvBuildStatus(b, status) => if b in t.builds { StatusKeepsOne(t, after, b, status); }
    case FinishTemplateBuild(b, status) =>
      if b in t.builds { StatusKeepsOne(t, after, b, status); } else { FewerRowsKeepOne(t, after); }
    case FailTemplateBuildAndDeactivate(b, status) =>
      if b in t.builds { StatusKeepsOne(t, after, b, status); } else { FewerRowsKeepOne(t, after); }
    case UpsertSnapshot(p, b) =>
      if UpsertAccepted(t, p, b) { AppendKeepsOne(t, after, Assignment(UpsertEnv(t, p), b, DEFAULT_TAG, t.clock)); }
    case CreateSnapshotTemplateEnv(env, team, sandbox, b, tag) =>
      if SnapshotTemplateAccepted(t, env, b) {
        AppendKeepsOne(t, after, Assignment(env, b, tag, t.clock));
        assert !OtherPendingAt(t, env, tag, b);
      }
    case CreateTemplateBuildAssignment(env, b, tag) =>
      if env in t.envs && b in t.builds { AppendKeepsOne(t, after, Assignment(env, b, tag, t.clock)); }
    case DeleteTemplateTags(_, _) => FewerRowsKeepOne(t, after);
    case DeleteTemplate(_, _) => FewerRowsKeepOne(t, after);
    case DeleteActiveTemplateBuild(_) => FewerRowsKeepOne(t, after);
  }

  ghost predicate SafeThroughout(t: Tables, events: seq<Event>)
    decreases |events|
  {
    events != [] ==> Safe(Tick(t, events[0]), events[0].stmt) && SafeThroughout(Apply(t, events[0]), events[1..])
  }

  ghost predicate OnePendingThroughout(t: Tables, events: seq<Event>)
    decreases |events|
  {
    AtMostOnePending(t) && (events != [] ==> OnePendingThroughout(Apply(t, events[0]), events[1..]))
  }

  /** Over a whole run no template and tag ever has two waiting builds exactly when every statement is safe. */
  lemma {:induction false} OnePendingPerTag(t: Tables, events: seq<Event>)
    requires ReferencesResolve(t) && AtMostOnePending(t)
    ensures OnePendingThroughout(t, events) <==> SafeThroughout(t, events)
    decreases |events|
  {
    if events != [] {
      var seen := Tick(t, events[0]);
      FewerRowsKeepOne(t, seen);
      assert ReferencesResolve(seen);
      ExecResolves(seen, events[0].stmt);
      StepKeepsOne(seen, events[0].stmt);
      if AtMostOnePending(Apply(t, events[0])) {
        OnePendingPerTag(Apply(t, events[0]), events[1..]);
      }
    }
  }
}
