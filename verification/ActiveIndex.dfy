/**
 The active_template_builds table is an index over env_builds: it should list the
 registered builds that are still pending or in progress, and nothing else.
 */
module ActiveIndex {
  import opened Sequences
  import opened Schema

  /** What each registration committed, by build: the reference the index is compared with. */
  type RegistrationLog = map<BuildId, ActiveBuild>

  /** The log after one statement; `t` is the state that statement sees. */
  function Logged(t: Tables, log: RegistrationLog, s: Statement): RegistrationLog {
    match s
    case RegisterBuild(template, team, tags, build) =>
      if RegisterAccepted(t, build)
      then log[build := ActiveBuild(team, template, EffectiveTags(tags), t.clock)]
      else log
    case _ => log
  }

  /** A build has an index row exactly while it is registered and pending or in progress, with the registered values. */
  ghost predicate RowAgrees(t: Tables, log: RegistrationLog, b: BuildId) {
    && (b in t.active <==> b in log && b in t.builds && IsActive(t.builds[b].status))
    && (b in t.active ==> t.active[b] == log[b])
  }

  ghost predicate Agrees(t: Tables, log: RegistrationLog) {
    log.Keys <= t.builds.Keys && forall b :: RowAgrees(t, log, b)
  }

  /** What a caller can check before a statement about a registered build. */
  predicate Guarded(t: Tables, log: RegistrationLog, s: Statement)
    requires log.Keys <= t.builds.Keys
  {
    match s
    case UpdateEnvBuildStatus(build, status) =>
      build in log ==> IsActive(status) == IsActive(t.builds[build].status)
    case FinishTemplateBuild(build, status) => build in log ==> !IsActive(status)
    case FailTemplateBuildAndDeactivate(build, status) => build in log ==> !IsActive(status)
    case DeleteActiveTemplateBuild(build) => build in log ==> !IsActive(t.builds[build].status)
    case _ => true
  }

  lemma RegisterAgrees(t: Tables, log: RegistrationLog, s: Statement)
    requires Agrees(t, log) && s.RegisterBuild?
    ensures Agrees(Exec(t, s), Logged(t, log, s))
  {
    var after, logged := Exec(t, s), Logged(t, log, s);
    if RegisterAccepted(t, s.build) {
      var gone := Unstarted(t, s.template, EffectiveTags(s.tags));
      assert after.builds == FailBuilds(t.builds, gone)[s.build := Build(Waiting, t.clock)];
      forall b ensures RowAgrees(after, logged, b) {
        assert RowAgrees(t, log, b);
        assert b in gone ==> t.HasGroup(b, PendingGroup);
      }
    }
  }

  lemma StatusAgrees(t: Tables, log: RegistrationLog, s: Statement)
    requires Agrees(t, log)
    requires s.UpdateEnvBuildStatus? || s.FinishTemplateBuild? || s.FailTemplateBuildAndDeactivate? || s.DeleteActiveTemplateBuild?
    ensures Agrees(Exec(t, s), log) <==> Guarded(t, log, s)
  {
    var after := Exec(t, s);
    assert forall b :: RowAgrees(t, log, b);
    forall b | b != s.build ensures RowAgrees(after, log, b) {
      OtherRowsAgree(t, log, s, b);
    }
    TargetRowAgrees(t, log, s);
    assert after.builds.Keys == t.builds.Keys;
  }

  lemma TargetRowAgrees(t: Tables, log: RegistrationLog, s: Statement)
    requires s.UpdateEnvBuildStatus? || s.FinishTemplateBuild? || s.FailTemplateBuildAndDeactivate? || s.DeleteActiveTemplateBuild?
    requires log.Keys <= t.builds.Keys && RowAgrees(t, log, s.build)
    ensures RowAgrees(Exec(t, s), log, s.build) <==> Guarded(t, log, s)
  {
  }

  lemma OtherRowsAgree(t: Tables, log: RegistrationLog, s: Statement, b: BuildId)
    requires RowAgrees(t, log, b)
    requires s.UpdateEnvBuildStatus? || s.FinishTemplateBuild? || s.FailTemplateBuildAndDeactivate? || s.DeleteActiveTemplateBuild?
    requires b != s.build
    ensures RowAgrees(Exec(t, s), log, b)
  {
  }

  /** One statement keeps the index in agreement with the build statuses exactly when it is guarded. */
  lemma StepAgrees(t: Tables, log: RegistrationLog, s: Statement)
    requires Agrees(t, log)
    ensures Agrees(Exec(t, s), Logged(t, log, s)) <==> Guarded(t, log, s)
  {
    match s
    case RegisterBuild(_, _, _, _) => RegisterAgrees(t, log, s);
    case UpdateEnvBuildStatus(_, _) => StatusAgrees(t, log, s);
    case FinishTemplateBuild(_, _) => StatusAgrees(t, log, s);
    case FailTemplateBuildAndDeactivate(_, _) => StatusAgrees(t, log, s);
    case DeleteActiveTemplateBuild(_) => StatusAgrees(t, log, s);
    case UpsertSnapshot(p, build) =>
      forall b ensures RowAgrees(Exec(t, s), log, b) { assert RowAgrees(t, log, b); }
    case _ =>
      assert Exec(t, s).builds == t.builds && Exec(t, s).active == t.active;
      forall b ensures RowAgrees(Exec(t, s), log, b) { assert RowAgrees(t, log, b); }
  }

  // ---------------------------------------------------------------- whole runs

  function RunLog(t: Tables, log: RegistrationLog, events: seq<Event>): RegistrationLog
    decreases |events|
  {
    if events == [] then log
    else RunLog(Apply(t, events[0]), Logged(Tick(t, events[0]), log, events[0].stmt), events[1..])
  }

  ghost predicate AgreesThroughout(t: Tables, log: RegistrationLog, events: seq<Event>)
    decreases |events|
  {
    Agrees(t, log)
    && (events != [] ==>
          AgreesThroughout(Apply(t, events[0]), Logged(Tick(t, events[0]), log, events[0].stmt), events[1..]))
  }

  ghost predicate GuardedThroughout(t: Tables, log: RegistrationLog, events: seq<Event>)
    decreases |events|
  {
    log.Keys <= t.builds.Keys
    && (events != [] ==>
          Guarded(Tick(t, events[0]), log, events[0].stmt)
          && GuardedThroughout(Apply(t, events[0]), Logged(Tick(t, events[0]), log, events[0].stmt), events[1..]))
  }

  /** Over a whole run the index agrees in every state passed through exactly when every statement is guarded. */
  lemma {:induction false} IndexAgreesThroughout(t: Tables, log: RegistrationLog, events: seq<Event>)
    requires Agrees(t, log)
    ensures AgreesThroughout(t, log, events) <==> GuardedThroughout(t, log, events)
    decreases |events|
  {
    if events != [] {
      var seen := Tick(t, events[0]);
      forall b ensures RowAgrees(seen, log, b) { assert RowAgrees(t, log, b); }
      StepAgrees(seen, log, events[0].stmt);
      var after, logged := Apply(t, events[0]), Logged(seen, log, events[0].stmt);
      if Agrees(after, logged) {
        IndexAgreesThroughout(after, logged, events[1..]);
      }
    }
  }

  lemma {:induction false} AgreesAtEnd(t: Tables, log: RegistrationLog, events: seq<Event>)
    requires AgreesThroughout(t, log, events)
    ensures Agrees(Run(t, events), RunLog(t, log, events))
    decreases |events|
  {
    if events != [] {
      AgreesAtEnd(Apply(t, events[0]), Logged(Tick(t, events[0]), log, events[0].stmt), events[1..]);
    }
  }

  // ---------------------------------------------------------------- the count

  /** INTERVAL '1 day' in microseconds, the resolution of timestamptz. */
  const DAY := 86_400_000_000

  predicate Overlaps(a: seq<Tag>, b: seq<Tag>) {
    exists x :: x in a && x in b
  }

  /** The WHERE clause of GetInProgressTemplateBuildsByTeam. */
  predicate Counts(row: ActiveBuild, now: int, team: TeamId, excludeTemplate: EnvId, excludeTags: seq<Tag>) {
    && row.team == team
    && row.createdAt > now - DAY
    && !(row.template == excludeTemplate && Overlaps(row.tags, excludeTags))
  }

  function CountedRows(t: Tables, now: int, team: TeamId, excludeTemplate: EnvId, excludeTags: seq<Tag>): set<BuildId> {
    set b | b in t.active && Counts(t.active[b], now, team, excludeTemplate, excludeTags)
  }

  function InProgressByTeam(t: Tables, now: int, team: TeamId, excludeTemplate: EnvId, excludeTags: seq<Tag>): nat {
    |CountedRows(t, now, team, excludeTemplate, excludeTags)|
  }

  /** The builds to count, taken from the registrations and the build statuses instead. */
  function RecomputedRows(t: Tables, log: RegistrationLog, now: int, team: TeamId, excludeTemplate: EnvId, excludeTags: seq<Tag>): set<BuildId> {
    set b | b in log && b in t.builds && IsActive(t.builds[b].status) && Counts(log[b], now, team, excludeTemplate, excludeTags)
  }

  /** After every guarded run from the empty database the fast count is the recomputed one. */
  lemma CountIsExact(events: seq<Event>, now: int, team: TeamId, excludeTemplate: EnvId, excludeTags: seq<Tag>)
    requires GuardedThroughout(EMPTY_TABLES, map[], events)
    ensures var t := Run(EMPTY_TABLES, events);
            InProgressByTeam(t, now, team, excludeTemplate, excludeTags)
            == |RecomputedRows(t, RunLog(EMPTY_TABLES, map[], events), now, team, excludeTemplate, excludeTags)|
  {
    IndexAgreesThroughout(EMPTY_TABLES, map[], events);
    AgreesAtEnd(EMPTY_TABLES, map[], events);
    var t, log := Run(EMPTY_TABLES, events), RunLog(EMPTY_TABLES, map[], events);
    var fast := CountedRows(t, now, team, excludeTemplate, excludeTags);
    var slow := RecomputedRows(t, log, now, team, excludeTemplate, excludeTags);
    forall b: BuildId ensures b in fast <==> b in slow { assert RowAgrees(t, log, b); }
    assert fast == slow;
  }

  /** The registered builds of a team that have not ended, younger than a day. */
  function Unfinished(t: Tables, log: RegistrationLog, now: int, team: TeamId): set<BuildId> {
    set b | b in log && b in t.builds && t.builds[b].status in {Pending, Waiting, InProgress, Building, BuildStatus.Snapshotting}
            && log[b].team == team && now - log[b].createdAt < 24 * 3600 * 1_000_000
  }

  /** Those of one template that share a tag with a list. */
  function SharingTag(builds: set<BuildId>, log: RegistrationLog, template: EnvId, tags: seq<Tag>): set<BuildId>
    requires builds <= log.Keys
  {
    set b | b in builds && log[b].template == template && exists i, j :: 0 <= i < |log[b].tags| && 0 <= j < |tags| && log[b].tags[i] == tags[j]
  }

  /**
   The count is that of the team's unfinished builds, less exactly those of the excluded
   template that share a tag with the excluded ones; so excluding tags that no such build
   has changes nothing.
   */
  lemma ExclusionIsExact(t: Tables, log: RegistrationLog, now: int, team: TeamId, excludeTemplate: EnvId, excludeTags: seq<Tag>)
    requires Agrees(t, log)
    ensures var all := Unfinished(t, log, now, team);
            InProgressByTeam(t, now, team, excludeTemplate, excludeTags)
            == |all| - |SharingTag(all, log, excludeTemplate, excludeTags)|
  {
    var all := Unfinished(t, log, now, team);
    var shared, counted := SharingTag(all, log, excludeTemplate, excludeTags), CountedRows(t, now, team, excludeTemplate, excludeTags);
    forall b: BuildId ensures b in counted <==> b in all && b !in shared {
      assert RowAgrees(t, log, b);
      if b in log { OverlapsByIndex(log[b].tags, excludeTags); }
    }
    assert counted == all - shared && shared <= all;
  }

  lemma OverlapsByIndex(a: seq<Tag>, b: seq<Tag>)
    ensures Overlaps(a, b) <==> exists i, j :: 0 <= i < |a| && 0 <= j < |b| && a[i] == b[j]
  {
    if x :| x in a && x in b {
      var i :| 0 <= i < |a| && a[i] == x;
      var j :| 0 <= j < |b| && b[j] == x;
      assert a[i] == b[j];
    }
    if i, j :| 0 <= i < |a| && 0 <= j < |b| && a[i] == b[j] {
      assert a[i] in a && a[i] in b;
    }
  }

  // ---------------------------------------------------------------- the template manager's calls

  function RawStatus(group: StatusGroup): BuildStatus {
    match group
    case PendingGroup => Pending
    case InProgressGroup => Building
    case ReadyGroup => Uploaded
    case FailedGroup => Failed
  }

  predicate IsTerminal(group: StatusGroup) {
    group == ReadyGroup || group == FailedGroup
  }

  /** The statement TemplateManager.SetStatus runs for a requested group. */
  function SetStatusStatement(build: BuildId, group: StatusGroup): Statement {
    if IsTerminal(group)
    then FailTemplateBuildAndDeactivate(build, RawStatus(group))
    else UpdateEnvBuildStatus(build, RawStatus(group))
  }

  /** SetStatus keeps the agreement unless it reopens a registered build that already ended. */
  lemma SetStatusKeepsAgreement(t: Tables, log: RegistrationLog, build: BuildId, group: StatusGroup)
    requires Agrees(t, log)
    ensures Agrees(Exec(t, SetStatusStatement(build, group)), log)
            <==> !(build in log && !IsTerminal(group) && !IsActive(t.builds[build].status))
  {
    StepAgrees(t, log, SetStatusStatement(build, group));
  }

  /** SetFinished always keeps it. */
  lemma SetFinishedKeepsAgreement(t: Tables, log: RegistrationLog, build: BuildId)
    requires Agrees(t, log)
    ensures Agrees(Exec(t, FinishTemplateBuild(build, Uploaded)), log)
    ensures build !in Exec(t, FinishTemplateBuild(build, Uploaded)).active
  {
    StepAgrees(t, log, FinishTemplateBuild(build, Uploaded));
  }

  /** Two registrations of one template and tag: the second fails the first and takes over its place in the index. */
  lemma SecondRegistration(first: BuildId, second: BuildId, template: EnvId, team: TeamId, t1: Tables, e1: Event)
    requires first != second
    requires t1 == Apply(EMPTY_TABLES, Event(0, RegisterBuild(template, team, [], first)))
    requires e1 == Event(0, RegisterBuild(template, team, [], second))
    ensures var t2 := Apply(t1, e1);
            first in t2.builds && t2.active.Keys == {second} && first in Logged(Tick(EMPTY_TABLES, e1), map[], RegisterBuild(template, team, [], first))
  {
    assert t1.assignments == [Assignment(template, first, DEFAULT_TAG, 1)];
    assert t1.active.Keys == {first};
    assert t1.assignments[0] in t1.assignments && t1.HasGroup(first, PendingGroup);
    assert Unstarted(Tick(t1, e1), template, [DEFAULT_TAG]) == {first};
  }

  lemma RunOfThree(t: Tables, log: RegistrationLog, a: Event, b: Event, c: Event)
    ensures var t1 := Apply(t, a); var t2 := Apply(t1, b);
            Run(t, [a, b, c]) == Apply(t2, c)
            && RunLog(t, log, [a, b, c]) ==
                 Logged(Tick(t2, c), Logged(Tick(t1, b), Logged(Tick(t, a), log, a.stmt), b.stmt), c.stmt)
  {
    var t1 := Apply(t, a);
    var t2 := Apply(t1, b);
    var t3 := Apply(t2, c);
    var log1 := Logged(Tick(t, a), log, a.stmt);
    var log2 := Logged(Tick(t1, b), log1, b.stmt);
    var log3 := Logged(Tick(t2, c), log2, c.stmt);
    assert [a, b, c][1..] == [b, c] && [b, c][1..] == [c] && [c][1..] == [];
    assert Run(t3, []) == t3 && RunLog(t3, log3, []) == log3;
    assert Run(t2, [c]) == t3 && RunLog(t2, log2, [c]) == log3;
    assert Run(t1, [b, c]) == t3 && RunLog(t1, log1, [b, c]) == log3;
  }

  /**
   A superseded build that a late caller still marks as building runs without being
   counted: two registrations of one tag, then SetStatus on the first.
   */
  lemma LateStartEscapesTheCount(first: BuildId, second: BuildId, template: EnvId, team: TeamId)
    requires first != second
    ensures var events := [Event(0, RegisterBuild(template, team, [], first)),
                           Event(0, RegisterBuild(template, team, [], second)),
                           Event(0, SetStatusStatement(first, InProgressGroup))];
            var t := Run(EMPTY_TABLES, events);
            && first in t.builds && IsActive(t.builds[first].status) && first !in t.active && t.active.Keys == {second}
            && !Agrees(t, RunLog(EMPTY_TABLES, map[], events))
  {
    var e0 := Event(0, RegisterBuild(template, team, [], first));
    var e1 := Event(0, RegisterBuild(template, team, [], second));
    var e2 := Event(0, SetStatusStatement(first, InProgressGroup));
    RunOfThree(EMPTY_TABLES, map[], e0, e1, e2);
    SecondRegistration(first, second, template, team, Apply(EMPTY_TABLES, e0), e1);
    assert !RowAgrees(Run(EMPTY_TABLES, [e0, e1, e2]), RunLog(EMPTY_TABLES, map[], [e0, e1, e2]), first);
  }

  // ---------------------------------------------------------------- cancelling

  /** The builds GetCancellableTemplateBuildsByTeam lists: active rows joined with their build and env. */
  function Cancellable(t: Tables, now: int, team: TeamId): set<BuildId> {
    set b | b in t.active && b in t.builds && t.active[b].template in t.envs
            && t.active[b].team == team && t.active[b].createdAt > now - DAY
  }

  /** A team can cancel everything that is counted against it exactly when no counted template was deleted. */
  lemma CancellableIsWhatCounts(t: Tables, log: RegistrationLog, now: int, team: TeamId)
    requires Agrees(t, log)
    ensures |Cancellable(t, now, team)| == InProgressByTeam(t, now, team, "", [])
            <==> forall b :: b in CountedRows(t, now, team, "", []) ==> t.active[b].template in t.envs
  {
    var counted := CountedRows(t, now, team, "", []);
    var listed := Cancellable(t, now, team);
    forall b: BuildId ensures b in listed <==> b in counted && t.active[b].template in t.envs { assert RowAgrees(t, log, b); }
    assert listed <= counted;
    if exists b :: b in counted && b !in listed {
      var b :| b in counted && b !in listed;
      CardinalityOfProperSubset(listed, counted, b);
    } else {
      assert listed == counted;
    }
  }

  /** It does fail: after registering a build and deleting its template one build counts and none can be cancelled. */
  lemma DeletedTemplateStillCounts(build: BuildId, template: EnvId, team: TeamId)
    ensures var events := [Event(0, RegisterBuild(template, team, [], build)), Event(0, DeleteTemplate(template, team))];
            var t := Run(EMPTY_TABLES, events);
            InProgressByTeam(t, t.clock, team, "", []) == 1 && Cancellable(t, t.clock, team) == {}
  {
    var e0, e1 := Event(0, RegisterBuild(template, team, [], build)), Event(0, DeleteTemplate(template, team));
    var t := Apply(Apply(EMPTY_TABLES, e0), e1);
    RunOfTwo(EMPTY_TABLES, e0, e1);
    RegisteredAndDeleted(build, template, team, e0, e1);
    assert CountedRows(t, t.clock, team, "", []) == {build};
  }

  lemma RunOfTwo(t: Tables, a: Event, b: Event)
    ensures Run(t, [a, b]) == Apply(Apply(t, a), b)
  {
    assert [a, b][1..] == [b] && [b][1..] == [];
    assert Run(Apply(t, a), [b]) == Run(Apply(Apply(t, a), b), []);
  }

  lemma RegisteredAndDeleted(build: BuildId, template: EnvId, team: TeamId, e0: Event, e1: Event)
    requires e0 == Event(0, RegisterBuild(template, team, [], build)) && e1 == Event(0, DeleteTemplate(template, team))
    ensures var t := Apply(Apply(EMPTY_TABLES, e0), e1);
            template !in t.envs && t.clock == 2 && t.active == map[build := ActiveBuild(team, template, [DEFAULT_TAG], 1)]
  {
    var t1 := Apply(EMPTY_TABLES, e0);
    assert t1.active == map[build := ActiveBuild(team, template, [DEFAULT_TAG], 1)];
    assert t1.envs == map[template := Env(team, TemplateEnv, 1)];
  }

  lemma CardinalityOfProperSubset<T>(a: set<T>, b: set<T>, x: T)
    requires a <= b && x in b && x !in a
    ensures |a| < |b|
  {
    SmallerSet(a, b - {x});
  }
}
