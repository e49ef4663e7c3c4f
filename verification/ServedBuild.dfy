/** Which ready build a template and tag resolve to, and that it never goes backwards. */
module ServedBuild {
  import opened Wrappers
  import opened Sequences
  import opened Schema

  /** try_cast_uuid: any partial reading of a tag as a build id. */
  type UuidCast = string -> Option<BuildId>

  /** The ON condition: the tag itself, or a tag that reads as the build's own id. */
  predicate Matches(a: Assignment, env: EnvId, tag: Option<Tag>, cast: UuidCast) {
    && a.env == env
    && (a.tag == (if tag.Some? then tag.value else DEFAULT_TAG)
        || (tag.Some? && cast(tag.value) == Some(a.build)))
  }

  function ReadyMatch(t: Tables, env: EnvId, tag: Option<Tag>, cast: UuidCast): Assignment -> bool {
    (a: Assignment) => Matches(a, env, tag, cast) && t.IsReady(a.build)
  }

  /** The joined rows of GetTemplateWithBuildByTag before ORDER BY and LIMIT. */
  function ReadyRows(t: Tables, env: EnvId, tag: Option<Tag>, cast: UuidCast): seq<Assignment> {
    Filter(t.assignments, ReadyMatch(t, env, tag, cast))
  }

  /** The assignment GetTemplateWithBuildByTag serves; paused sandboxes' envs are not templates. */
  function Served(t: Tables, env: EnvId, tag: Option<Tag>, cast: UuidCast): Option<Assignment> {
    if env in t.envs && t.envs[env].source != SnapshotEnv then Newest(ReadyRows(t, env, tag, cast)) else None
  }

  /** The served row is a ready match no other ready match is newer than; nothing is served only if there is none. */
  lemma ServedIsNewestReady(t: Tables, env: EnvId, tag: Option<Tag>, cast: UuidCast)
    requires env in t.envs && t.envs[env].source != SnapshotEnv
    ensures match Served(t, env, tag, cast)
            case None => forall a :: a in t.assignments && Matches(a, env, tag, cast) ==> !t.IsReady(a.build)
            case Some(r) =>
              && r in t.assignments && Matches(r, env, tag, cast) && t.IsReady(r.build)
              && forall a :: a in t.assignments && Matches(a, env, tag, cast) && t.IsReady(a.build) ==> a.createdAt <= r.createdAt
  {
    var rows := ReadyRows(t, env, tag, cast);
    NewestIsMaximal(rows);
    forall a | a in t.assignments && Matches(a, env, tag, cast) && t.IsReady(a.build) ensures a in rows { }
  }

  /** A served row is of the template asked for, of a ready build, and carries the tag asked for or is meant by its id; paused envs serve nothing. */
  lemma ServedIsAskedFor(t: Tables, env: EnvId, tag: Option<Tag>, cast: UuidCast)
    ensures Served(t, env, tag, cast).Some? ==>
              var r := Served(t, env, tag, cast).value;
              && env in t.envs && (t.envs[env].source == TemplateEnv || t.envs[env].source == SnapshotTemplateEnv)
              && r in t.assignments && r.env == env
              && r.build in t.builds && t.builds[r.build].status in {Ready, Uploaded, Success}
              && match tag
                 case None => r.tag == "default"
                 case Some(g) => r.tag == g || cast(g) == Some(r.build)
  {
    NewestIsMaximal(ReadyRows(t, env, tag, cast));
  }

  /** Every ready row of a template under the tag asked for, or of the build the text means, has something at least as new served. */
  lemma AskedForIsServed(t: Tables, env: EnvId, tag: Option<Tag>, cast: UuidCast, a: Assignment)
    requires env in t.envs && (t.envs[env].source == TemplateEnv || t.envs[env].source == SnapshotTemplateEnv)
    requires a in t.assignments && a.env == env
    requires a.build in t.builds && t.builds[a.build].status in {Ready, Uploaded, Success}
    requires match tag
             case None => a.tag == "default"
             case Some(g) => a.tag == g || cast(g) == Some(a.build)
    ensures Served(t, env, tag, cast).Some? && a.createdAt <= Served(t, env, tag, cast).value.createdAt
  {
    NewestIsMaximal(ReadyRows(t, env, tag, cast));
    assert a in ReadyRows(t, env, tag, cast);
  }

  /** Tags are separate: assigning a ready build under one tag leaves the answer for another as it is, unless that one means the build. */
  lemma TagsAreSeparate(t: Tables, env: EnvId, build: BuildId, tag: Tag, other: EnvId, asked: Option<Tag>, cast: UuidCast)
    requires other != env || match asked
                             case None => tag != "default"
                             case Some(g) => g != tag && cast(g) != Some(build)
    ensures Served(Exec(t, CreateTemplateBuildAssignment(env, build, tag)), other, asked, cast) == Served(t, other, asked, cast)
  {
    var s := CreateTemplateBuildAssignment(env, build, tag);
    ExecAppends(t, s);
    SameReadyRows(t, Exec(t, s), AddedRows(t, s), other, asked, cast);
  }

  /** Served at least as new after as before. */
  predicate NotOlder(before: Option<Assignment>, after: Option<Assignment>) {
    before.Some? ==> after.Some? && before.value.createdAt <= after.value.createdAt
  }

  /** The build whose status a statement writes, with the new status. */
  function StatusWrite(s: Statement): Option<(BuildId, BuildStatus)> {
    match s
    case UpdateEnvBuildStatus(b, status) => Some((b, status))
    case FinishTemplateBuild(b, status) => Some((b, status))
    case FailTemplateBuildAndDeactivate(b, status) => Some((b, status))
    case _ => None
  }

  /** The statement makes a build ready that was not. */
  predicate Readies(t: Tables, s: Statement, b: BuildId) {
    && StatusWrite(s).Some? && StatusWrite(s).value.0 == b && Group(StatusWrite(s).value.1) == ReadyGroup
    && b in t.builds && !t.IsReady(b)
  }

  /** The statement takes back readiness, tags or a template somewhere. */
  predicate TakesBack(t: Tables, s: Statement) {
    || s.DeleteTemplateTags? || s.DeleteTemplate?
    || (StatusWrite(s).Some? && t.IsReady(StatusWrite(s).value.0) && Group(StatusWrite(s).value.1) != ReadyGroup)
  }

  /** The statement takes back what this template and tag are served: the build's readiness, all its rows of that time, or the template. */
  ghost predicate Retracts(t: Tables, s: Statement, env: EnvId, tag: Option<Tag>, cast: UuidCast) {
    Served(t, env, tag, cast).Some? &&
    var row := Served(t, env, tag, cast).value;
    match s
    case DeleteTemplateTags(e, tags) =>
      e == env && forall a :: a in t.assignments && ReadyMatch(t, env, tag, cast)(a) && a.createdAt == row.createdAt ==> a.tag in tags
    case DeleteTemplate(e, team) => e == env && DeleteAccepted(t, e, team)
    case _ => StatusWrite(s).Some? && StatusWrite(s).value.0 == row.build && Group(StatusWrite(s).value.1) != ReadyGroup
  }

  /** The statement gives a build that is ready from the start a new assignment. */
  predicate AssignsReady(t: Tables, s: Statement) {
    match s
    case UpsertSnapshot(p, _) => Group(p.status) == ReadyGroup
    case CreateSnapshotTemplateEnv(_, _, _, b, _) => t.IsReady(b)
    case CreateTemplateBuildAssignment(_, b, _) => t.IsReady(b)
    case _ => false
  }

  /** Appended rows that cannot be served, and statuses that keep readiness, leave the ready rows as they are. */
  lemma SameReadyRows(t: Tables, after: Tables, added: seq<Assignment>, env: EnvId, tag: Option<Tag>, cast: UuidCast)
    requires after.assignments == t.assignments + added
    requires forall a :: a in t.assignments ==> (after.IsReady(a.build) <==> t.IsReady(a.build))
    requires forall a :: a in added ==> !after.IsReady(a.build) || !Matches(a, env, tag, cast)
    ensures ReadyRows(after, env, tag, cast) == ReadyRows(t, env, tag, cast)
  {
    var keep := ReadyMatch(after, env, tag, cast);
    FilterAppend(t.assignments, added, keep);
    FilterNothing(added, keep);
    FilterCongruent(t.assignments, ReadyMatch(t, env, tag, cast), keep);
  }

  /** Rows of an env that does not exist yet: there are none. */
  lemma NoRowsWithoutEnv(t: Tables, env: EnvId, tag: Option<Tag>, cast: UuidCast)
    requires ReferencesResolve(t) && env !in t.envs
    ensures ReadyRows(t, env, tag, cast) == []
  {
    FilterNothing(t.assignments, ReadyMatch(t, env, tag, cast));
  }

  /** Readiness changes only through status writes and for new builds. */
  lemma ExecReadiness(t: Tables, s: Statement, c: BuildId)
    requires c in t.builds
    ensures Exec(t, s).IsReady(c) <==>
            if StatusWrite(s).Some? && StatusWrite(s).value.0 == c then Group(StatusWrite(s).value.1) == ReadyGroup else t.IsReady(c)
  {
    if s.RegisterBuild? && RegisterAccepted(t, s.build) {
      var gone := Unstarted(t, s.template, EffectiveTags(s.tags));
      assert Exec(t, s).builds == FailBuilds(t.builds, gone)[s.build := Build(Waiting, t.clock)];
      assert c in gone ==> t.HasGroup(c, PendingGroup);
    }
  }

  /** Registering, invalidating, starting or failing builds that are not ready changes no answer. */
  lemma QuietStatementsServeTheSame(t: Tables, s: Statement, env: EnvId, tag: Option<Tag>, cast: UuidCast)
    requires ReferencesResolve(t)
    requires !TakesBack(t, s) && !AssignsReady(t, s) && forall b :: !Readies(t, s, b)
    ensures Served(Exec(t, s), env, tag, cast) == Served(t, env, tag, cast)
  {
    var after := Exec(t, s);
    if env !in t.envs { NoRowsWithoutEnv(t, env, tag, cast); }
    ExecAppends(t, s);
    forall a | a in t.assignments ensures after.IsReady(a.build) <==> t.IsReady(a.build) {
      ExecReadiness(t, s, a.build);
      assert !Readies(t, s, a.build);
    }
    forall a | a in AddedRows(t, s) ensures !after.IsReady(a.build) {
      if s.CreateSnapshotTemplateEnv? || s.CreateTemplateBuildAssignment? { ExecReadiness(t, s, a.build); }
    }
    SameReadyRows(t, after, AddedRows(t, s), env, tag, cast);
  }

  /** Dropping the rows of a build that was not ready gives the earlier rows. */
  lemma WithoutBuild(t: Tables, after: Tables, b: BuildId, env: EnvId, tag: Option<Tag>, cast: UuidCast)
    requires after.assignments == t.assignments
    requires !t.IsReady(b)
    requires forall c :: c != b ==> (after.IsReady(c) <==> t.IsReady(c))
    ensures ReadyRows(t, env, tag, cast) == Filter(ReadyRows(after, env, tag, cast), (a: Assignment) => a.build != b)
  {
    FilterFilter(t.assignments, ReadyMatch(after, env, tag, cast), (a: Assignment) => a.build != b, ReadyMatch(t, env, tag, cast));
  }

  /** The newest row with and without the rows of one build. */
  lemma NewestWithBuild(rows: seq<Assignment>, b: BuildId, clock: int)
    requires Chronological(rows, clock)
    ensures var was, now := Newest(Filter(rows, (a: Assignment) => a.build != b)), Newest(rows);
            && (now != was ==> now.Some? && now.value.build == b && (was.Some? ==> was.value.createdAt < now.value.createdAt))
            && (now != was <==> exists a :: a in rows && a.build == b && (was.Some? ==> was.value.createdAt < a.createdAt))
  {
    var others := (a: Assignment) => a.build != b;
    var kept := Filter(rows, others);
    var was, now := Newest(kept), Newest(rows);
    ChronologicalFilter(rows, others, clock);
    NewestIsLast(rows, clock);
    NewestIsLast(kept, clock);
    NewestIsMaximal(rows);
    if rows != [] && now.value.build != b {
      assert kept == Filter(rows[..|rows| - 1], others) + [now.value];
    } else if rows != [] {
      assert now.value in rows && now.value.build == b;
      assert was.Some? ==> was.value in rows && was.value.build != b;
    }
  }

  /** Making a build ready switches an answer only to that build, and exactly when it has a newer match than the served one. */
  lemma FinishingServesOnlyNewer(t: Tables, s: Statement, b: BuildId, env: EnvId, tag: Option<Tag>, cast: UuidCast)
    requires Chronological(t.assignments, t.clock) && Readies(t, s, b)
    requires env in t.envs && t.envs[env].source != SnapshotEnv
    ensures var was, now := Served(t, env, tag, cast), Served(Exec(t, s), env, tag, cast);
            && (now != was ==> now.Some? && now.value.build == b && (was.Some? ==> was.value.createdAt < now.value.createdAt))
            && (now != was <==> exists a :: a in t.assignments && Matches(a, env, tag, cast) && a.build == b
                                            && (was.Some? ==> was.value.createdAt < a.createdAt))
  {
    var after := Exec(t, s);
    assert after.assignments == t.assignments && after.envs == t.envs;
    WithoutBuild(t, after, b, env, tag, cast);
    var rows := ReadyRows(after, env, tag, cast);
    ChronologicalFilter(t.assignments, ReadyMatch(after, env, tag, cast), t.clock);
    NewestWithBuild(rows, b, t.clock);
    assert forall a: Assignment :: a.build == b ==> (a in rows <==> a in t.assignments && Matches(a, env, tag, cast));
  }

  /** A new assignment of a ready build is at once what its template and tag serve, and touches no other answer. */
  lemma AssigningReadyServesIt(t: Tables, s: Statement, env: EnvId, tag: Option<Tag>, cast: UuidCast, before: int)
    requires Chronological(t.assignments, before) && before < t.clock && ReferencesResolve(t)
    requires s.CreateSnapshotTemplateEnv? || s.CreateTemplateBuildAssignment?
    requires t.IsReady(s.build) && AddedRows(t, s) != []
    requires env in Exec(t, s).envs && Exec(t, s).envs[env].source != SnapshotEnv
    ensures var row := AddedRows(t, s)[0];
            Served(Exec(t, s), env, tag, cast) == if Matches(row, env, tag, cast) then Some(row) else Served(t, env, tag, cast)
  {
    var after, row := Exec(t, s), AddedRows(t, s)[0];
    ExecAppends(t, s);
    assert AddedRows(t, s) == [row];
    NewestReadyAppended(t, after, row, env, tag, cast);
    if env !in t.envs { NoRowsWithoutEnv(t, env, tag, cast); }
  }

  lemma NewestReadyAppended(t: Tables, after: Tables, row: Assignment, env: EnvId, tag: Option<Tag>, cast: UuidCast)
    requires after.assignments == t.assignments + [row] && after.builds == t.builds && t.IsReady(row.build)
    requires forall a :: a in t.assignments ==> a.createdAt <= row.createdAt
    ensures Newest(ReadyRows(after, env, tag, cast))
            == if Matches(row, env, tag, cast) then Some(row) else Newest(ReadyRows(t, env, tag, cast))
  {
    var keep := ReadyMatch(after, env, tag, cast);
    FilterAppend(t.assignments, [row], keep);
    FilterCongruent(t.assignments, ReadyMatch(t, env, tag, cast), keep);
    var rows := ReadyRows(t, env, tag, cast);
    assert [row][..0] == [];
    assert Filter([row], keep) == if keep(row) then [row] else [];
    NewestAfterAppend(rows, row);
  }

  /** A template and tag are served at least as new a row once some ready match is as new. */
  lemma NotOlderByRow(before: Option<Assignment>, after: Tables, env: EnvId, tag: Option<Tag>, cast: UuidCast, a: Assignment)
    requires before.Some? && before.value.createdAt <= a.createdAt
    requires a in after.assignments && ReadyMatch(after, env, tag, cast)(a)
    requires env in after.envs && after.envs[env].source != SnapshotEnv
    ensures NotOlder(before, Served(after, env, tag, cast))
  {
    NewestIsMaximal(ReadyRows(after, env, tag, cast));
    assert a in ReadyRows(after, env, tag, cast);
  }

  /** Without a retraction some ready match stays that is as new. */
  lemma KeptIsNotOlder(t: Tables, s: Statement, env: EnvId, tag: Option<Tag>, cast: UuidCast)
    requires ReferencesResolve(t) && !Retracts(t, s, env, tag, cast)
    ensures NotOlder(Served(t, env, tag, cast), Served(Exec(t, s), env, tag, cast))
  {
    var was := Served(t, env, tag, cast);
    if was.Some? {
      var after, row := Exec(t, s), was.value;
      NewestIsMaximal(ReadyRows(t, env, tag, cast));
      if s.DeleteTemplateTags? {
        var a := if s.env != env then row
                 else var a :| a in t.assignments && ReadyMatch(t, env, tag, cast)(a) && a.createdAt == row.createdAt && a.tag !in s.tags; a;
        NotOlderByRow(was, after, env, tag, cast, a);
      } else if s.DeleteTemplate? {
        NotOlderByRow(was, after, env, tag, cast, row);
      } else {
        ExecAppends(t, s);
        ExecReadiness(t, s, row.build);
        NotOlderByRow(was, after, env, tag, cast, row);
      }
    }
  }

  /** In chronological rows the rows of one time have one build. */
  lemma SameTimeSameBuild(rows: seq<Assignment>, clock: int, a: Assignment, b: Assignment)
    requires Chronological(rows, clock) && a in rows && b in rows && a.createdAt == b.createdAt
    ensures a.build == b.build
  {
    var i :| 0 <= i < |rows| && rows[i] == a;
    var j :| 0 <= j < |rows| && rows[j] == b;
    assert i < j || j < i || i == j;
  }

  /** After a retraction every ready match is older. */
  lemma RetractedIsOlder(t: Tables, s: Statement, env: EnvId, tag: Option<Tag>, cast: UuidCast)
    requires ReferencesResolve(t) && Chronological(t.assignments, t.clock) && Retracts(t, s, env, tag, cast)
    ensures !NotOlder(Served(t, env, tag, cast), Served(Exec(t, s), env, tag, cast))
  {
    var after, row := Exec(t, s), Served(t, env, tag, cast).value;
    NewestIsMaximal(ReadyRows(t, env, tag, cast));
    NewestIsMaximal(ReadyRows(after, env, tag, cast));
    if !s.DeleteTemplate? {
      forall a | a in ReadyRows(after, env, tag, cast) ensures a.createdAt < row.createdAt {
        assert a in t.assignments;
        if StatusWrite(s).Some? {
          ExecReadiness(t, s, a.build);
          if a.createdAt == row.createdAt { SameTimeSameBuild(t.assignments, t.clock, a, row); }
        }
        assert a in ReadyRows(t, env, tag, cast);
      }
    }
  }

  /** One statement makes the served assignment older, or takes it away, exactly when it retracts it. */
  lemma ServedNeverOlder(t: Tables, s: Statement, env: EnvId, tag: Option<Tag>, cast: UuidCast)
    requires ReferencesResolve(t) && Chronological(t.assignments, t.clock)
    ensures NotOlder(Served(t, env, tag, cast), Served(Exec(t, s), env, tag, cast)) <==> !Retracts(t, s, env, tag, cast)
  {
    if Retracts(t, s, env, tag, cast) {
      RetractedIsOlder(t, s, env, tag, cast);
    } else {
      KeptIsNotOlder(t, s, env, tag, cast);
    }
  }

  ghost predicate NeverRetracts(t: Tables, events: seq<Event>, env: EnvId, tag: Option<Tag>, cast: UuidCast)
    decreases |events|
  {
    events != [] ==> !Retracts(Tick(t, events[0]), events[0].stmt, env, tag, cast)
                     && NeverRetracts(Apply(t, events[0]), events[1..], env, tag, cast)
  }

  ghost predicate NeverOlder(t: Tables, events: seq<Event>, env: EnvId, tag: Option<Tag>, cast: UuidCast)
    decreases |events|
  {
    events != [] ==> NotOlder(Served(t, env, tag, cast), Served(Apply(t, events[0]), env, tag, cast))
                     && NeverOlder(Apply(t, events[0]), events[1..], env, tag, cast)
  }

  lemma TickServesTheSame(t: Tables, e: Event, env: EnvId, tag: Option<Tag>, cast: UuidCast)
    ensures Served(Tick(t, e), env, tag, cast) == Served(t, env, tag, cast)
  {
    SameReadyRows(t, Tick(t, e), [], env, tag, cast);
  }

  lemma ExecKeepsClock(t: Tables, s: Statement)
    ensures Exec(t, s).clock == t.clock
  {
  }

  lemma EventKeepsTables(t: Tables, e: Event)
    requires ReferencesResolve(t) && Chronological(t.assignments, t.clock)
    ensures ReferencesResolve(Apply(t, e)) && Chronological(Apply(t, e).assignments, Apply(t, e).clock)
  {
    ExecResolves(Tick(t, e), e.stmt);
    ExecChronological(Tick(t, e), e.stmt, t.clock);
    ExecKeepsClock(Tick(t, e), e.stmt);
  }

  /** Over a run the served assignment never gets older exactly when no statement retracts it; then it is at the end at least as new. */
  lemma {:induction false} ServedNeverGoesBack(t: Tables, events: seq<Event>, env: EnvId, tag: Option<Tag>, cast: UuidCast)
    requires ReferencesResolve(t) && Chronological(t.assignments, t.clock)
    ensures NeverOlder(t, events, env, tag, cast) <==> NeverRetracts(t, events, env, tag, cast)
    ensures NeverRetracts(t, events, env, tag, cast) ==> NotOlder(Served(t, env, tag, cast), Served(Run(t, events), env, tag, cast))
    decreases |events|
  {
    if events != [] {
      var seen := Tick(t, events[0]);
      TickServesTheSame(t, events[0], env, tag, cast);
      EventKeepsTables(t, events[0]);
      assert ReferencesResolve(seen) && Chronological(seen.assignments, seen.clock);
      ServedNeverOlder(seen, events[0].stmt, env, tag, cast);
      ServedNeverGoesBack(Apply(t, events[0]), events[1..], env, tag, cast);
    }
  }

  /** Failing a served build is a retraction: the answer falls back to an older assignment of another build, or to none. */
  lemma FailingServedBuildGoesBack(t: Tables, env: EnvId, tag: Option<Tag>, cast: UuidCast)
    requires Chronological(t.assignments, t.clock) && Served(t, env, tag, cast).Some?
    ensures var was := Served(t, env, tag, cast).value;
            var now := Served(Exec(t, FailTemplateBuildAndDeactivate(was.build, Failed)), env, tag, cast);
            now.Some? ==> now.value.createdAt < was.createdAt && now.value.build != was.build
  {
    var rows := ReadyRows(t, env, tag, cast);
    NewestIsMaximal(rows);
    var b := Served(t, env, tag, cast).value.build;
    var after := Exec(t, FailTemplateBuildAndDeactivate(b, Failed));
    assert after.assignments == t.assignments && after.envs == t.envs;
    WithoutBuild(after, t, b, env, tag, cast);
    ChronologicalFilter(t.assignments, ReadyMatch(t, env, tag, cast), t.clock);
    NewestWithBuild(rows, b, t.clock);
    NewestIsMaximal(Filter(rows, (a: Assignment) => a.build != b));
  }
}
