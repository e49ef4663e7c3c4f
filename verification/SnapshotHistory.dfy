/**
 Paused sandboxes: GetLastSnapshot over the tables refines a plain history that
 remembers, per sandbox, the builds upserted since it was last deleted.
 */
module SnapshotHistory {
  import opened Wrappers
  import opened Sequences
  import opened Schema
  import opened PausedEnvs

  // ---------------------------------------------------------------- the query

  function DefaultMatch(env: EnvId): Assignment -> bool {
    (a: Assignment) => a.env == env && a.tag == DEFAULT_TAG
  }

  function DefaultRows(t: Tables, env: EnvId): seq<Assignment> {
    Filter(t.assignments, DefaultMatch(env))
  }

  function HasReadyBuild(t: Tables): Assignment -> bool {
    (a: Assignment) => t.IsReady(a.build)
  }

  /** The default-tag rows of an env whose build is ready. */
  function ReadyDefaultRows(t: Tables, env: EnvId): seq<Assignment> {
    Filter(DefaultRows(t, env), HasReadyBuild(t))
  }

  /** The builds of a list of rows, in row order. */
  function Builds(rows: seq<Assignment>): seq<BuildId> {
    Map(rows, (a: Assignment) => a.build)
  }

  datatype LastSnapshotRow = LastSnapshotRow(snapshot: Snapshot, build: BuildId)

  /** GetLastSnapshot: the snapshot row joined with its newest ready default assignment. */
  function GetLastSnapshot(t: Tables, s: SandboxId): Option<LastSnapshotRow> {
    if s !in t.snapshots then None else
    match Newest(ReadyDefaultRows(t, t.snapshots[s].env))
    case None => None
    case Some(a) => Some(LastSnapshotRow(t.snapshots[s], a.build))
  }

  // ---------------------------------------------------------------- the history

  /** A paused sandbox as its upserts describe it; `builds` lists them oldest first. */
  datatype Pause = Pause(row: Snapshot, builds: seq<BuildId>)
  type History = map<SandboxId, Pause>

  function Recorded(t: Tables, h: History, s: Statement): History {
    match s
    case UpsertSnapshot(p, build) =>
      if !UpsertAccepted(t, p, build) then h
      else if p.sandbox in h then
        var was := h[p.sandbox];
        h[p.sandbox := Pause(was.row.(metadata := p.metadata, startedAt := p.startedAt), was.builds + [build])]
      else h[p.sandbox := Pause(Snapshot(p.env, p.base, p.team, p.metadata, p.startedAt), [build])]
    case DeleteTemplate(env, team) =>
      if DeleteAccepted(t, env, team) then map x | x in h && h[x].row.env != env && h[x].row.base != env :: h[x] else h
    case _ => h
  }

  function RunHistory(t: Tables, h: History, events: seq<Event>): History
    decreases |events|
  {
    if events == [] then h
    else RunHistory(Apply(t, events[0]), Recorded(Tick(t, events[0]), h, events[0].stmt), events[1..])
  }

  /** The last build of the list that is ready now. */
  function NewestReady(t: Tables, builds: seq<BuildId>): Option<BuildId> {
    if builds == [] then None
    else if t.IsReady(builds[|builds| - 1]) then Some(builds[|builds| - 1])
    else NewestReady(t, builds[..|builds| - 1])
  }

  /** What the history says GetLastSnapshot should answer. */
  function Expected(t: Tables, h: History, s: SandboxId): Option<LastSnapshotRow> {
    if s !in h then None else
    match NewestReady(t, h[s].builds)
    case None => None
    case Some(b) => Some(LastSnapshotRow(h[s].row, b))
  }

  // ---------------------------------------------------------------- the link

  /** The env whose default-tag rows a statement other than an upsert writes. */
  function DefaultTarget(t: Tables, s: Statement): Option<EnvId> {
    match s
    case RegisterBuild(template, _, tags, build) =>
      if RegisterAccepted(t, build) && DEFAULT_TAG in EffectiveTags(tags) then Some(template) else None
    case CreateTemplateBuildAssignment(env, build, tag) =>
      if env in t.envs && build in t.builds && tag == DEFAULT_TAG then Some(env) else None
    case DeleteTemplateTags(env, tags) => if DEFAULT_TAG in tags then Some(env) else None
    case _ => None
  }

  /** The default tag of a paused sandbox's env is written by snapshot upserts alone. */
  ghost predicate LeavesPausesAlone(t: Tables, s: Statement) {
    DefaultTarget(t, s).Some? ==> !IsPauseEnv(t, DefaultTarget(t, s).value)
  }

  /** The same as callers check it: on the source of the env. */
  predicate AvoidsSnapshotSource(t: Tables, s: Statement) {
    DefaultTarget(t, s).Some? ==> !HasSnapshotSource(t, DefaultTarget(t, s).value)
  }

  /** The callers' check is enough in every reachable state, and exact as long as no paused env has lost its sandbox. */
  lemma SourceCheck(t: Tables, s: Statement)
    requires PausesOwnEnvs(t)
    ensures AvoidsSnapshotSource(t, s) ==> LeavesPausesAlone(t, s)
    ensures NoOrphans(t) ==> (AvoidsSnapshotSource(t, s) <==> LeavesPausesAlone(t, s))
  {
  }

  ghost predicate LinkedAt(t: Tables, h: History, s: SandboxId)
    requires s in t.snapshots && s in h
  {
    h[s].row == t.snapshots[s] && h[s].builds == Builds(DefaultRows(t, h[s].row.env)) && h[s].builds != []
  }

  ghost predicate Linked(t: Tables, h: History) {
    && ReferencesResolve(t)
    && h.Keys == t.snapshots.Keys
    && (forall s :: s in h ==> LinkedAt(t, h, s))
    && (forall r, s :: r in h && s in h && h[r].row.env == h[s].row.env ==> r == s)
  }

  /** Rows appended for other envs or other tags do not show. */
  lemma AppendedElsewhere(t: Tables, after: Tables, added: seq<Assignment>, env: EnvId)
    requires after.assignments == t.assignments + added
    requires forall a :: a in added ==> a.env != env || a.tag != DEFAULT_TAG
    ensures DefaultRows(after, env) == DefaultRows(t, env)
  {
    FilterAppend(t.assignments, added, DefaultMatch(env));
    FilterNothing(added, DefaultMatch(env));
  }

  lemma AppendedHere(t: Tables, after: Tables, a: Assignment)
    requires after.assignments == t.assignments + [a] && a.tag == DEFAULT_TAG
    ensures DefaultRows(after, a.env) == DefaultRows(t, a.env) + [a]
  {
    FilterAppend(t.assignments, [a], DefaultMatch(a.env));
    assert Filter([a], DefaultMatch(a.env)) == Filter([], DefaultMatch(a.env)) + [a] by { assert [a][..0] == []; }
  }

  lemma RemovedElsewhere(t: Tables, after: Tables, keep: Assignment -> bool, env: EnvId)
    requires after.assignments == Filter(t.assignments, keep)
    requires forall a :: a in t.assignments && a.env == env && a.tag == DEFAULT_TAG ==> keep(a)
    ensures DefaultRows(after, env) == DefaultRows(t, env)
  {
    FilterFilter(t.assignments, keep, DefaultMatch(env), DefaultMatch(env));
  }

  /** The upserted sandbox itself: its list grows by the new build, or starts with it. */
  lemma UpsertLinksTarget(t: Tables, h: History, p: UpsertParams, build: BuildId)
    requires Linked(t, h) && UpsertAccepted(t, p, build)
    ensures LinkedAt(Upsert(t, p, build), Recorded(t, h, UpsertSnapshot(p, build)), p.sandbox)
  {
    var added := Assignment(UpsertEnv(t, p), build, DEFAULT_TAG, t.clock);
    AppendedHere(t, Upsert(t, p, build), added);
    if p.sandbox in h {
      assert LinkedAt(t, h, p.sandbox);
    } else {
      NoDefaultRowsWithoutEnv(t, p.env);
    }
  }

  lemma NoDefaultRowsWithoutEnv(t: Tables, env: EnvId)
    requires ReferencesResolve(t) && env !in t.envs
    ensures DefaultRows(t, env) == []
  {
    FilterNothing(t.assignments, DefaultMatch(env));
  }

  lemma UpsertLinksOthers(t: Tables, h: History, p: UpsertParams, build: BuildId, s: SandboxId)
    requires Linked(t, h) && UpsertAccepted(t, p, build)
    requires s in h && s != p.sandbox
    ensures LinkedAt(Upsert(t, p, build), Recorded(t, h, UpsertSnapshot(p, build)), s)
    ensures h[s].row.env != UpsertEnv(t, p)
  {
    assert LinkedAt(t, h, s) && t.snapshots[s].env in t.envs;
    if p.sandbox in h {
      assert LinkedAt(t, h, p.sandbox);
      assert h[p.sandbox].row.env != h[s].row.env;
    }
    var added := Assignment(UpsertEnv(t, p), build, DEFAULT_TAG, t.clock);
    AppendedElsewhere(t, Upsert(t, p, build), [added], h[s].row.env);
  }

  lemma LinkedFromParts(after: Tables, record: History, h: History, target: SandboxId)
    requires ReferencesResolve(after) && record.Keys == after.snapshots.Keys == h.Keys + {target}
    requires LinkedAt(after, record, target)
    requires forall s :: s in h && s != target ==>
               record[s] == h[s] && h[s].row.env != record[target].row.env && LinkedAt(after, record, s)
    requires forall r, s :: r in h && s in h && h[r].row.env == h[s].row.env ==> r == s
    ensures Linked(after, record)
  {
    forall s | s in record ensures LinkedAt(after, record, s) { assert s == target || s in h; }
    forall r, s | r in record && s in record && record[r].row.env == record[s].row.env ensures r == s {
      assert (r == target || r in h) && (s == target || s in h);
    }
  }

  lemma UpsertKeys(t: Tables, h: History, p: UpsertParams, build: BuildId)
    requires Linked(t, h) && UpsertAccepted(t, p, build)
    ensures var after, record := Upsert(t, p, build), Recorded(t, h, UpsertSnapshot(p, build));
            record.Keys == after.snapshots.Keys == h.Keys + {p.sandbox}
            && forall s :: s in h && s != p.sandbox ==> record[s] == h[s]
  {
  }

  lemma UpsertLinks(t: Tables, h: History, p: UpsertParams, build: BuildId)
    requires Linked(t, h) && UpsertAccepted(t, p, build)
    ensures Linked(Upsert(t, p, build), Recorded(t, h, UpsertSnapshot(p, build)))
  {
    var after, record := Upsert(t, p, build), Recorded(t, h, UpsertSnapshot(p, build));
    ExecResolves(t, UpsertSnapshot(p, build));
    UpsertKeys(t, h, p, build);
    UpsertLinksTarget(t, h, p, build);
    UpsertKeepsFirstEnv(t, h, p, build);
    forall s | s in h && s != p.sandbox ensures h[s].row.env != record[p.sandbox].row.env && LinkedAt(after, record, s) {
      UpsertLinksOthers(t, h, p, build, s);
    }
    LinkedFromParts(after, record, h, p.sandbox);
  }

  lemma DeleteLinks(t: Tables, h: History, env: EnvId, team: TeamId)
    requires Linked(t, h)
    ensures Linked(Delete(t, env, team), Recorded(t, h, DeleteTemplate(env, team)))
  {
    var after, record := Delete(t, env, team), Recorded(t, h, DeleteTemplate(env, team));
    ExecResolves(t, DeleteTemplate(env, team));
    if DeleteAccepted(t, env, team) {
      forall s ensures s in record <==> s in after.snapshots {
        assert s in h ==> LinkedAt(t, h, s);
      }
      forall s | s in record ensures LinkedAt(after, record, s) {
        assert LinkedAt(t, h, s);
        RemovedElsewhere(t, after, (a: Assignment) => a.env != env, h[s].row.env);
      }
    }
  }

  /** One statement keeps tables and history linked exactly when it leaves the default rows of paused sandboxes alone. */
  lemma StepLinks(t: Tables, h: History, s: Statement)
    requires Linked(t, h)
    ensures Linked(Exec(t, s), Recorded(t, h, s)) <==> LeavesPausesAlone(t, s)
  {
    if LeavesPausesAlone(t, s) {
      GuardedStepLinks(t, h, s);
    } else {
      var x :| x in t.snapshots && t.snapshots[x].env == DefaultTarget(t, s).value;
      UnguardedRows(t, h, s, x);
    }
  }

  lemma GuardedStepLinks(t: Tables, h: History, s: Statement)
    requires Linked(t, h) && LeavesPausesAlone(t, s)
    ensures Linked(Exec(t, s), Recorded(t, h, s))
  {
    match s
    case UpsertSnapshot(p, build) => if UpsertAccepted(t, p, build) { UpsertLinks(t, h, p, build); }
    case DeleteTemplate(env, team) => DeleteLinks(t, h, env, team);
    case DeleteTemplateTags(env, tags) =>
      ExecResolves(t, s);
      forall x | x in h ensures LinkedAt(Exec(t, s), h, x) {
        assert LinkedAt(t, h, x);
        assert IsPauseEnv(t, h[x].row.env);
        RemovedElsewhere(t, Exec(t, s), (a: Assignment) => !(a.env == env && a.tag in tags), h[x].row.env);
      }
    case _ =>
      ExecResolves(t, s);
      AppendOnlyLinks(t, h, s);
  }

  /** The builds of a paused sandbox's default rows after a statement that does write them: none, or more. */
  lemma UnguardedRows(t: Tables, h: History, s: Statement, x: SandboxId)
    requires Linked(t, h) && x in t.snapshots && DefaultTarget(t, s) == Some(t.snapshots[x].env)
    ensures var after := Exec(t, s);
            && after.snapshots == t.snapshots && Recorded(t, h, s) == h
            && !LinkedAt(after, h, x)
  {
    assert LinkedAt(t, h, x);
    if s.DeleteTemplateTags? {
      DroppedDefaultRows(t, s, t.snapshots[x].env);
    } else {
      MoreDefaultRows(t, s, t.snapshots[x].env);
      assert |DefaultRows(Exec(t, s), t.snapshots[x].env)| > |h[x].builds|;
    }
  }

  lemma DroppedDefaultRows(t: Tables, s: Statement, env: EnvId)
    requires s.DeleteTemplateTags? && DefaultTarget(t, s) == Some(env)
    ensures DefaultRows(Exec(t, s), env) == []
  {
    FilterNothing(Exec(t, s).assignments, DefaultMatch(env));
  }

  /** Some rows are appended, all of the statement's build. */
  lemma MoreDefaultRows(t: Tables, s: Statement, env: EnvId)
    requires !s.DeleteTemplateTags? && DefaultTarget(t, s) == Some(env)
    ensures exists more: seq<Assignment> :: more != [] && (forall a :: a in more ==> a.build == s.build)
                           && DefaultRows(Exec(t, s), env) == DefaultRows(t, env) + more
  {
    ExecAppends(t, s);
    FilterAppend(t.assignments, AddedRows(t, s), DefaultMatch(env));
    DefaultRowAdded(t, s, env);
    var more := Filter(AddedRows(t, s), DefaultMatch(env));
    assert Assignment(env, s.build, DEFAULT_TAG, t.clock) in more;
    assert DefaultRows(Exec(t, s), env) == DefaultRows(t, env) + more;
  }

  lemma DefaultRowAdded(t: Tables, s: Statement, env: EnvId)
    requires !s.DeleteTemplateTags? && DefaultTarget(t, s) == Some(env)
    ensures Assignment(env, s.build, DEFAULT_TAG, t.clock) in AddedRows(t, s)
    ensures forall a :: a in AddedRows(t, s) ==> a.build == s.build
  {
    if s.RegisterBuild? {
      var tags := EffectiveTags(s.tags);
      var k :| 0 <= k < |tags| && tags[k] == DEFAULT_TAG;
      assert AddedRows(t, s)[k] == Assignment(env, s.build, DEFAULT_TAG, t.clock);
    }
  }

  /** Default rows are appended only to the target, or to an env that is new. */
  lemma DefaultRowsOnlyAtTarget(t: Tables, s: Statement, a: Assignment)
    requires !s.UpsertSnapshot? && a in AddedRows(t, s) && a.tag == DEFAULT_TAG
    ensures DefaultTarget(t, s) == Some(a.env) || a.env !in t.envs
  {
  }

  lemma AppendOnlyLinks(t: Tables, h: History, s: Statement)
    requires Linked(t, h) && LeavesPausesAlone(t, s) && ReferencesResolve(Exec(t, s))
    requires !s.UpsertSnapshot? && !s.DeleteTemplate? && !s.DeleteTemplateTags?
    ensures Linked(Exec(t, s), h)
  {
    assert Exec(t, s).snapshots == t.snapshots;
    forall x | x in h ensures LinkedAt(Exec(t, s), h, x) {
      assert LinkedAt(t, h, x) && t.snapshots[x].env in t.envs;
      SameDefaultRows(t, s, x);
    }
  }

  lemma SameDefaultRows(t: Tables, s: Statement, x: SandboxId)
    requires LeavesPausesAlone(t, s) && x in t.snapshots && t.snapshots[x].env in t.envs
    requires !s.UpsertSnapshot? && !s.DeleteTemplate? && !s.DeleteTemplateTags?
    ensures DefaultRows(Exec(t, s), t.snapshots[x].env) == DefaultRows(t, t.snapshots[x].env)
  {
    var env, added := t.snapshots[x].env, AddedRows(t, s);
    ExecAppends(t, s);
    assert IsPauseEnv(t, env);
    forall a | a in added && a.tag == DEFAULT_TAG ensures a.env != env {
      DefaultRowsOnlyAtTarget(t, s, a);
    }
    AppendedElsewhere(t, Exec(t, s), added, env);
  }

  // ---------------------------------------------------------------- the refinement

  /** The last ready row of a list belongs to the last ready build of the list. */
  lemma {:induction false} LastReadyRow(t: Tables, rows: seq<Assignment>)
    ensures var ready := Filter(rows, HasReadyBuild(t));
            NewestReady(t, Builds(rows)) == if ready == [] then None else Some(ready[|ready| - 1].build)
  {
    if rows != [] {
      var front := rows[..|rows| - 1];
      LastReadyRow(t, front);
      assert Builds(rows)[..|rows| - 1] == Builds(front);
    }
  }

  lemma LinkedAnswers(t: Tables, h: History, s: SandboxId)
    requires Linked(t, h) && Chronological(t.assignments, t.clock)
    ensures GetLastSnapshot(t, s) == Expected(t, h, s)
  {
    if s in h {
      assert LinkedAt(t, h, s);
      LastReadyAnswers(t, h[s].row.env);
    }
  }

  /** The query picks the last of the env's default rows whose build is ready. */
  lemma LastReadyAnswers(t: Tables, env: EnvId)
    requires Chronological(t.assignments, t.clock)
    ensures var newest := Newest(ReadyDefaultRows(t, env));
            NewestReady(t, Builds(DefaultRows(t, env))) == if newest.None? then None else Some(newest.value.build)
  {
    var rows := DefaultRows(t, env);
    ChronologicalFilter(t.assignments, DefaultMatch(env), t.clock);
    LastReadyRow(t, rows);
    ChronologicalFilter(rows, HasReadyBuild(t), t.clock);
    NewestIsLast(Filter(rows, HasReadyBuild(t)), t.clock);
  }

  // ---------------------------------------------------------------- what an unguarded statement shows

  /** The answer is the expected one if the builds were `bs`. */
  ghost predicate AnswersWith(t: Tables, bs: map<BuildId, Build>, h: History, x: SandboxId) {
    GetLastSnapshot(t.(builds := bs), x) == Expected(t.(builds := bs), h, x)
  }

  /** So for all builds and sandboxes: now and after any status writes. */
  ghost predicate AlwaysAnswers(t: Tables, h: History) {
    forall bs, x :: AnswersWith(t, bs, h, x)
  }

  /** The newest build of a paused sandbox is assigned to it once more. */
  ghost predicate ReassignsNewest(h: History, s: Statement) {
    s.CreateTemplateBuildAssignment?
    && exists x :: x in h && h[x].row.env == s.env && h[x].builds != [] && h[x].builds[|h[x].builds| - 1] == s.build
  }

  /** With the right row, the answer is a matter of the two lists of builds. */
  lemma AnswersOfBuilds(t: Tables, bs: map<BuildId, Build>, h: History, x: SandboxId)
    requires Chronological(t.assignments, t.clock)
    requires x in t.snapshots && x in h && h[x].row == t.snapshots[x]
    ensures var u := t.(builds := bs);
            AnswersWith(t, bs, h, x)
            <==> NewestReady(u, Builds(DefaultRows(t, t.snapshots[x].env))) == NewestReady(u, h[x].builds)
  {
    var u := t.(builds := bs);
    assert DefaultRows(u, t.snapshots[x].env) == DefaultRows(t, t.snapshots[x].env);
    LastReadyAnswers(u, t.snapshots[x].env);
  }

  lemma LinkedStatesAnswer(t: Tables, h: History)
    requires Linked(t, h) && Chronological(t.assignments, t.clock)
    ensures AlwaysAnswers(t, h)
  {
    forall bs, x ensures AnswersWith(t, bs, h, x) {
      if x in h {
        assert LinkedAt(t, h, x);
        AnswersOfBuilds(t, bs, h, x);
      }
    }
  }

  lemma NewestReadyRepeated(t: Tables, builds: seq<BuildId>)
    requires builds != []
    ensures NewestReady(t, builds + [builds[|builds| - 1]]) == NewestReady(t, builds)
  {
    var twice := builds + [builds[|builds| - 1]];
    assert twice[..|twice| - 1] == builds;
  }

  /** The default rows once the newest build of a paused sandbox is assigned to it again. */
  lemma ReassignedBuilds(t: Tables, h: History, s: Statement, x: SandboxId)
    requires Linked(t, h) && ReassignsNewest(h, s) && DefaultTarget(t, s).Some? && x in h
    ensures h[x].builds != []
    ensures Builds(DefaultRows(Exec(t, s), h[x].row.env))
            == if h[x].row.env == s.env then h[x].builds + [h[x].builds[|h[x].builds| - 1]] else h[x].builds
  {
    assert LinkedAt(t, h, x);
    var a := Assignment(s.env, s.build, DEFAULT_TAG, t.clock);
    assert Exec(t, s).assignments == t.assignments + [a];
    if h[x].row.env == s.env {
      var y :| y in h && h[y].row.env == s.env && h[y].builds != [] && h[y].builds[|h[y].builds| - 1] == s.build;
      assert x == y;
      AppendedHere(t, Exec(t, s), a);
      BuildsAppend(DefaultRows(t, s.env), a);
    } else {
      AppendedElsewhere(t, Exec(t, s), [a], h[x].row.env);
    }
  }

  lemma BuildsAppend(rows: seq<Assignment>, a: Assignment)
    ensures Builds(rows + [a]) == Builds(rows) + [a.build]
  {
  }

  /** It changes no answer, now or later. */
  lemma ReassignedNewestAnswers(t: Tables, h: History, s: Statement, before: int)
    requires Linked(t, h) && Chronological(t.assignments, before) && before < t.clock
    requires ReassignsNewest(h, s) && DefaultTarget(t, s).Some?
    ensures AlwaysAnswers(Exec(t, s), h)
  {
    var after := Exec(t, s);
    ExecChronological(t, s, before);
    forall bs, x ensures AnswersWith(after, bs, h, x) {
      if x in h {
        assert LinkedAt(t, h, x);
        ReassignedBuilds(t, h, s, x);
        AnswersOfBuilds(after, bs, h, x);
        NewestReadyRepeated(after.(builds := bs), h[x].builds);
      }
    }
  }

  lemma NewestIsKnown(t: Tables, h: History, x: SandboxId)
    requires Linked(t, h) && x in h
    ensures h[x].builds != [] && h[x].builds[|h[x].builds| - 1] in t.builds
  {
    assert LinkedAt(t, h, x);
    var rows := DefaultRows(t, h[x].row.env);
    assert rows[|rows| - 1] in rows;
  }

  /** Any other unguarded statement gives a wrong answer as soon as its build and the newest upserted one are ready. */
  lemma UnguardedAnswers(t: Tables, h: History, s: Statement, before: int, x: SandboxId, bs: map<BuildId, Build>)
    requires Linked(t, h) && Chronological(t.assignments, before) && before < t.clock
    requires x in h && h[x].builds != [] && DefaultTarget(t, s) == Some(h[x].row.env) && !ReassignsNewest(h, s)
    requires var newest := h[x].builds[|h[x].builds| - 1];
             newest in bs && Group(bs[newest].status) == ReadyGroup
             && (!s.DeleteTemplateTags? ==> s.build in bs && Group(bs[s.build].status) == ReadyGroup)
    ensures !AnswersWith(Exec(t, s), bs, h, x)
  {
    assert LinkedAt(t, h, x);
    var env, after := h[x].row.env, Exec(t, s);
    assert after.snapshots == t.snapshots;
    ExecChronological(t, s, before);
    AnswersOfBuilds(after, bs, h, x);
    if s.DeleteTemplateTags? {
      DroppedDefaultRows(t, s, env);
    } else {
      NewestIsKnown(t, h, x);
      LastDefaultBuild(t, s, env);
    }
  }

  lemma LastDefaultBuild(t: Tables, s: Statement, env: EnvId)
    requires !s.DeleteTemplateTags? && DefaultTarget(t, s) == Some(env)
    ensures var builds := Builds(DefaultRows(Exec(t, s), env));
            builds != [] && builds[|builds| - 1] == s.build
    ensures s.RegisterBuild? ==> s.build !in t.builds
  {
    MoreDefaultRows(t, s, env);
    var more: seq<Assignment> :| more != [] && (forall a :: a in more ==> a.build == s.build)
                                 && DefaultRows(Exec(t, s), env) == DefaultRows(t, env) + more;
    assert more[|more| - 1] in more;
  }

  lemma UnguardedShows(t: Tables, h: History, s: Statement, before: int)
    requires Linked(t, h) && Chronological(t.assignments, before) && before < t.clock
    requires !LeavesPausesAlone(t, s) && !ReassignsNewest(h, s)
    ensures Recorded(t, h, s) == h && !AlwaysAnswers(Exec(t, s), h)
  {
    var x :| x in t.snapshots && t.snapshots[x].env == DefaultTarget(t, s).value;
    assert LinkedAt(t, h, x);
    NewestIsKnown(t, h, x);
    UnguardedShowsAt(t, h, s, before, x, h[x].builds[|h[x].builds| - 1]);
  }

  lemma UnguardedShowsAt(t: Tables, h: History, s: Statement, before: int, x: SandboxId, newest: BuildId)
    requires Linked(t, h) && Chronological(t.assignments, before) && before < t.clock
    requires x in h && h[x].builds != [] && newest == h[x].builds[|h[x].builds| - 1]
    requires DefaultTarget(t, s) == Some(h[x].row.env) && !ReassignsNewest(h, s)
    ensures !AlwaysAnswers(Exec(t, s), h)
  {
    var bs := if s.DeleteTemplateTags? then ReadyBuilds({newest}) else ReadyBuilds({newest, s.build});
    UnguardedAnswers(t, h, s, before, x, bs);
    assert !AnswersWith(Exec(t, s), bs, h, x);
  }

  function ReadyBuilds(ids: set<BuildId>): map<BuildId, Build> {
    map b | b in ids :: Build(Ready, 0)
  }

  /**
   For every later readiness of the builds the answers stay right after a statement,
   exactly if it leaves paused sandboxes alone or only assigns a newest build once more.
   */
  lemma AnswersSurviveExactly(t: Tables, h: History, s: Statement, before: int)
    requires Linked(t, h) && Chronological(t.assignments, before) && before < t.clock
    ensures AlwaysAnswers(Exec(t, s), Recorded(t, h, s)) <==> LeavesPausesAlone(t, s) || ReassignsNewest(h, s)
  {
    if LeavesPausesAlone(t, s) {
      GuardedStepLinks(t, h, s);
      ExecChronological(t, s, before);
      LinkedStatesAnswer(Exec(t, s), Recorded(t, h, s));
    } else if ReassignsNewest(h, s) {
      ReassignedNewestAnswers(t, h, s, before);
    } else {
      UnguardedShows(t, h, s, before);
    }
  }

  // ---------------------------------------------------------------- whole runs

  ghost predicate LeavesPausesAloneThroughout(t: Tables, events: seq<Event>)
    decreases |events|
  {
    events != [] ==> LeavesPausesAlone(Tick(t, events[0]), events[0].stmt)
                     && LeavesPausesAloneThroughout(Apply(t, events[0]), events[1..])
  }

  ghost predicate AvoidsSnapshotSourceThroughout(t: Tables, events: seq<Event>)
    decreases |events|
  {
    events != [] ==> AvoidsSnapshotSource(Tick(t, events[0]), events[0].stmt)
                     && AvoidsSnapshotSourceThroughout(Apply(t, events[0]), events[1..])
  }

  ghost predicate KeepsBasesThroughout(t: Tables, events: seq<Event>)
    decreases |events|
  {
    events != [] ==> KeepsBases(Tick(t, events[0]), events[0].stmt) && KeepsBasesThroughout(Apply(t, events[0]), events[1..])
  }

  ghost predicate LinkedThroughout(t: Tables, h: History, events: seq<Event>)
    decreases |events|
  {
    Linked(t, h)
    && (events != [] ==> LinkedThroughout(Apply(t, events[0]), Recorded(Tick(t, events[0]), h, events[0].stmt), events[1..]))
  }

  lemma TickLinks(t: Tables, h: History, e: Event)
    requires Linked(t, h)
    ensures Linked(Tick(t, e), h)
  {
    forall s | s in h ensures LinkedAt(Tick(t, e), h, s) { assert LinkedAt(t, h, s); }
  }

  /** Over a whole run tables and history stay linked in every state exactly when every statement leaves paused sandboxes alone. */
  lemma {:induction false} RunLinks(t: Tables, h: History, events: seq<Event>)
    requires Linked(t, h)
    ensures LinkedThroughout(t, h, events) <==> LeavesPausesAloneThroughout(t, events)
    decreases |events|
  {
    if events != [] {
      var seen := Tick(t, events[0]);
      TickLinks(t, h, events[0]);
      StepLinks(seen, h, events[0].stmt);
      var after, record := Apply(t, events[0]), Recorded(seen, h, events[0].stmt);
      if Linked(after, record) { RunLinks(after, record, events[1..]); }
    }
  }

  lemma {:induction false} LinkedAtEnd(t: Tables, h: History, events: seq<Event>)
    requires LinkedThroughout(t, h, events)
    ensures Linked(Run(t, events), RunHistory(t, h, events))
    decreases |events|
  {
    if events != [] {
      LinkedAtEnd(Apply(t, events[0]), Recorded(Tick(t, events[0]), h, events[0].stmt), events[1..]);
    }
  }

  /** The callers' check over a run: enough, and exact if no deletion takes a paused sandbox's base. */
  lemma {:induction false} SourceCheckThroughout(t: Tables, events: seq<Event>)
    requires PausesOwnEnvs(t)
    ensures AvoidsSnapshotSourceThroughout(t, events) ==> LeavesPausesAloneThroughout(t, events)
    ensures NoOrphans(t) && KeepsBasesThroughout(t, events) ==>
              (AvoidsSnapshotSourceThroughout(t, events) <==> LeavesPausesAloneThroughout(t, events))
    decreases |events|
  {
    if events != [] {
      var seen, s := Tick(t, events[0]), events[0].stmt;
      SamePausesOwnEnvs(t, seen);
      SourceCheck(seen, s);
      ExecPausesOwnEnvs(seen, s);
      if NoOrphans(t) {
        SameSnapshotsKeepNoOrphans(t, seen);
        StepKeepsNoOrphans(seen, s);
      }
      SourceCheckThroughout(Apply(t, events[0]), events[1..]);
    }
  }

  /**
   After any serial run GetLastSnapshot answers what the history says: the row as the
   upserts since the last delete left it, with the newest of their builds that is ready.
   */
  lemma GetLastSnapshotRefinesHistory(events: seq<Event>, s: SandboxId)
    requires LeavesPausesAloneThroughout(EMPTY_TABLES, events)
    ensures GetLastSnapshot(Run(EMPTY_TABLES, events), s)
            == Expected(Run(EMPTY_TABLES, events), RunHistory(EMPTY_TABLES, map[], events), s)
  {
    RunLinks(EMPTY_TABLES, map[], events);
    LinkedAtEnd(EMPTY_TABLES, map[], events);
    RunChronological(EMPTY_TABLES, events);
    LinkedAnswers(Run(EMPTY_TABLES, events), RunHistory(EMPTY_TABLES, map[], events), s);
  }

  /**
   So it does whenever every registration, tag assignment and tag removal that touches the
   default tag is for an env without the snapshot source, as the callers' lookups ensure;
   and if deletions spare bases, tables and history stay linked for no other runs.
   */
  lemma CallersRefineHistory(events: seq<Event>, s: SandboxId)
    ensures AvoidsSnapshotSourceThroughout(EMPTY_TABLES, events) ==>
              GetLastSnapshot(Run(EMPTY_TABLES, events), s)
              == Expected(Run(EMPTY_TABLES, events), RunHistory(EMPTY_TABLES, map[], events), s)
    ensures KeepsBasesThroughout(EMPTY_TABLES, events) ==>
              (LinkedThroughout(EMPTY_TABLES, map[], events) <==> AvoidsSnapshotSourceThroughout(EMPTY_TABLES, events))
  {
    SourceCheckThroughout(EMPTY_TABLES, events);
    RunLinks(EMPTY_TABLES, map[], events);
    if AvoidsSnapshotSourceThroughout(EMPTY_TABLES, events) {
      GetLastSnapshotRefinesHistory(events, s);
    }
  }

  /** The env of a paused sandbox is the one its first upsert since the last delete offered. */
  lemma UpsertKeepsFirstEnv(t: Tables, h: History, p: UpsertParams, build: BuildId)
    requires Linked(t, h) && UpsertAccepted(t, p, build)
    ensures var record := Recorded(t, h, UpsertSnapshot(p, build));
            && record[p.sandbox].row.env == UpsertEnv(t, p)
            && (p.sandbox in h ==> record[p.sandbox].row.env == h[p.sandbox].row.env)
            && (p.sandbox !in h ==> record[p.sandbox].row.env == p.env)
            && UpsertEnv(t, p) == Upsert(t, p, build).snapshots[p.sandbox].env
  {
    assert p.sandbox in h ==> LinkedAt(t, h, p.sandbox);
  }

  /** A default assignment by anyone else takes over what the paused sandbox resumes from. */
  lemma ForeignAssignmentTakesOver(t: Tables, s: SandboxId, build: BuildId, before: int)
    requires Chronological(t.assignments, before) && before < t.clock && ReferencesResolve(t)
    requires s in t.snapshots && t.IsReady(build)
    ensures var after := Exec(t, CreateTemplateBuildAssignment(t.snapshots[s].env, build, DEFAULT_TAG));
            GetLastSnapshot(after, s) == Some(LastSnapshotRow(t.snapshots[s], build))
  {
    var env := t.snapshots[s].env;
    var a := Assignment(env, build, DEFAULT_TAG, t.clock);
    var after := Exec(t, CreateTemplateBuildAssignment(env, build, DEFAULT_TAG));
    assert after.assignments == t.assignments + [a];
    AppendedHere(t, after, a);
    var rows, ready := DefaultRows(t, env), HasReadyBuild(after);
    FilterAppend(rows, [a], ready);
    assert [a][..0] == [] && Filter([a], ready) == [a];
    NewestAfterAppend(Filter(rows, ready), a);
  }

  /** The tables once a pause has been upserted and its build perhaps got another status. */
  ghost predicate HasUpserted(t: Tables, p: UpsertParams, build: BuildId, after: Tables) {
    && after.snapshots == Upsert(t, p, build).snapshots
    && after.assignments == t.assignments + [Assignment(UpsertEnv(t, p), build, DEFAULT_TAG, t.clock)]
    && forall b :: b in t.builds ==> (after.IsReady(b) <==> t.IsReady(b))
  }

  lemma ReadyRowsUpserted(t: Tables, p: UpsertParams, build: BuildId, after: Tables, env: EnvId)
    requires ReferencesResolve(t) && HasUpserted(t, p, build, after)
    ensures var a := Assignment(UpsertEnv(t, p), build, DEFAULT_TAG, t.clock);
            ReadyDefaultRows(after, env) == ReadyDefaultRows(t, env) + if a.env == env && after.IsReady(build) then [a] else []
  {
    UpsertedRows(t, after, Assignment(UpsertEnv(t, p), build, DEFAULT_TAG, t.clock), env);
  }

  lemma OtherAnswersKept(t: Tables, p: UpsertParams, build: BuildId, after: Tables, r: SandboxId)
    requires PausesOwnEnvs(t) && ReferencesResolve(t) && UpsertAccepted(t, p, build) && HasUpserted(t, p, build, after)
    requires r != p.sandbox
    ensures GetLastSnapshot(after, r) == GetLastSnapshot(t, r)
  {
    assert r in t.snapshots <==> r in after.snapshots;
    if r in t.snapshots {
      var env := t.snapshots[r].env;
      assert after.snapshots[r] == t.snapshots[r];
      assert env in t.envs && env != UpsertEnv(t, p);
      ReadyRowsUpserted(t, p, build, after, env);
      assert ReadyDefaultRows(after, env) == ReadyDefaultRows(t, env);
    }
  }

  lemma OwnReadyAnswer(t: Tables, p: UpsertParams, build: BuildId, after: Tables, before: int)
    requires ReferencesResolve(t) && HasUpserted(t, p, build, after) && UpsertAccepted(t, p, build)
    requires Chronological(t.assignments, before) && before < t.clock && after.IsReady(build)
    ensures AnswerBuild(after, p.sandbox) == Some(build)
  {
    var env := UpsertEnv(t, p);
    var rows := ReadyDefaultRows(t, env);
    ReadyRowsUpserted(t, p, build, after, env);
    RowsAreEarlier(t, env, before);
    NewestAfterAppend(rows, Assignment(env, build, DEFAULT_TAG, t.clock));
    assert after.snapshots[p.sandbox].env == env;
  }

  lemma RowsAreEarlier(t: Tables, env: EnvId, before: int)
    requires Chronological(t.assignments, before)
    ensures forall a :: a in ReadyDefaultRows(t, env) ==> a.createdAt <= before
  {
    forall a | a in ReadyDefaultRows(t, env) ensures a.createdAt <= before { assert a in t.assignments; }
  }

  lemma OwnOldAnswer(t: Tables, p: UpsertParams, build: BuildId, after: Tables)
    requires ReferencesResolve(t) && HasUpserted(t, p, build, after) && UpsertAccepted(t, p, build)
    requires !after.IsReady(build)
    ensures AnswerBuild(after, p.sandbox) == AnswerBuild(t, p.sandbox)
  {
    var env := UpsertEnv(t, p);
    ReadyRowsUpserted(t, p, build, after, env);
    assert ReadyDefaultRows(after, env) == ReadyDefaultRows(t, env);
    if p.sandbox !in t.snapshots {
      NoDefaultRowsWithoutEnv(t, env);
    }
  }

  /**
   The life of a pause: the upsert with which it begins, still snapshotting, leaves every
   sandbox the build it had; once its status is success its build is the sandbox's answer,
   with the metadata and start time of the upsert, and no other answer has changed.
   */
  lemma LifeOfPause(t: Tables, p: UpsertParams, build: BuildId, before: int, r: SandboxId)
    requires PausesOwnEnvs(t) && ReferencesResolve(t) && Chronological(t.assignments, before) && before < t.clock
    requires UpsertAccepted(t, p, build) && p.status == Snapshotting
    ensures var during := Exec(t, UpsertSnapshot(p, build));
            var after := Exec(during, UpdateEnvBuildStatus(build, Success));
            && AnswerBuild(during, r) == AnswerBuild(t, r)
            && AnswerBuild(after, r) == (if r == p.sandbox then Some(build) else AnswerBuild(t, r))
            && (r != p.sandbox ==> GetLastSnapshot(during, r) == GetLastSnapshot(t, r) == GetLastSnapshot(after, r))
            && UpsertedRow(t, p, GetLastSnapshot(after, p.sandbox))
  {
    var during := Exec(t, UpsertSnapshot(p, build));
    var after := Exec(during, UpdateEnvBuildStatus(build, Success));
    assert HasUpserted(t, p, build, during) && HasUpserted(t, p, build, after);
    OwnOldAnswer(t, p, build, during);
    OwnReadyAnswer(t, p, build, after, before);
    if r != p.sandbox {
      OtherAnswersKept(t, p, build, during, r);
      OtherAnswersKept(t, p, build, after, r);
    }
  }

  /** The row an upsert leaves: its metadata and start time; the rest is its own only if it is the first. */
  ghost predicate UpsertedRow(t: Tables, p: UpsertParams, answer: Option<LastSnapshotRow>) {
    answer.Some? && answer.value.snapshot ==
      if p.sandbox in t.snapshots
      then Snapshot(t.snapshots[p.sandbox].env, t.snapshots[p.sandbox].base, t.snapshots[p.sandbox].team, p.metadata, p.startedAt)
      else Snapshot(p.env, p.base, p.team, p.metadata, p.startedAt)
  }

  /** The ready default rows of an env after one default row is appended. */
  lemma UpsertedRows(t: Tables, after: Tables, a: Assignment, env: EnvId)
    requires after.assignments == t.assignments + [a] && a.tag == DEFAULT_TAG
    requires forall b :: b in t.assignments ==> (after.IsReady(b.build) <==> t.IsReady(b.build))
    ensures ReadyDefaultRows(after, env) == ReadyDefaultRows(t, env) + if a.env == env && after.IsReady(a.build) then [a] else []
  {
    var rows := DefaultRows(t, env);
    FilterCongruent(rows, HasReadyBuild(t), HasReadyBuild(after));
    if a.env == env {
      AppendedHere(t, after, a);
      FilterLast(rows + [a], rows, a, HasReadyBuild(after));
    } else {
      AppendedElsewhere(t, after, [a], env);
    }
  }

  /** The build GetLastSnapshot answers with. */
  function AnswerBuild(t: Tables, s: SandboxId): Option<BuildId> {
    match GetLastSnapshot(t, s)
    case None => None
    case Some(row) => Some(row.build)
  }

  // ---------------------------------------------------------------- the placeholder

  /** Every env id a caller generates is non-empty. */
  predicate GeneratesIds(s: Statement) {
    match s
    case RegisterBuild(template, _, _, _) => template != ""
    case UpsertSnapshot(p, _) => p.env != ""
    case CreateSnapshotTemplateEnv(env, _, _, _, _) => env != ""
    case _ => true
  }

  lemma {:induction false} NoEmptyEnv(t: Tables, events: seq<Event>)
    requires ReferencesResolve(t) && "" !in t.envs
    requires forall e :: e in events ==> GeneratesIds(e.stmt)
    ensures ReferencesResolve(Run(t, events)) && "" !in Run(t, events).envs
    decreases |events|
  {
    if events != [] {
      assert ReferencesResolve(Tick(t, events[0]));
      ExecResolves(Tick(t, events[0]), events[0].stmt);
      assert events[0] in events;
      assert forall e :: e in events[1..] ==> e in events;
      NoEmptyEnv(Apply(t, events[0]), events[1..]);
    }
  }

  /** The placeholder '' of the upsert is never stored: not as an env, nor in a snapshot or assignment row. */
  lemma PlaceholderNeverStored(events: seq<Event>)
    requires forall e :: e in events ==> GeneratesIds(e.stmt)
    ensures var t := Run(EMPTY_TABLES, events);
            && "" !in t.envs
            && (forall s :: s in t.snapshots ==> t.snapshots[s].env != "" && t.snapshots[s].base != "")
            && (forall a :: a in t.assignments ==> a.env != "")
  {
    NoEmptyEnv(EMPTY_TABLES, events);
  }
}
