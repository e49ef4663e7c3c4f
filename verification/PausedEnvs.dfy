/** The envs of paused sandboxes: one each, of the sandbox's team, and marked by their source. */
module PausedEnvs {
  import opened Schema

  ghost predicate IsPauseEnv(t: Tables, env: EnvId) {
    exists s :: s in t.snapshots && t.snapshots[s].env == env
  }

  /** The mark callers test: template lookups return only envs of the other two sources. */
  predicate HasSnapshotSource(t: Tables, env: EnvId) {
    env in t.envs && t.envs[env].source == SnapshotEnv
  }

  /** Each paused sandbox has an env of its own, of its team, with the snapshot source. */
  ghost predicate PausesOwnEnvs(t: Tables) {
    && (forall s :: s in t.snapshots ==>
          HasSnapshotSource(t, t.snapshots[s].env) && t.envs[t.snapshots[s].env].team == t.snapshots[s].team)
    && (forall r, s :: r in t.snapshots && s in t.snapshots && t.snapshots[r].env == t.snapshots[s].env ==> r == s)
  }

  lemma ExecPausesOwnEnvs(t: Tables, s: Statement)
    requires PausesOwnEnvs(t)
    ensures PausesOwnEnvs(Exec(t, s))
  {
    match s
    case UpsertSnapshot(p, build) => UpsertPausesOwnEnvs(t, p, build);
    case DeleteTemplate(env, team) => DeletePausesOwnEnvs(t, env, team);
    case _ => SamePausesOwnEnvs(t, Exec(t, s));
  }

  lemma UpsertPausesOwnEnvs(t: Tables, p: UpsertParams, build: BuildId)
    requires PausesOwnEnvs(t)
    ensures PausesOwnEnvs(Upsert(t, p, build))
  {
    if p.sandbox !in t.snapshots && UpsertAccepted(t, p, build) {
      assert forall r :: r in t.snapshots ==> t.snapshots[r].env != p.env;
    }
  }

  lemma DeletePausesOwnEnvs(t: Tables, env: EnvId, team: TeamId)
    requires PausesOwnEnvs(t)
    ensures PausesOwnEnvs(Delete(t, env, team))
  {
    var after := Delete(t, env, team);
    assert forall r :: r in after.snapshots ==> r in t.snapshots && after.snapshots[r] == t.snapshots[r];
  }

  lemma SamePausesOwnEnvs(t: Tables, after: Tables)
    requires PausesOwnEnvs(t) && after.snapshots == t.snapshots
    requires forall e :: e in t.envs ==> e in after.envs && after.envs[e].team == t.envs[e].team && after.envs[e].source == t.envs[e].source
    ensures PausesOwnEnvs(after)
  {
  }

  lemma {:induction false} RunPausesOwnEnvs(t: Tables, events: seq<Event>)
    requires PausesOwnEnvs(t)
    ensures PausesOwnEnvs(Run(t, events))
    decreases |events|
  {
    if events != [] {
      assert PausesOwnEnvs(Tick(t, events[0]));
      ExecPausesOwnEnvs(Tick(t, events[0]), events[0].stmt);
      RunPausesOwnEnvs(Apply(t, events[0]), events[1..]);
    }
  }

  // ---------------------------------------------------------------- orphans

  /** Every env with the snapshot source still belongs to a paused sandbox. */
  ghost predicate NoOrphans(t: Tables) {
    forall e :: HasSnapshotSource(t, e) ==> IsPauseEnv(t, e)
  }

  /** A snapshot row that goes with the env it was started from, while its own env stays. */
  ghost predicate LosesByBase(t: Tables, env: EnvId, s: SandboxId) {
    s in t.snapshots && t.snapshots[s].base == env && t.snapshots[s].env != env
  }

  /** What ExistsTemplateSnapshots rules out before a template is deleted. */
  ghost predicate KeepsBases(t: Tables, s: Statement) {
    s.DeleteTemplate? && DeleteAccepted(t, s.env, s.team) ==> forall r :: !LosesByBase(t, s.env, r)
  }

  /** One statement leaves no paused env without its sandbox exactly when it deletes no base of another paused sandbox. */
  lemma StepKeepsNoOrphans(t: Tables, s: Statement)
    requires PausesOwnEnvs(t) && NoOrphans(t)
    ensures NoOrphans(Exec(t, s)) <==> KeepsBases(t, s)
  {
    match s
    case UpsertSnapshot(p, build) => UpsertKeepsNoOrphans(t, p, build);
    case DeleteTemplate(env, team) => if DeleteAccepted(t, env, team) { RemovalKeepsNoOrphans(t, env); }
    case _ => SameSnapshotsKeepNoOrphans(t, Exec(t, s));
  }

  lemma UpsertKeepsNoOrphans(t: Tables, p: UpsertParams, build: BuildId)
    requires NoOrphans(t)
    ensures NoOrphans(Upsert(t, p, build))
  {
    var after := Upsert(t, p, build);
    if UpsertAccepted(t, p, build) {
      forall e | HasSnapshotSource(after, e) ensures IsPauseEnv(after, e) {
        if HasSnapshotSource(t, e) {
          var s :| s in t.snapshots && t.snapshots[s].env == e;
          assert after.snapshots[s].env == e;
        } else {
          assert after.snapshots[p.sandbox].env == e;
        }
      }
    }
  }

  lemma RemovalKeepsNoOrphans(t: Tables, env: EnvId)
    requires PausesOwnEnvs(t) && NoOrphans(t)
    ensures NoOrphans(RemoveEnv(t, env)) <==> forall r :: !LosesByBase(t, env, r)
  {
    var after := RemoveEnv(t, env);
    if r :| LosesByBase(t, env, r) {
      assert HasSnapshotSource(after, t.snapshots[r].env);
      assert !IsPauseEnv(after, t.snapshots[r].env);
    } else {
      forall e | HasSnapshotSource(after, e) ensures IsPauseEnv(after, e) {
        assert HasSnapshotSource(t, e);
        var s :| s in t.snapshots && t.snapshots[s].env == e;
        assert !LosesByBase(t, env, s);
        assert after.snapshots[s].env == e;
      }
    }
  }

  lemma SameSnapshotsKeepNoOrphans(t: Tables, after: Tables)
    requires NoOrphans(t) && after.snapshots == t.snapshots
    requires forall e :: HasSnapshotSource(after, e) ==> HasSnapshotSource(t, e)
    ensures NoOrphans(after)
  {
    forall e | HasSnapshotSource(after, e) ensures IsPauseEnv(after, e) {
      var s :| s in t.snapshots && t.snapshots[s].env == e;
      assert after.snapshots[s].env == e;
    }
  }
}
