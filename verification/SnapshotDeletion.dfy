/** Deleting a killed sandbox's snapshot through the env of its pauses. */
module SnapshotDeletion {
  import opened Wrappers
  import opened Sequences
  import opened Schema
  import opened PausedEnvs
  import opened SnapshotHistory

  /** The snapshot row of a team's sandbox, whether or not any of its builds is ready. */
  predicate HasSnapshot(t: Tables, team: TeamId, s: SandboxId) {
    s in t.snapshots && t.snapshots[s].team == team
  }

  /** deleteSnapshot: GetSnapshotBuilds for the env, then DeleteTemplate; without a row it is an error and nothing happens. */
  function DeleteSnapshot(t: Tables, team: TeamId, s: SandboxId): Tables {
    if HasSnapshot(t, team, s) then Delete(t, t.snapshots[s].env, team) else t
  }

  /** Removing an env changes the answer for another sandbox only by taking its snapshot row. */
  lemma OthersAfterRemoval(t: Tables, env: EnvId, r: SandboxId)
    requires r in t.snapshots ==> t.snapshots[r].env != env
    ensures GetLastSnapshot(RemoveEnv(t, env), r)
            == if r in t.snapshots && t.snapshots[r].base == env then None else GetLastSnapshot(t, r)
  {
    var after := RemoveEnv(t, env);
    if r in after.snapshots {
      var kept := t.snapshots[r].env;
      RemovedElsewhere(t, after, (a: Assignment) => a.env != env, kept);
      FilterCongruent(DefaultRows(t, kept), HasReadyBuild(t), HasReadyBuild(after));
    }
  }

  /**
   In every reachable state: deleting the team's snapshot of a sandbox makes GetLastSnapshot
   forget exactly that sandbox and those that were started from its env; every other
   sandbox keeps its answer, every build its row, and another team's call changes nothing.
   */
  lemma DeleteSnapshotForgets(events: seq<Event>, team: TeamId, s: SandboxId, r: SandboxId)
    ensures var t := Run(EMPTY_TABLES, events);
            var after := DeleteSnapshot(t, team, s);
            && after.builds == t.builds
            && (!HasSnapshot(t, team, s) ==> after == t)
            && (HasSnapshot(t, team, s) ==>
                  && s !in after.snapshots && GetLastSnapshot(after, s) == None
                  && t.snapshots[s].env !in after.envs
                  && GetLastSnapshot(after, r) ==
                       if r == s || (r in t.snapshots && t.snapshots[r].base == t.snapshots[s].env) then None else GetLastSnapshot(t, r))
  {
    var t := Run(EMPTY_TABLES, events);
    RunPausesOwnEnvs(EMPTY_TABLES, events);
    if HasSnapshot(t, team, s) {
      var env := t.snapshots[s].env;
      assert DeleteAccepted(t, env, team);
      if r != s { OthersAfterRemoval(t, env, r); }
    }
  }

  // ---------------------------------------------------------------- deleting a template

  /** ExistsTemplateSnapshots: some paused sandbox was started from the env. */
  ghost predicate ExistsTemplateSnapshots(t: Tables, env: EnvId) {
    exists s :: s in t.snapshots && t.snapshots[s].base == env
  }

  /** The snapshot row goes with the env: its own, or its base by the second cascade. */
  predicate GoesWith(t: Tables, env: EnvId, s: SandboxId) {
    s in t.snapshots && (t.snapshots[s].env == env || t.snapshots[s].base == env)
  }

  lemma AnswerAfterRemoval(t: Tables, env: EnvId, r: SandboxId)
    ensures GetLastSnapshot(RemoveEnv(t, env), r) == if GoesWith(t, env, r) then None else GetLastSnapshot(t, r)
  {
    if !(r in t.snapshots && t.snapshots[r].env == env) { OthersAfterRemoval(t, env, r); }
  }

  /** Deleting an env changes no answer exactly if no sandbox with an answer is paused in it or based on it. */
  lemma DeletionKeepsAnswers(t: Tables, env: EnvId, team: TeamId)
    requires DeleteAccepted(t, env, team)
    ensures (forall r :: GetLastSnapshot(Delete(t, env, team), r) == GetLastSnapshot(t, r))
            <==> forall r :: GoesWith(t, env, r) ==> GetLastSnapshot(t, r) == None
  {
    var after := Delete(t, env, team);
    forall r ensures GetLastSnapshot(after, r) == if GoesWith(t, env, r) then None else GetLastSnapshot(t, r) {
      AnswerAfterRemoval(t, env, r);
    }
  }

  /**
   A template is looked up by its source, so it is no paused sandbox's env; then the
   ExistsTemplateSnapshots check is exactly what keeps every snapshot row, and with the
   rows every answer.
   */
  lemma CheckedDeletionKeepsSnapshots(t: Tables, env: EnvId, team: TeamId)
    requires PausesOwnEnvs(t) && DeleteAccepted(t, env, team) && !HasSnapshotSource(t, env)
    ensures Delete(t, env, team).snapshots == t.snapshots <==> !ExistsTemplateSnapshots(t, env)
    ensures !ExistsTemplateSnapshots(t, env) ==> forall r :: GetLastSnapshot(Delete(t, env, team), r) == GetLastSnapshot(t, r)
  {
    forall r ensures GoesWith(t, env, r) <==> r in t.snapshots && t.snapshots[r].base == env { }
    if s :| s in t.snapshots && t.snapshots[s].base == env {
      assert s !in RemoveEnv(t, env).snapshots;
    } else {
      DeletionKeepsAnswers(t, env, team);
    }
  }
}
