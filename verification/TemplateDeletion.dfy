/** Which builds may go with a deleted template: exactly those no other template uses. */
module TemplateDeletion {
  import opened Sequences
  import opened Schema

  ghost predicate AssignedTo(t: Tables, b: BuildId, env: EnvId) {
    exists a :: a in t.assignments && a.build == b && a.env == env
  }

  /** GetExclusiveBuildsForTemplateDeletion: DISTINCT builds of the template without a row for another one. */
  function ExclusiveBuilds(t: Tables, env: EnvId): set<BuildId> {
    set a | a in t.assignments && a.env == env && a.build in t.builds
            && !(exists other :: other in t.assignments && other.build == a.build && other.env != env)
          :: a.build
  }

  function AssignedBuilds(t: Tables): set<BuildId> {
    set a | a in t.assignments :: a.build
  }

  function WithoutBuilds(gone: set<BuildId>): Assignment -> bool {
    (a: Assignment) => a.build !in gone
  }

  /** Removing build rows; their assignments go with them by the cascading foreign key. */
  function RemoveBuilds(t: Tables, gone: set<BuildId>): Tables {
    t.(builds := t.builds - gone, assignments := Filter(t.assignments, WithoutBuilds(gone)))
  }

  /** Deleting a template together with a set of builds. */
  function DeleteWithBuilds(t: Tables, env: EnvId, gone: set<BuildId>): Tables {
    RemoveBuilds(RemoveEnv(t, env), gone)
  }

  /** No other template loses an assignment, and no build that was assigned is left without one. */
  ghost predicate Conserves(t: Tables, env: EnvId, gone: set<BuildId>) {
    var after := DeleteWithBuilds(t, env, gone);
    && after.assignments == RemoveEnv(t, env).assignments
    && (forall b :: b in AssignedBuilds(t) && b in after.builds ==> b in AssignedBuilds(after))
  }

  /** Deletion conserves the other templates' builds exactly when it removes the exclusive builds, no more and no fewer. */
  lemma ExclusiveBuildsAreExactlySafe(t: Tables, env: EnvId, gone: set<BuildId>)
    requires ReferencesResolve(t) && gone <= AssignedBuilds(t)
    ensures Conserves(t, env, gone) <==> gone == ExclusiveBuilds(t, env)
  {
    var left := RemoveEnv(t, env);
    var after := DeleteWithBuilds(t, env, gone);
    assert forall a :: a in left.assignments <==> a in t.assignments && a.env != env;
    if gone == ExclusiveBuilds(t, env) {
      FilterEverything(left.assignments, WithoutBuilds(gone));
      forall b | b in AssignedBuilds(t) && b in after.builds ensures b in AssignedBuilds(after) {
        var a :| a in t.assignments && a.build == b;
        if a.env == env {
          var other :| other in t.assignments && other.build == b && other.env != env;
          assert other in after.assignments;
        } else {
          assert a in after.assignments;
        }
      }
    }
    if Conserves(t, env, gone) {
      assert forall a :: a in after.assignments ==> a in t.assignments && a.env != env;
      forall b | b in ExclusiveBuilds(t, env) ensures b in t.builds && b !in AssignedBuilds(after) && b in AssignedBuilds(t) { }
      forall b ensures b in gone <==> b in ExclusiveBuilds(t, env) {
        if b in gone {
          var a :| a in t.assignments && a.build == b;
          assert forall other :: other in t.assignments && other.env != env ==> other in left.assignments;
          assert forall other :: other in after.assignments ==> other.build !in gone;
          assert a.env == env;
        }
      }
    }
  }

  lemma {:induction false} FilterEverything<T(!new)>(s: seq<T>, keep: T -> bool)
    requires forall x :: x in s ==> keep(x)
    ensures Filter(s, keep) == s
  {
    if s != [] {
      assert forall x :: x in s[..|s| - 1] ==> x in s;
      FilterEverything(s[..|s| - 1], keep);
      assert s == s[..|s| - 1] + [s[|s| - 1]];
    }
  }

  /** References still resolve after such a deletion: nothing points to a removed build or env. */
  lemma DeletionLeavesNoDanglingReference(t: Tables, env: EnvId)
    requires ReferencesResolve(t)
    ensures ReferencesResolve(DeleteWithBuilds(t, env, ExclusiveBuilds(t, env)))
    ensures forall b, other :: other != env && AssignedTo(t, b, other) ==>
              b in DeleteWithBuilds(t, env, ExclusiveBuilds(t, env)).builds
              && AssignedTo(DeleteWithBuilds(t, env, ExclusiveBuilds(t, env)), b, other)
  {
    var gone := ExclusiveBuilds(t, env);
    var after := DeleteWithBuilds(t, env, gone);
    forall b, other | other != env && AssignedTo(t, b, other) ensures b in after.builds && AssignedTo(after, b, other) {
      var a :| a in t.assignments && a.build == b && a.env == other;
      assert a.build !in gone;
      assert a in after.assignments;
    }
  }

  /** A build shared through CreateSnapshotTemplateEnv survives the deletion of any other template it belongs to. */
  lemma SharedBuildSurvives(t: Tables, snapshotTemplate: EnvId, team: TeamId, sandbox: SandboxId, b: BuildId, tag: Tag, env: EnvId)
    requires ReferencesResolve(t) && SnapshotTemplateAccepted(t, snapshotTemplate, b) && env != snapshotTemplate
    ensures var shared := Exec(t, CreateSnapshotTemplateEnv(snapshotTemplate, team, sandbox, b, tag));
            var after := DeleteWithBuilds(shared, env, ExclusiveBuilds(shared, env));
            b in after.builds && AssignedTo(after, b, snapshotTemplate)
  {
    var s := CreateSnapshotTemplateEnv(snapshotTemplate, team, sandbox, b, tag);
    var shared := Exec(t, s);
    ExecResolves(t, s);
    assert Assignment(snapshotTemplate, b, tag, t.clock) in shared.assignments;
    assert AssignedTo(shared, b, snapshotTemplate);
    DeletionLeavesNoDanglingReference(shared, env);
  }
}
