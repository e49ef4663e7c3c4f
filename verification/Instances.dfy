/** One cluster instance: what its sync calls leave behind. */
module Instances {
  import opened Wrappers

  datatype Status = Healthy | Draining | Unhealthy | Unrecognized(code: int)

  datatype Role = TemplateBuilder | Orchestrator | UnrecognizedRole(code: int)

  datatype MachineInfo = MachineInfo(architecture: string, family: string, model: string, modelName: string, flags: seq<string>)

  const NO_MACHINE: MachineInfo := MachineInfo("", "", "", "", [])

  /** A ServiceInfo answer. */
  datatype Report = Report(
    serviceId: string,
    version: string,
    commit: string,
    status: Status,
    roles: seq<Role>,
    machine: Option<MachineInfo>)

  /** One sync call: the answer, or any gRPC error. */
  datatype Outcome = Failure | Answer(report: Report)

  const MAX_SYNC_FAILURES := 3

  /** The synced fields of an instance. */
  datatype View = View(
    serviceId: string,
    version: string,
    commit: string,
    status: Status,
    machine: MachineInfo,
    roles: seq<Role>,
    isBuilder: bool,
    isOrchestrator: bool,
    failCount: nat)

  /** An instance before its first sync; discovery supplies the service id. */
  function Unsynced(serviceId: string): View {
    View(serviceId, "", "", Healthy, NO_MACHINE, [], false, false, 0)
  }

  /** The fields after one sync call. */
  function Step(v: View, o: Outcome): View {
    match o
    case Failure =>
      v.(failCount := v.failCount + 1,
         status := if v.failCount + 1 >= MAX_SYNC_FAILURES then Unhealthy else v.status)
    case Answer(r) =>
      View(r.serviceId, r.version, r.commit, r.status,
           if r.machine.Some? then r.machine.value else NO_MACHINE,
           r.roles, TemplateBuilder in r.roles, Orchestrator in r.roles, 0)
  }

  /** The fields after a sequence of sync calls. */
  function After(v: View, history: seq<Outcome>): View {
    if history == [] then v else Step(After(v, history[..|history| - 1]), history[|history| - 1])
  }

  /** `failures` failed calls since the call at `last` that answered. */
  ghost predicate LastAnswer(history: seq<Outcome>, last: nat, report: Report, failures: nat) {
    && last + failures + 1 == |history|
    && history[last] == Answer(report)
    && forall i :: last < i < |history| ==> history[i] == Failure
  }

  /** What the fields must be, from the last answer and the failures since. */
  ghost predicate Reflects(v: View, report: Report, failures: nat) {
    && v.failCount == failures
    && v.status == (if failures >= 3 then Unhealthy else report.status)
    && v.roles == report.roles
    && (v.isBuilder <==> TemplateBuilder in report.roles)
    && (v.isOrchestrator <==> Orchestrator in report.roles)
    && (v.serviceId, v.version, v.commit) == (report.serviceId, report.version, report.commit)
    && (report.machine == Some(v.machine) || (report.machine == None && v.machine == NO_MACHINE))
  }

  /** Health is a function of the whole history: the last answer and the length of the failure run since. */
  lemma {:induction false} HealthIsHistory(v: View, history: seq<Outcome>, last: nat, report: Report, failures: nat)
    requires LastAnswer(history, last, report, failures)
    ensures Reflects(After(v, history), report, failures)
    decreases failures
  {
    if failures > 0 {
      HealthIsHistory(v, history[..|history| - 1], last, report, failures - 1);
    }
  }

  /** Once a call has answered, some call is the last that did. */
  lemma {:induction false} LastAnswerExists(history: seq<Outcome>)
    requires exists i :: 0 <= i < |history| && history[i].Answer?
    ensures exists last: nat, report, failures: nat :: LastAnswer(history, last, report, failures)
    decreases |history|
  {
    var n := |history| - 1;
    if history[n].Answer? {
      assert LastAnswer(history, n, history[n].report, 0);
    } else {
      var i :| 0 <= i < |history| && history[i].Answer?;
      assert history[..n][i].Answer?;
      LastAnswerExists(history[..n]);
      var last: nat, report, failures: nat :| LastAnswer(history[..n], last, report, failures);
      assert LastAnswer(history, last, report, failures + 1) by {
        assert forall k :: last < k < n ==> history[k] == history[..n][k];
      }
    }
  }

  /**
   An instance that has answered once is unhealthy exactly when its last three calls
   failed or its last answer said so; older history plays no part.
   */
  lemma UnhealthyExactly(v: View, history: seq<Outcome>, last: nat, report: Report, failures: nat)
    requires LastAnswer(history, last, report, failures)
    ensures After(v, history).status == Unhealthy <==>
              report.status == Unhealthy
              || (|history| > 3 && forall i :: |history| - 3 <= i < |history| ==> history[i] == Failure)
  {
    HealthIsHistory(v, history, last, report, failures);
    if failures < 3 {
      assert history[last] == Answer(report);
    }
  }

  class Instance {
    const uniqueIdentifier: string
    const nodeId: string
    var serviceId: string
    var version: string
    var commit: string
    var status: Status
    var machine: MachineInfo
    var roles: seq<Role>
    var isBuilder: bool
    var isOrchestrator: bool
    var syncFailCount: nat
    /** How often the client connection has been closed. */
    var closes: nat
    ghost const discoveredId: string
    ghost var history: seq<Outcome>

    function Synced(): View
      reads this
    {
      View(serviceId, version, commit, status, machine, roles, isBuilder, isOrchestrator, syncFailCount)
    }

    /** The instance answered its first sync call, and its fields are those of its history. */
    ghost predicate Valid()
      reads this
    {
      && history != [] && history[0].Answer?
      && Synced() == After(Unsynced(discoveredId), history)
    }

    constructor (uniqueIdentifier: string, nodeId: string, instanceId: string)
      ensures this.uniqueIdentifier == uniqueIdentifier && this.nodeId == nodeId && discoveredId == instanceId
      ensures Synced() == Unsynced(instanceId) && history == [] && closes == 0
    {
      this.uniqueIdentifier, this.nodeId, discoveredId := uniqueIdentifier, nodeId, instanceId;
      serviceId, version, commit, status := instanceId, "", "", Healthy;
      machine, roles, isBuilder, isOrchestrator := NO_MACHINE, [], false, false;
      syncFailCount, closes, history := 0, 0, [];
    }

    method Sync(outcome: Outcome) returns (ok: bool)
      modifies this
      ensures ok <==> outcome.Answer?
      ensures Synced() == Step(old(Synced()), outcome)
      ensures history == old(history) + [outcome] && closes == old(closes)
      ensures old(Valid()) ==> Valid()
    {
      history := history + [outcome];
      assert history[..|history| - 1] == old(history);
      if outcome.Failure? {
        syncFailCount := syncFailCount + 1;
        if syncFailCount >= MAX_SYNC_FAILURES {
          status := Unhealthy;
        }
        return false;
      }
      var info := outcome.report;
      syncFailCount := 0;
      status, roles := info.status, info.roles;
      machine := if info.machine.Some? then info.machine.value else NO_MACHINE;
      serviceId, version, commit := info.serviceId, info.version, info.commit;
      isBuilder := TemplateBuilder in roles;
      isOrchestrator := Orchestrator in roles;
      return true;
    }

    method Close()
      modifies this`closes
      ensures closes == old(closes) + 1
    {
      closes := closes + 1;
    }

    /** The status a caller reads is the one its whole history calls for. */
    lemma StatusOfHistory()
      requires Valid()
      ensures exists last: nat, report, failures: nat ::
                LastAnswer(history, last, report, failures) && Reflects(Synced(), report, failures)
    {
      LastAnswerExists(history);
      var last: nat, report, failures: nat :| LastAnswer(history, last, report, failures);
      HealthIsHistory(Unsynced(discoveredId), history, last, report, failures);
    }
  }

  /** A new instance is synced before anyone sees it; if that fails its client is closed and there is no instance. */
  method NewInstance(uniqueIdentifier: string, nodeId: string, instanceId: string, first: Outcome) returns (r: Option<Instance>)
    ensures r.Some? <==> first.Answer?
    ensures r.Some? ==>
              && fresh(r.value) && r.value.Valid() && r.value.history == [first] && r.value.closes == 0
              && r.value.uniqueIdentifier == uniqueIdentifier && r.value.nodeId == nodeId
              && r.value.Synced() == Step(Unsynced(instanceId), first)
  {
    var i := new Instance(uniqueIdentifier, nodeId, instanceId);
    var ok := i.Sync(first);
    if !ok {
      i.Close();
      return None;
    }
    return Some(i);
  }
}
