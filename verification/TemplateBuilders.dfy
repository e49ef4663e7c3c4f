/** Choosing a template builder among the pooled instances of a cluster. */
module TemplateBuilders {
  import opened Wrappers
  import opened Instances

  datatype BuilderError = TemplateBuilderNotFound | AvailableTemplateBuilderNotFound

  predicate CompatibleWith(a: MachineInfo, b: MachineInfo) {
    a.architecture == b.architecture && a.family == b.family && a.model == b.model
  }

  /** Takes new builds: healthy, a builder, and on a fitting machine when one is asked for. */
  predicate Available(v: View, expected: MachineInfo) {
    && v.status == Healthy && v.isBuilder
    && (expected.model == "" || CompatibleWith(expected, v.machine))
  }

  /** The key of a machine: what two machines must share to run each other's builds. */
  function MachineKey(m: MachineInfo): (string, string, string) {
    (m.architecture, m.family, m.model)
  }

  /** A machine fits if none is asked for by model, or if it has the key asked for; names and flags do not matter. */
  predicate Fits(expected: MachineInfo, m: MachineInfo) {
    expected.model != "" ==> MachineKey(expected) == MachineKey(m)
  }

  lemma FitsIsCompatible(expected: MachineInfo, m: MachineInfo)
    ensures Fits(expected, m) <==> expected.model == "" || CompatibleWith(expected, m)
    ensures CompatibleWith(expected, m) <==> m.(modelName := expected.modelName, flags := expected.flags) == expected
  {
  }

  /** Still serves builds already placed on it. */
  predicate Serving(v: View) {
    v.status != Unhealthy && v.isBuilder
  }

  // ---------------------------------------------------------------- shuffle

  function Swap<T>(s: seq<T>, i: nat, j: nat): (r: seq<T>)
    requires i < |s| && j < |s|
  {
    s[i := s[j]][j := s[i]]
  }

  /** The swap partner the generator draws for position i: any position up to i. */
  function Drawn(draws: nat -> nat, i: nat): (j: nat)
    ensures j <= i
    ensures draws(i) <= i ==> j == draws(i)
  {
    draws(i) % (i + 1)
  }

  /** The swaps at positions i, i - 1, ..., 1. */
  function Shuffled<T>(s: seq<T>, i: nat, draws: nat -> nat): (r: seq<T>)
    requires i < |s| || s == []
    ensures |r| == |s|
    decreases i
  {
    if i == 0 || s == [] then s else Shuffled(Swap(s, i, Drawn(draws, i)), i - 1, draws)
  }

  /** A shuffle loses nothing and repeats nothing. */
  lemma {:induction false} ShufflePermutes<T>(s: seq<T>, i: nat, draws: nat -> nat)
    requires i < |s| || s == []
    ensures multiset(Shuffled(s, i, draws)) == multiset(s)
    decreases i
  {
    if i > 0 && s != [] {
      ShufflePermutes(Swap(s, i, Drawn(draws, i)), i - 1, draws);
    }
  }

  lemma ShuffleKeepsMembers<T>(s: seq<T>, i: nat, draws: nat -> nat)
    requires i < |s| || s == []
    ensures forall p :: p in Shuffled(s, i, draws) <==> p in s
  {
    ShufflePermutes(s, i, draws);
    assert forall p :: p in s <==> p in multiset(s);
    assert forall p :: p in Shuffled(s, i, draws) <==> p in multiset(Shuffled(s, i, draws));
  }

  function LastIndex<T>(s: seq<T>): nat {
    if s == [] then 0 else |s| - 1
  }

  method Shuffle<T>(a: array<T>, draws: nat -> nat)
    modifies a
    ensures a[..] == Shuffled(old(a[..]), LastIndex(old(a[..])), draws)
  {
    var i := LastIndex(a[..]);
    while i > 0
      invariant 0 <= i && (i < a.Length || a[..] == [])
      invariant Shuffled(a[..], i, draws) == Shuffled(old(a[..]), LastIndex(old(a[..])), draws)
    {
      var j := Drawn(draws, i);
      ghost var before := a[..];
      a[i], a[j] := a[j], a[i];
      assert a[..] == Swap(before, i, j);
      i := i - 1;
    }
  }

  /** The draw that brings position k to the front and moves nothing else. */
  function ToFront(k: nat): nat -> nat {
    i => if i == k then 0 else i
  }

  lemma {:induction false} ToFrontWorks<T>(s: seq<T>, k: nat, i: nat)
    requires k < |s| && i < |s|
    ensures Shuffled(s, i, ToFront(k)) == if 0 < k <= i then Swap(s, k, 0) else s
    decreases i
  {
    if i > 0 {
      var swapped := Swap(s, i, Drawn(ToFront(k), i));
      ToFrontWorks(swapped, k, i - 1);
      assert i != k ==> swapped == s;
    }
  }

  // ---------------------------------------------------------------- choice

  /** The first candidate in list order. */
  function FirstOf<T(==)>(list: seq<T>, candidates: set<T>): (r: Option<T>)
    ensures r.Some? ==> r.value in list && r.value in candidates
    ensures r.None? ==> forall p :: p in list ==> p !in candidates
  {
    if list == [] then None
    else if list[0] in candidates then Some(list[0])
    else FirstOf(list[1..], candidates)
  }

  /** What a random choice with these draws returns. */
  function Picked<T(==)>(list: seq<T>, candidates: set<T>, draws: nat -> nat): Option<T> {
    FirstOf(Shuffled(list, LastIndex(list), draws), candidates)
  }

  /** The choice is open to every candidate: some draws pick it. */
  lemma EveryCandidateCanBePicked<T>(list: seq<T>, candidates: set<T>, p: T)
    requires p in list && p in candidates
    ensures exists draws: nat -> nat :: Picked(list, candidates, draws) == Some(p)
  {
    var k :| 0 <= k < |list| && list[k] == p;
    ToFrontWorks(list, k, |list| - 1);
    assert Swap(list, k, 0)[0] == p;
    assert Picked(list, candidates, ToFront(k)) == Some(p);
  }

  class Cluster {
    var instances: map<string, Instance>

    ghost predicate Pooled(p: Instance)
      reads this
    {
      p in instances.Values
    }

    constructor (instances: map<string, Instance>)
      ensures this.instances == instances
    {
      this.instances := instances;
    }

    /** The instances in the map's unspecified order. */
    method Items() returns (items: seq<Instance>)
      ensures forall p :: p in items <==> Pooled(p)
    {
      items := [];
      var rest := instances.Keys;
      while rest != {}
        invariant rest <= instances.Keys
        invariant forall p :: p in items ==> Pooled(p)
        invariant forall n :: n in instances && n !in rest ==> instances[n] in items
      {
        var n :| n in rest;
        items := items + [instances[n]];
        rest := rest - {n};
      }
    }

    ghost function Matching(isMatch: View -> bool): set<Instance>
      reads this, instances.Values
    {
      set p | p in instances.Values && isMatch(p.Synced())
    }

    method GetRandomInstance(isMatch: View -> bool, draws: nat -> nat) returns (r: Option<Instance>, ghost listing: seq<Instance>)
      ensures forall p :: p in listing <==> Pooled(p)
      ensures r == Picked(listing, Matching(isMatch), draws)
      ensures r.None? ==> Matching(isMatch) == {}
    {
      var items := Items();
      listing := items;
      var list := new Instance[|items|](i requires 0 <= i < |items| => items[i]);
      assert list[..] == items;
      Shuffle(list, draws);
      ShuffleKeepsMembers(items, LastIndex(items), draws);
      ghost var candidates := Matching(isMatch);
      for i := 0 to list.Length
        invariant FirstOf(list[i..], candidates) == Picked(items, candidates, draws)
      {
        assert list[i..][0] == list[i] && list[i..][1..] == list[i + 1..];
        assert list[i] in list[..];
        if isMatch(list[i].Synced()) {
          return Some(list[i]), listing;
        }
      }
      return None, listing;
    }

    /** For every shuffle: a builder is found if and only if some pooled instance is available, and it is one. */
    method GetAvailableTemplateBuilder(expected: MachineInfo, draws: nat -> nat) returns (r: Result<Instance, BuilderError>)
      ensures r.Ok? <==> exists p :: Pooled(p) && p.status == Healthy && p.isBuilder && Fits(expected, p.machine)
      ensures r.Ok? ==> Pooled(r.value) && r.value.status == Healthy && r.value.isBuilder && Fits(expected, r.value.machine)
      ensures r.Err? ==> r.error == AvailableTemplateBuilderNotFound
    {
      var isMatch := (v: View) => Available(v, expected);
      var found, _ := GetRandomInstance(isMatch, draws);
      assert found.Some? ==> found.value in Matching(isMatch);
      forall m ensures Fits(expected, m) <==> expected.model == "" || CompatibleWith(expected, m) { FitsIsCompatible(expected, m); }
      assert forall p :: Pooled(p) && p.status == Healthy && p.isBuilder && Fits(expected, p.machine) ==> p in Matching(isMatch);
      return if found.Some? then Ok(found.value) else Err(AvailableTemplateBuilderNotFound);
    }

    /** The preferred machine first, then any machine: the preference never costs availability. */
    method GetAvailableBuildClient(preferred: MachineInfo, draws: nat -> nat, fallbackDraws: nat -> nat)
      returns (r: Result<Instance, BuilderError>)
      ensures r.Ok? <==> exists p :: Pooled(p) && p.status == Healthy && p.isBuilder
      ensures r.Ok? ==> Pooled(r.value) && r.value.status == Healthy && r.value.isBuilder
      ensures r.Ok? && (exists p :: Pooled(p) && p.status == Healthy && p.isBuilder && Fits(preferred, p.machine)) ==> Fits(preferred, r.value.machine)
    {
      r := GetAvailableTemplateBuilder(preferred, draws);
      if r.Err? {
        r := GetAvailableTemplateBuilder(NO_MACHINE, fallbackDraws);
      }
    }

    method GetTemplateBuilderByNodeID(nodeId: string) returns (r: Result<Instance, BuilderError>)
      ensures r.Ok? <==> nodeId in instances && instances[nodeId].status != Unhealthy && instances[nodeId].isBuilder
      ensures r.Ok? ==> r.value == instances[nodeId]
      ensures r.Err? ==> r.error == TemplateBuilderNotFound
    {
      if nodeId !in instances { return Err(TemplateBuilderNotFound); }
      var info := instances[nodeId].Synced();
      if info.status == Unhealthy || !info.isBuilder { return Err(TemplateBuilderNotFound); }
      return Ok(instances[nodeId]);
    }
  }

  /** A draining builder keeps its builds but gets no new one; three failed syncs in a row take both away. */
  lemma BuilderSelectionFollowsHistory(v: View, history: seq<Outcome>, last: nat, report: Report, failures: nat, expected: MachineInfo)
    requires LastAnswer(history, last, report, failures)
    ensures Available(After(v, history), expected) ==> Serving(After(v, history))
    ensures Serving(After(v, history)) <==> failures < 3 && report.status != Unhealthy && TemplateBuilder in report.roles
    ensures Available(After(v, history), NO_MACHINE) <==> failures < 3 && report.status == Healthy && TemplateBuilder in report.roles
  {
    HealthIsHistory(v, history, last, report, failures);
  }
}
