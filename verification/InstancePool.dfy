/**
 The pool of a cluster's instances and the rounds that follow service discovery.

 Instances are stored by node id, but discovery is matched by unique identifier. A
 round is an insert pass over the discovered items and a remove pass over the pool.
 */
module InstancePool {
  import opened Wrappers
  import opened Instances

  datatype Item = Item(uniqueIdentifier: string, nodeId: string, instanceId: string)

  /** The pool on values: node id to unique identifier. */
  type Ids = map<string, string>

  predicate Listed(uid: string, items: seq<Item>) {
    exists i :: 0 <= i < |items| && items[i].uniqueIdentifier == uid
  }

  predicate ListedAt(node: string, uid: string, items: seq<Item>) {
    exists i :: 0 <= i < |items| && items[i].nodeId == node && items[i].uniqueIdentifier == uid
  }

  predicate DistinctNodes(items: seq<Item>) {
    forall i, j :: 0 <= i < j < |items| ==> items[i].nodeId != items[j].nodeId
  }

  /** An insert pass; `dial` is the first sync call of each instance that is created. */
  function Discovered(ids: Ids, items: seq<Item>, dial: Item -> Outcome): Ids {
    if items == [] then ids else
    var earlier := Discovered(ids, items[..|items| - 1], dial);
    var item := items[|items| - 1];
    if item.nodeId !in earlier && dial(item).Answer? then earlier[item.nodeId := item.uniqueIdentifier] else earlier
  }

  /** A remove pass. */
  function Outdated(ids: Ids, items: seq<Item>): Ids {
    map n | n in ids && Listed(ids[n], items) :: ids[n]
  }

  // ---------------------------------------------------------------- convergence

  datatype Pass = InsertPass(dial: Item -> Outcome) | RemovePass

  function RunPass(ids: Ids, items: seq<Item>, pass: Pass): Ids {
    if pass.InsertPass? then Discovered(ids, items, pass.dial) else Outdated(ids, items)
  }

  function RunPasses(ids: Ids, items: seq<Item>, passes: seq<Pass>): Ids
    decreases |passes|
  {
    if passes == [] then ids else RunPasses(RunPass(ids, items, passes[0]), items, passes[1..])
  }

  /** The pool holds what discovery lists, and nothing else. */
  ghost predicate IsSource(ids: Ids, items: seq<Item>) {
    && (forall i :: 0 <= i < |items| ==> items[i].nodeId in ids)
    && (forall n :: n in ids ==> ListedAt(n, ids[n], items))
  }

  /** An entry whose identifier discovery lists, but not at the entry's node. */
  predicate Moved(ids: Ids, items: seq<Item>) {
    exists n :: n in ids && Listed(ids[n], items) && !ListedAt(n, ids[n], items)
  }

  /** Entries are kept; every other listed node gets the item of its own, if that answers. */
  lemma {:induction false} DiscoveredPointwise(ids: Ids, items: seq<Item>, dial: Item -> Outcome)
    ensures forall n :: n in ids ==> n in Discovered(ids, items, dial) && Discovered(ids, items, dial)[n] == ids[n]
    ensures forall n :: n in Discovered(ids, items, dial) && n !in ids ==>
              exists i :: 0 <= i < |items| && items[i] == Item(Discovered(ids, items, dial)[n], n, items[i].instanceId) && dial(items[i]).Answer?
    ensures forall i :: 0 <= i < |items| && dial(items[i]).Answer? ==> items[i].nodeId in Discovered(ids, items, dial)
  {
    if items != [] {
      var front, item := items[..|items| - 1], items[|items| - 1];
      DiscoveredPointwise(ids, front, dial);
      var earlier, after := Discovered(ids, front, dial), Discovered(ids, items, dial);
      forall n | n in after && n !in ids
        ensures exists i :: 0 <= i < |items| && items[i] == Item(after[n], n, items[i].instanceId) && dial(items[i]).Answer?
      {
        if n in earlier {
          var i :| 0 <= i < |front| && front[i] == Item(earlier[n], n, front[i].instanceId) && dial(front[i]).Answer?;
          assert items[i] == front[i];
        } else {
          assert items[|items| - 1] == Item(after[n], n, item.instanceId);
        }
      }
      forall i | 0 <= i < |items| && dial(items[i]).Answer? ensures items[i].nodeId in after {
        if i < |front| { assert front[i] == items[i]; }
      }
    }
  }

  /** The goroutines of an insert pass may run in any order: with distinct nodes the order does not show. */
  lemma InsertOrderKeepsEntries(ids: Ids, items: seq<Item>, reordered: seq<Item>, dial: Item -> Outcome)
    requires DistinctNodes(items) && forall x :: x in items <==> x in reordered
    ensures var a, b := Discovered(ids, items, dial), Discovered(ids, reordered, dial);
            forall n :: n in a ==> n in b && a[n] == b[n]
  {
    DiscoveredPointwise(ids, items, dial);
    DiscoveredPointwise(ids, reordered, dial);
    var a, b := Discovered(ids, items, dial), Discovered(ids, reordered, dial);
    forall n | n in a && n !in ids ensures n in b && a[n] == b[n] {
      var i :| 0 <= i < |items| && items[i] == Item(a[n], n, items[i].instanceId) && dial(items[i]).Answer?;
      assert items[i] in reordered;
      var j :| 0 <= j < |reordered| && reordered[j] == Item(b[n], n, reordered[j].instanceId) && dial(reordered[j]).Answer?;
      assert reordered[j] in items;
    }
  }

  lemma InsertOrderDoesNotShow(ids: Ids, items: seq<Item>, reordered: seq<Item>, dial: Item -> Outcome)
    requires DistinctNodes(items) && multiset(items) == multiset(reordered)
    ensures Discovered(ids, items, dial) == Discovered(ids, reordered, dial)
  {
    assert forall x :: x in items <==> x in multiset(items);
    assert forall x :: x in reordered <==> x in multiset(reordered);
    DistinctNodesReordered(items, reordered);
    InsertOrderKeepsEntries(ids, items, reordered, dial);
    InsertOrderKeepsEntries(ids, reordered, items, dial);
  }

  lemma DistinctNodesReordered(items: seq<Item>, reordered: seq<Item>)
    requires DistinctNodes(items) && multiset(items) == multiset(reordered)
    ensures DistinctNodes(reordered)
  {
    forall i, j | 0 <= i < j < |reordered| ensures reordered[i].nodeId != reordered[j].nodeId {
      var x, y := reordered[i], reordered[j];
      assert reordered == reordered[..i] + [x] + reordered[i + 1..j] + [y] + reordered[j + 1..];
      assert x in multiset(items) && y in multiset(items);
      assert multiset(reordered)[x] >= if x == y then 2 else 1;
      OnceEach(items, x);
    }
  }

  lemma {:induction false} OnceEach(items: seq<Item>, x: Item)
    requires DistinctNodes(items)
    ensures multiset(items)[x] <= 1
  {
    if items != [] {
      var front := items[..|items| - 1];
      assert items == front + [items[|items| - 1]];
      OnceEach(front, x);
      assert items[|items| - 1] == x ==> x !in front;
    }
  }

  /** No pass creates or cures a moved entry. */
  lemma PassKeepsMoved(ids: Ids, items: seq<Item>, pass: Pass)
    ensures Moved(RunPass(ids, items, pass), items) <==> Moved(ids, items)
  {
    var after := RunPass(ids, items, pass);
    if pass.InsertPass? {
      DiscoveredPointwise(ids, items, pass.dial);
    }
    if Moved(ids, items) {
      var n :| n in ids && Listed(ids[n], items) && !ListedAt(n, ids[n], items);
      assert n in after && after[n] == ids[n];
    }
    if Moved(after, items) {
      var n :| n in after && Listed(after[n], items) && !ListedAt(n, after[n], items);
      assert n in ids && after[n] == ids[n];
    }
  }

  /** Every entry is one that discovery lists. */
  ghost predicate OnlyListed(ids: Ids, items: seq<Item>) {
    forall n :: n in ids ==> Listed(ids[n], items)
  }

  lemma PassKeepsListed(ids: Ids, items: seq<Item>, pass: Pass)
    requires pass.RemovePass? || OnlyListed(ids, items)
    ensures OnlyListed(RunPass(ids, items, pass), items)
  {
    if pass.InsertPass? {
      DiscoveredPointwise(ids, items, pass.dial);
      var after := RunPass(ids, items, pass);
      forall n | n in after && n !in ids ensures Listed(after[n], items) { }
    }
  }

  /** Creation succeeds for all discovered items. */
  ghost predicate AllAnswer(items: seq<Item>, pass: Pass) {
    pass.InsertPass? && forall i :: 0 <= i < |items| ==> pass.dial(items[i]).Answer?
  }

  ghost predicate Covers(ids: Ids, items: seq<Item>) {
    forall i :: 0 <= i < |items| ==> items[i].nodeId in ids
  }

  lemma PassCovers(ids: Ids, items: seq<Item>, pass: Pass)
    requires OnlyListed(ids, items)
    requires Covers(ids, items) || AllAnswer(items, pass)
    ensures Covers(RunPass(ids, items, pass), items)
  {
    if pass.InsertPass? {
      DiscoveredPointwise(ids, items, pass.dial);
    } else {
      assert RunPass(ids, items, pass) == ids;
    }
  }

  lemma {:induction false} PassesKeepMoved(ids: Ids, items: seq<Item>, passes: seq<Pass>)
    ensures Moved(RunPasses(ids, items, passes), items) <==> Moved(ids, items)
    decreases |passes|
  {
    if passes != [] {
      PassKeepsMoved(ids, items, passes[0]);
      PassesKeepMoved(RunPass(ids, items, passes[0]), items, passes[1..]);
    }
  }

  /** From a pool of listed entries, one insert pass at `i` that creates everything completes it for good. */
  lemma {:induction false} PassesCover(ids: Ids, items: seq<Item>, passes: seq<Pass>, i: int)
    requires OnlyListed(ids, items)
    requires Covers(ids, items) || (0 <= i < |passes| && AllAnswer(items, passes[i]))
    ensures OnlyListed(RunPasses(ids, items, passes), items) && Covers(RunPasses(ids, items, passes), items)
    decreases |passes|
  {
    if passes != [] {
      PassKeepsListed(ids, items, passes[0]);
      if Covers(ids, items) || i == 0 {
        PassCovers(ids, items, passes[0]);
      }
      PassesCover(RunPass(ids, items, passes[0]), items, passes[1..], i - 1);
    }
  }

  lemma {:induction false} PassesReach(ids: Ids, items: seq<Item>, passes: seq<Pass>, r: nat, i: nat)
    requires r < i < |passes| && passes[r].RemovePass? && AllAnswer(items, passes[i])
    ensures OnlyListed(RunPasses(ids, items, passes), items) && Covers(RunPasses(ids, items, passes), items)
    decreases |passes|
  {
    var next := RunPass(ids, items, passes[0]);
    if r == 0 {
      PassKeepsListed(ids, items, passes[0]);
      PassesCover(next, items, passes[1..], i - 1);
    } else {
      PassesReach(next, items, passes[1..], r - 1, i - 1);
    }
  }

  /**
   Convergence: from any pool, any schedule of passes with some remove pass and, later,
   some insert pass whose creations all succeed leaves exactly the source, if and only
   if no entry of the starting pool had moved.
   */
  lemma PassesConverge(ids: Ids, items: seq<Item>, passes: seq<Pass>, r: nat, i: nat)
    requires r < i < |passes| && passes[r].RemovePass? && AllAnswer(items, passes[i])
    ensures IsSource(RunPasses(ids, items, passes), items) <==> !Moved(ids, items)
  {
    PassesKeepMoved(ids, items, passes);
    PassesReach(ids, items, passes, r, i);
  }

  /** Two rounds do, whichever pass comes first; one round may not. */
  lemma TwoRoundsConverge(ids: Ids, items: seq<Item>, first: Pass, second: Pass)
    requires AllAnswer(items, first) && AllAnswer(items, second)
    ensures IsSource(RunPasses(ids, items, [first, RemovePass, second, RemovePass]), items) <==> !Moved(ids, items)
    ensures IsSource(RunPasses(ids, items, [RemovePass, first, RemovePass, second]), items) <==> !Moved(ids, items)
  {
    PassesConverge(ids, items, [first, RemovePass, second, RemovePass], 1, 2);
    PassesConverge(ids, items, [RemovePass, first, RemovePass, second], 0, 1);
  }

  /** The source fixes the pool: with distinct nodes, two pools that are the source are equal. */
  lemma SourceIsUnique(a: Ids, b: Ids, items: seq<Item>)
    requires DistinctNodes(items) && IsSource(a, items) && IsSource(b, items)
    ensures a == b
  {
    forall n | n in a ensures n in b && a[n] == b[n] {
      var i :| 0 <= i < |items| && items[i].nodeId == n && items[i].uniqueIdentifier == a[n];
      var j :| 0 <= j < |items| && items[j].nodeId == n && items[j].uniqueIdentifier == b[n];
      assert i == j;
    }
    forall n | n in b ensures n in a {
      var j :| 0 <= j < |items| && items[j].nodeId == n && items[j].uniqueIdentifier == b[n];
    }
  }

  /** An allocation that moves to another node keeps its old entry for as long as it is listed. */
  lemma MovedEntryStays(uid: string, from: string, to: string, passes: seq<Pass>)
    requires from != to
    ensures from in RunPasses(map[from := uid], [Item(uid, to, "")], passes)
    decreases |passes|
  {
    MovedEntryStaysIn(map[from := uid], uid, from, to, passes);
  }

  lemma MovedEntryStaysIn(ids: Ids, uid: string, from: string, to: string, passes: seq<Pass>)
    requires from != to && from in ids && ids[from] == uid
    ensures from in RunPasses(ids, [Item(uid, to, "")], passes)
    decreases |passes|
  {
    if passes != [] {
      var items := [Item(uid, to, "")];
      if passes[0].InsertPass? {
        DiscoveredPointwise(ids, items, passes[0].dial);
      } else {
        assert items[0].uniqueIdentifier == uid;
      }
      MovedEntryStaysIn(RunPass(ids, items, passes[0]), uid, from, to, passes[1..]);
    }
  }

  // ---------------------------------------------------------------- runs over changing sources

  /** One round with the list discovery returned for it, or without one after an error. */
  datatype Round = Round(source: Option<seq<Item>>, dial: Item -> Outcome)

  function RunRound(ids: Ids, round: Round): Ids {
    if round.source.None? then ids
    else Outdated(Discovered(ids, round.source.value, round.dial), round.source.value)
  }

  function RunRounds(ids: Ids, rounds: seq<Round>): Ids
    decreases |rounds|
  {
    if rounds == [] then ids else RunRounds(RunRound(ids, rounds[0]), rounds[1..])
  }

  /** Every entry sits on the node its identifier belongs to. */
  ghost predicate AtHome(ids: Ids, home: string -> string) {
    forall n :: n in ids ==> home(ids[n]) == n
  }

  ghost predicate HomesKept(items: seq<Item>, home: string -> string) {
    forall i :: 0 <= i < |items| ==> home(items[i].uniqueIdentifier) == items[i].nodeId
  }

  lemma {:induction false} RoundsKeepHomes(ids: Ids, rounds: seq<Round>, home: string -> string)
    requires AtHome(ids, home)
    requires forall i :: 0 <= i < |rounds| && rounds[i].source.Some? ==> HomesKept(rounds[i].source.value, home)
    ensures AtHome(RunRounds(ids, rounds), home)
    decreases |rounds|
  {
    if rounds != [] {
      var next := RunRound(ids, rounds[0]);
      if rounds[0].source.Some? {
        DiscoveredPointwise(ids, rounds[0].source.value, rounds[0].dial);
        assert AtHome(next, home);
      }
      RoundsKeepHomes(next, rounds[1..], home);
    }
  }

  /**
   If no identifier ever changes its node, then after any history of rounds, failed
   discovery and failed creations included, two rounds over one source in which all
   creations succeed make the pool that source.
   */
  lemma {:induction false} HistoryConverges(history: seq<Round>, items: seq<Item>, dial: Item -> Outcome, home: string -> string)
    requires forall i :: 0 <= i < |history| && history[i].source.Some? ==> HomesKept(history[i].source.value, home)
    requires HomesKept(items, home)
    requires AllAnswer(items, InsertPass(dial))
    ensures var last := Round(Some(items), dial);
            IsSource(RunRound(RunRound(RunRounds(map[], history), last), last), items)
  {
    var ids := RunRounds(map[], history);
    RoundsKeepHomes(map[], history, home);
    assert !Moved(ids, items);
    var pass := InsertPass(dial);
    TwoRoundsConverge(ids, items, pass, pass);
    var a := RunPass(ids, items, pass);
    var b := RunPass(a, items, RemovePass);
    var c := RunPass(b, items, pass);
    assert RunPasses(ids, items, [pass, RemovePass, pass, RemovePass])
        == RunPasses(a, items, [RemovePass, pass, RemovePass])
        == RunPasses(b, items, [pass, RemovePass])
        == RunPasses(c, items, [RemovePass])
        == RunPass(c, items, RemovePass);
  }

  // ---------------------------------------------------------------- the pool

  function IdsOf(instances: map<string, Instance>): Ids {
    map n | n in instances :: instances[n].uniqueIdentifier
  }

  lemma RemovedIsOutdated(was: map<string, Instance>, gone: set<string>, items: seq<Item>)
    requires forall n :: n in was ==> (n in gone <==> !Listed(was[n].uniqueIdentifier, items))
    ensures IdsOf(was - gone) == Outdated(IdsOf(was), items)
  {
  }

  class Pool {
    var instances: map<string, Instance>
    /** Keyed by node id, and every pooled instance is open. */
    ghost predicate Valid()
      reads this, instances.Values
    {
      forall n :: n in instances ==> instances[n].nodeId == n && instances[n].closes == 0
    }

    function Ids(): Ids
      reads this
    {
      IdsOf(instances)
    }

    constructor ()
      ensures Valid() && instances == map[]
    {
      instances := map[];
    }

    method SourceExists(s: seq<Item>, p: Instance) returns (found: bool)
      ensures found <==> Listed(p.uniqueIdentifier, s)
    {
      for i := 0 to |s|
        invariant !Listed(p.uniqueIdentifier, s[..i])
      {
        if s[i].uniqueIdentifier == p.uniqueIdentifier { return true; }
        assert s[..i + 1] == s[..i] + [s[i]];
      }
      assert s[..|s|] == s;
      return false;
    }

    /** The pooled instances, each once, in the map's unspecified order: the `i`th is that of `nodes[i]`. */
    method PoolList() returns (mapped: seq<Instance>, ghost nodes: seq<string>)
      ensures |nodes| == |mapped|
      ensures forall i :: 0 <= i < |nodes| ==> nodes[i] in instances && mapped[i] == instances[nodes[i]]
      ensures forall i, j :: 0 <= i < j < |nodes| ==> nodes[i] != nodes[j]
      ensures forall n :: n in instances ==> n in nodes
    {
      mapped, nodes := [], [];
      var rest := instances.Keys;
      while rest != {}
        invariant rest <= instances.Keys
        invariant |nodes| == |mapped|
        invariant forall i :: 0 <= i < |nodes| ==> nodes[i] in instances && nodes[i] !in rest && mapped[i] == instances[nodes[i]]
        invariant forall i, j :: 0 <= i < j < |nodes| ==> nodes[i] != nodes[j]
        invariant forall n :: n in instances ==> n in nodes || n in rest
      {
        var n :| n in rest;
        mapped, nodes := mapped + [instances[n]], nodes + [n];
        rest := rest - {n};
      }
    }

    method PoolExists(s: Item) returns (found: bool)
      ensures found <==> s.nodeId in instances
    {
      return s.nodeId in instances;
    }

    /** An entry under the node is overwritten, unclosed; the round's PoolExists test comes first, so there is none. */
    method PoolInsert(item: Item, first: Outcome)
      requires Valid()
      modifies this`instances
      ensures Valid()
      ensures Ids() == if first.Answer? then old(Ids())[item.nodeId := item.uniqueIdentifier] else old(Ids())
      ensures first.Failure? ==> instances == old(instances)
      ensures first.Answer? ==> item.nodeId in instances && fresh(instances[item.nodeId])
                                && instances == old(instances)[item.nodeId := instances[item.nodeId]]
    {
      var instance := NewInstance(item.uniqueIdentifier, item.nodeId, item.instanceId, first);
      if instance.None? { return; }
      instances := instances[item.nodeId := instance.value];
    }

    /** The instance is the pool's entry for its node. */
    predicate Pooled(p: Instance)
      reads this
    {
      p.nodeId in instances && instances[p.nodeId] == p
    }

    method PoolUpdate(instance: Instance, outcome: Outcome)
      modifies instance
      ensures instance.Synced() == Step(old(instance.Synced()), outcome)
      ensures instance.history == old(instance.history) + [outcome] && instance.closes == old(instance.closes)
      ensures old(instance.Valid()) ==> instance.Valid()
    {
      var ok := instance.Sync(outcome);
    }

    method PoolRemove(instance: Instance)
      requires Pooled(instance)
      modifies this, instance`closes
      ensures instances == old(instances) - {instance.nodeId}
      ensures instance.closes == old(instance.closes) + 1
    {
      instance.Close();
      instances := instances - {instance.nodeId};
    }

    /** The work for one discovered item: what the pool has is left alone. */
    method SyncDiscoveredItem(item: Item, first: Outcome)
      requires Valid()
      modifies this`instances
      ensures Valid()
      ensures Ids() == if item.nodeId !in old(Ids()) && first.Answer? then old(Ids())[item.nodeId := item.uniqueIdentifier] else old(Ids())
      ensures old(instances.Keys) <= instances.Keys && instances - (instances.Keys - old(instances.Keys)) == old(instances)
      ensures forall n :: n in instances.Keys - old(instances.Keys) ==> fresh(instances[n])
    {
      var found := PoolExists(item);
      if !found {
        PoolInsert(item, first);
      }
    }

    /** The insert pass of a round. */
    method SyncDiscovered(items: seq<Item>, dial: Item -> Outcome)
      requires Valid()
      modifies this`instances
      ensures Valid()
      ensures Ids() == Discovered(old(Ids()), items, dial)
      ensures old(instances.Keys) <= instances.Keys && instances - (instances.Keys - old(instances.Keys)) == old(instances)
      ensures forall n :: n in instances.Keys - old(instances.Keys) ==> fresh(instances[n])
    {
      for k := 0 to |items|
        invariant Valid()
        invariant Ids() == Discovered(old(Ids()), items[..k], dial)
        invariant old(instances.Keys) <= instances.Keys && instances - (instances.Keys - old(instances.Keys)) == old(instances)
        invariant forall n :: n in instances.Keys - old(instances.Keys) ==> fresh(instances[n])
      {
        assert items[..k + 1][..k] == items[..k];
        SyncDiscoveredItem(items[k], dial(items[k]));
      }
      assert items[..|items|] == items;
    }

    /** The work for one pooled instance: synced if discovery lists it, else closed and removed. */
    method SyncOutdatedItem(p: Instance, items: seq<Item>, answer: Outcome)
      requires Pooled(p)
      modifies this, p
      ensures instances == if Listed(p.uniqueIdentifier, items) then old(instances) else old(instances) - {p.nodeId}
      ensures p.closes == old(p.closes) + if Listed(p.uniqueIdentifier, items) then 0 else 1
      ensures Listed(p.uniqueIdentifier, items) ==> p.history == old(p.history) + [answer]
    {
      var found := SourceExists(items, p);
      if found {
        PoolUpdate(p, answer);
      } else {
        PoolRemove(p);
      }
    }

    /** The remove pass over the listed instances, those of `nodes`; `gone` are the nodes it empties. */
    method SyncListed(list: seq<Instance>, ghost nodes: seq<string>, items: seq<Item>, answers: Instance -> Outcome) returns (ghost gone: set<string>)
      requires |nodes| == |list|
      requires forall i :: 0 <= i < |list| ==> nodes[i] in instances && instances[nodes[i]] == list[i] && list[i].nodeId == nodes[i]
      requires forall i, j :: 0 <= i < j < |list| ==> nodes[i] != nodes[j]
      requires forall i :: 0 <= i < |list| ==> list[i].closes == 0
      modifies this, list
      ensures instances == old(instances) - gone
      ensures forall i :: 0 <= i < |list| ==> (nodes[i] in gone <==> !Listed(list[i].uniqueIdentifier, items))
      ensures forall i :: 0 <= i < |list| ==> list[i].closes == if nodes[i] in gone then 1 else 0
      ensures forall i :: 0 <= i < |list| && nodes[i] !in gone ==> list[i].history == old(list[i].history) + [answers(list[i])]
    {
      gone := {};
      ghost var was := instances;
      for k := 0 to |list|
        invariant instances == was - gone
        invariant forall i :: 0 <= i < |list| ==> (nodes[i] in gone <==> i < k && !Listed(list[i].uniqueIdentifier, items))
        invariant forall i :: 0 <= i < |list| ==> list[i].closes == if nodes[i] in gone then 1 else 0
        invariant forall i :: k <= i < |list| ==> list[i].history == old(list[i].history)
        invariant forall i :: 0 <= i < k && nodes[i] !in gone ==> list[i].history == old(list[i].history) + [answers(list[i])]
      {
        SyncOutdatedItem(list[k], items, answers(list[k]));
        if !Listed(list[k].uniqueIdentifier, items) { gone := gone + {nodes[k]}; }
      }
    }

    /** The remove pass of a round. Each removed instance is closed once, and as it is out of the frame of later calls, never again. */
    method SyncOutdated(items: seq<Item>, answers: Instance -> Outcome)
      requires Valid()
      modifies this, instances.Values
      ensures Valid()
      ensures Ids() == Outdated(old(Ids()), items)
      ensures instances.Keys <= old(instances.Keys) && forall n :: n in instances ==> instances[n] == old(instances)[n]
      ensures forall n :: n in instances ==> instances[n].history == old(instances[n].history) + [answers(instances[n])]
      ensures forall n :: n in old(instances) && n !in instances ==> old(instances)[n].closes == 1
    {
      var list, nodes := PoolList();
      ghost var was := instances;
      var gone := SyncListed(list, nodes, items, answers);
      assert forall n :: n in was ==> (n in gone <==> !Listed(was[n].uniqueIdentifier, items));
      RemovedIsOutdated(was, gone, items);
    }

    /** One round; an error from discovery ends it before it changes anything. */
    method Sync(source: Option<seq<Item>>, dial: Item -> Outcome, answers: Instance -> Outcome)
      requires Valid()
      modifies this, instances.Values
      ensures Valid()
      ensures Ids() == RunRound(old(Ids()), Round(source, dial))
      ensures forall n :: n in old(instances) ==>
                if n in instances then instances[n] == old(instances)[n] else old(instances)[n].closes == 1
    {
      if source.None? { return; }
      SyncDiscovered(source.value, dial);
      ghost var joined := instances;
      assert Valid() && Ids() == Discovered(old(Ids()), source.value, dial);
      assert forall n :: n in old(instances) ==> n in joined && joined[n] == old(instances)[n];
      SyncOutdated(source.value, answers);
    }
  }
}
