/**
 State transitions of one stored sandbox under concurrent requests.

 The source keeps a state and a transition slot behind a lock. The model keeps the log
 of transitions that were ever started; state and slot are functions of that log, and
 `MemorySandbox` shows that the locked sections compute them.
 */
module SandboxTransitions {
  import opened Wrappers

  datatype State = Running | Pausing | Killing | Snapshotting | Unrecognized(text: string)

  datatype Action = Pause | Kill | Snapshot

  function Target(a: Action): State {
    match a
    case Pause => Pausing
    case Kill => Killing
    case Snapshot => Snapshotting
  }

  /** The sandbox does not outlive the action; a snapshot gives it back. */
  predicate Expires(a: Action) {
    a != Snapshot
  }

  predicate Allowed(from: State, to: State) {
    match from
    case Running => to == Pausing || to == Killing || to == Snapshotting
    case Pausing => to == Killing
    case Snapshotting => to == Running || to == Killing || to == Pausing
    case _ => false
  }

  // ---------------------------------------------------------------- the log

  /** A started transition; `result` is None while it is in progress. */
  datatype Entry = Entry(action: Action, result: Option<bool>)

  function StateAfter(log: seq<Entry>): State {
    if log == [] then Running else
    var last := log[|log| - 1];
    if last == Entry(Snapshot, Some(true)) then Running else Target(last.action)
  }

  /** The slot is taken: by a transition in progress, or for good by a failed pause or kill. */
  predicate Blocking(log: seq<Entry>) {
    log != [] &&
    var last := log[|log| - 1];
    last.result.None? || (Expires(last.action) && last.result == Some(false))
  }

  /** What a waiter on a finished transition sees; failed snapshots report no error. */
  predicate Errs(e: Entry) {
    Expires(e.action) && e.result == Some(false)
  }

  datatype Outcome = Rejected(current: State) | NotEvictable | AlreadyDone | Wait(seen: State) | Started

  /** One locked section of a removal request. */
  function Attempt(log: seq<Entry>, a: Action, eviction: bool, expired: bool): Outcome {
    var s, t := StateAfter(log), Target(a);
    if eviction && (Blocking(log) || !expired) then NotEvictable
    else if Blocking(log) then
      if s != t && !Allowed(s, t) then Rejected(s) else Wait(s)
    else if s == t then AlreadyDone
    else if !Allowed(s, t) then Rejected(s)
    else Started
  }

  function Completed(log: seq<Entry>, ok: bool): seq<Entry>
    requires log != []
  {
    log[|log| - 1 := log[|log| - 1].(result := Some(ok))]
  }

  /** Every entry was started with a free slot, from a state that allows it. */
  ghost predicate Lawful(log: seq<Entry>) {
    forall k :: 0 <= k < |log| ==>
      && !Blocking(log[..k])
      && StateAfter(log[..k]) != Target(log[k].action)
      && Allowed(StateAfter(log[..k]), Target(log[k].action))
  }

  /** The entry before a given one decided it could start. */
  lemma LawfulNeighbours(log: seq<Entry>, k: nat)
    requires Lawful(log) && k + 1 < |log|
    ensures log[k].result.Some? && (Expires(log[k].action) ==> log[k].result == Some(true))
    ensures log[k].action != Kill
    ensures log[k].action == Pause ==> log[k + 1].action == Kill
    ensures log[k] == Entry(Snapshot, Some(false)) ==> log[k + 1].action != Snapshot
  {
    var prefix := log[..k + 1];
    assert prefix[|prefix| - 1] == log[k];
    assert !Blocking(prefix) && Allowed(StateAfter(prefix), Target(log[k + 1].action));
    assert log[k].result in {None, Some(true), Some(false)} by {
      if log[k].result.Some? && log[k].result.value { assert log[k].result == Some(true); }
    }
  }

  /** Whatever the requests: some snapshots, then at most one pause, then at most one kill, and nothing after a failed pause. */
  lemma LogShape(log: seq<Entry>, j: nat, k: nat)
    requires Lawful(log) && j < k < |log|
    ensures log[j].action != Kill
    ensures log[j].action == Pause ==> k == j + 1 && log[k].action == Kill && log[j].result == Some(true)
  {
    LawfulNeighbours(log, j);
    if log[j].action == Pause && k > j + 1 {
      LawfulNeighbours(log, j + 1);
    }
  }

  lemma LawfulStart(log: seq<Entry>, a: Action)
    requires Lawful(log) && !Blocking(log)
    requires StateAfter(log) != Target(a) && Allowed(StateAfter(log), Target(a))
    ensures Lawful(log + [Entry(a, None)])
  {
    var next := log + [Entry(a, None)];
    forall k | 0 <= k < |next|
      ensures !Blocking(next[..k]) && StateAfter(next[..k]) != Target(next[k].action)
              && Allowed(StateAfter(next[..k]), Target(next[k].action))
    {
      assert next[..k] == log[..k];
      if k == |log| { assert log[..k] == log; }
    }
  }

  lemma LawfulComplete(log: seq<Entry>, ok: bool)
    requires Lawful(log) && log != []
    ensures Lawful(Completed(log, ok))
  {
    var next := Completed(log, ok);
    forall k | 0 <= k < |next|
      ensures !Blocking(next[..k]) && StateAfter(next[..k]) != Target(next[k].action)
              && Allowed(StateAfter(next[..k]), Target(next[k].action))
    {
      assert next[..k] == log[..k];
      assert next[k].action == log[k].action;
    }
  }

  // ---------------------------------------------------------------- the protocol

  datatype Answer =
    | RejectedAnswer(current: State)
    | NotEvictableAnswer
    | AlreadyDoneAnswer
    | FailedAnswer
    | Performed(entry: nat, ok: bool)

  /** Where a removal request stands. */
  datatype Request =
    | Ready(action: Action, eviction: bool)
    | Owner(action: Action, entry: nat)
    | Waiting(action: Action, entry: nat, seen: State)
    | Done(action: Action, answer: Answer)

  datatype World = World(log: seq<Entry>, requests: seq<Request>)

  /** One atomic step of some request. */
  datatype Move =
    | Arrive(action: Action, eviction: bool)
    | Try(i: nat, expired: bool)
    | Finish(i: nat, ok: bool)
    | Wake(i: nat)
    | Cancel(i: nat)

  function With(w: World, i: nat, r: Request): World
    requires i < |w.requests|
  {
    w.(requests := w.requests[i := r])
  }

  function AfterTry(w: World, i: nat, expired: bool): World
    requires i < |w.requests| && w.requests[i].Ready?
  {
    var Ready(a, eviction) := w.requests[i];
    match Attempt(w.log, a, eviction, expired)
    case Rejected(s) => With(w, i, Done(a, RejectedAnswer(s)))
    case NotEvictable => With(w, i, Done(a, NotEvictableAnswer))
    case AlreadyDone => With(w, i, Done(a, AlreadyDoneAnswer))
    case Wait(s) => if w.log == [] then w else With(w, i, Waiting(a, |w.log| - 1, s))
    case Started => With(w, i, Owner(a, |w.log|)).(log := w.log + [Entry(a, None)])
  }

  function AfterWake(w: World, i: nat): World
    requires i < |w.requests| && w.requests[i].Waiting?
  {
    var Waiting(a, k, seen) := w.requests[i];
    if k >= |w.log| || w.log[k].result.None? then w
    else if Errs(w.log[k]) then With(w, i, Done(a, FailedAnswer))
    else if seen == Target(a) then With(w, i, Done(a, AlreadyDoneAnswer))
    else With(w, i, Ready(a, false))
  }

  /** A move that is not enabled changes nothing. */
  function Step(w: World, m: Move): World {
    match m
    case Arrive(a, eviction) => w.(requests := w.requests + [Ready(a, eviction)])
    case Try(i, expired) =>
      if i < |w.requests| && w.requests[i].Ready? then AfterTry(w, i, expired) else w
    case Finish(i, ok) =>
      if i < |w.requests| && w.requests[i].Owner? && w.log != []
      then With(w, i, Done(w.requests[i].action, Performed(w.requests[i].entry, ok))).(log := Completed(w.log, ok))
      else w
    case Wake(i) =>
      if i < |w.requests| && w.requests[i].Waiting? then AfterWake(w, i) else w
    case Cancel(i) =>
      if i < |w.requests| && w.requests[i].Waiting? then With(w, i, Done(w.requests[i].action, FailedAnswer)) else w
  }

  function RunMoves(w: World, moves: seq<Move>): World
    decreases |moves|
  {
    if moves == [] then w else RunMoves(Step(w, moves[0]), moves[1..])
  }

  const IDLE: World := World([], [])

  // ---------------------------------------------------------------- the invariant

  /** The request carries out, or carried out, the logged transition `k`. */
  predicate Performs(r: Request, k: nat) {
    (r.Owner? && r.entry == k) || (r.Done? && r.answer.Performed? && r.answer.entry == k)
  }

  /** What the log must say for a request to stand where it stands. */
  ghost predicate Justified(log: seq<Entry>, r: Request) {
    match r
    case Ready(_, _) => true
    case Owner(a, k) => k == |log| - 1 && log[k] == Entry(a, None)
    case Waiting(a, k, seen) => k < |log| && seen == Target(log[k].action) && (seen == Target(a) || Allowed(seen, Target(a)))
    case Done(a, answer) =>
      match answer
      case AlreadyDoneAnswer =>
        exists k :: 0 <= k < |log| && log[k].action == a && log[k].result.Some? && !Errs(log[k])
      case Performed(k, ok) => k < |log| && log[k] == Entry(a, Some(ok))
      case _ => true
  }

  ghost predicate HasPerformer(requests: seq<Request>, k: nat) {
    exists i :: 0 <= i < |requests| && Performs(requests[i], k)
  }

  ghost predicate AllJustified(log: seq<Entry>, requests: seq<Request>) {
    forall i :: 0 <= i < |requests| ==> Justified(log, requests[i])
  }

  /** Each of the first n transitions belongs to one request, and to no other. */
  ghost predicate PerformedOnce(requests: seq<Request>, n: nat) {
    && (forall k :: 0 <= k < n ==> HasPerformer(requests, k))
    && (forall i, j, k :: 0 <= i < j < |requests| && 0 <= k < n ==> !(Performs(requests[i], k) && Performs(requests[j], k)))
  }

  ghost predicate Sound(w: World) {
    Lawful(w.log) && AllJustified(w.log, w.requests) && PerformedOnce(w.requests, |w.log|)
  }

  /** A request that changes without changing what it performs. */
  lemma PerformedOnceAfterReplace(requests: seq<Request>, n: nat, i: nat, r: Request)
    requires PerformedOnce(requests, n) && i < |requests|
    requires forall k :: 0 <= k < n ==> (Performs(r, k) <==> Performs(requests[i], k))
    ensures PerformedOnce(requests[i := r], n)
  {
    var next := requests[i := r];
    forall k | 0 <= k < n ensures HasPerformer(next, k) {
      assert HasPerformer(requests, k);
      var j :| 0 <= j < |requests| && Performs(requests[j], k);
      assert Performs(next[j], k);
    }
  }

  /** A request that takes the next transition, which nobody performed. */
  lemma PerformedOnceAfterStart(requests: seq<Request>, n: nat, i: nat, r: Request)
    requires PerformedOnce(requests, n) && i < |requests|
    requires forall k :: 0 <= k < n ==> !Performs(requests[i], k) && !Performs(r, k)
    requires Performs(r, n) && forall j :: 0 <= j < |requests| ==> !Performs(requests[j], n)
    ensures PerformedOnce(requests[i := r], n + 1)
  {
    var next := requests[i := r];
    PerformedOnceAfterReplace(requests, n, i, r);
    assert Performs(next[i], n) && HasPerformer(next, n);
    forall j, l, k | 0 <= j < l < |next| && 0 <= k < n + 1 ensures !(Performs(next[j], k) && Performs(next[l], k)) {
      if k == n { assert j != i ==> next[j] == requests[j]; assert l != i ==> next[l] == requests[l]; }
    }
  }

  lemma PerformedOnceAfterArrival(requests: seq<Request>, n: nat, r: Request)
    requires PerformedOnce(requests, n)
    requires forall k :: 0 <= k < n ==> !Performs(r, k)
    ensures PerformedOnce(requests + [r], n)
  {
    var next := requests + [r];
    forall k | 0 <= k < n ensures HasPerformer(next, k) {
      assert HasPerformer(requests, k);
      var j :| 0 <= j < |requests| && Performs(requests[j], k);
      assert Performs(next[j], k);
    }
    forall j, l, k | 0 <= j < l < |next| && 0 <= k < n ensures !(Performs(next[j], k) && Performs(next[l], k)) {
      if l == |requests| { assert next[l] == r; }
    }
  }

  /** A request that moves on without starting or finishing a transition. */
  lemma ReplaceKeepsSound(w: World, i: nat, r: Request)
    requires Sound(w) && i < |w.requests|
    requires Justified(w.log, r)
    requires forall k :: 0 <= k < |w.log| ==> (Performs(r, k) <==> Performs(w.requests[i], k))
    ensures Sound(With(w, i, r))
  {
    PerformedOnceAfterReplace(w.requests, |w.log|, i, r);
  }

  lemma JustifiedAfterStart(log: seq<Entry>, e: Entry, r: Request)
    requires !Blocking(log) && Justified(log, r)
    ensures Justified(log + [e], r)
  {
    var next := log + [e];
    assert forall k :: 0 <= k < |log| ==> next[k] == log[k];
    if r.Done? && r.answer.AlreadyDoneAnswer? {
      var k :| 0 <= k < |log| && log[k].action == r.action && log[k].result.Some? && !Errs(log[k]);
      assert next[k] == log[k];
    }
  }

  lemma JustifiedAfterFinish(log: seq<Entry>, ok: bool, r: Request)
    requires log != [] && log[|log| - 1].result.None?
    requires Justified(log, r) && !r.Owner?
    ensures Justified(Completed(log, ok), r)
  {
    var next := Completed(log, ok);
    if r.Done? && r.answer.AlreadyDoneAnswer? {
      var k :| 0 <= k < |log| && log[k].action == r.action && log[k].result.Some? && !Errs(log[k]);
      assert next[k] == log[k];
    }
  }

  lemma StartKeepsSound(w: World, i: nat)
    requires Sound(w) && i < |w.requests| && w.requests[i].Ready?
    requires var a := w.requests[i].action;
             !Blocking(w.log) && StateAfter(w.log) != Target(a) && Allowed(StateAfter(w.log), Target(a))
    ensures var a := w.requests[i].action;
            Sound(With(w, i, Owner(a, |w.log|)).(log := w.log + [Entry(a, None)]))
  {
    var a := w.requests[i].action;
    var owner, log := Owner(a, |w.log|), w.log + [Entry(a, None)];
    LawfulStart(w.log, a);
    forall j | 0 <= j < |w.requests| ensures Justified(log, w.requests[j]) && !Performs(w.requests[j], |w.log|) {
      assert Justified(w.log, w.requests[j]);
      JustifiedAfterStart(w.log, Entry(a, None), w.requests[j]);
    }
    PerformedOnceAfterStart(w.requests, |w.log|, i, owner);
    assert Justified(log, owner);
  }

  lemma FinishKeepsSound(w: World, i: nat, ok: bool)
    requires Sound(w) && i < |w.requests| && w.requests[i].Owner?
    ensures Sound(Step(w, Finish(i, ok)))
  {
    var next := Step(w, Finish(i, ok));
    var last := |w.log| - 1;
    assert Justified(w.log, w.requests[i]) && Performs(w.requests[i], last);
    LawfulComplete(w.log, ok);
    forall j | 0 <= j < |next.requests| ensures Justified(next.log, next.requests[j]) {
      if j != i {
        assert Justified(w.log, w.requests[j]);
        assert !Performs(w.requests[j], last);
        JustifiedAfterFinish(w.log, ok, w.requests[j]);
      }
    }
    PerformedOnceAfterReplace(w.requests, |w.log|, i, next.requests[i]);
  }

  lemma ArriveKeepsSound(w: World, r: Request)
    requires Sound(w) && r.Ready?
    ensures Sound(w.(requests := w.requests + [r]))
  {
    PerformedOnceAfterArrival(w.requests, |w.log|, r);
  }

  lemma TryKeepsSound(w: World, i: nat, expired: bool)
    requires Sound(w) && i < |w.requests| && w.requests[i].Ready?
    ensures Sound(AfterTry(w, i, expired))
  {
    var Ready(a, eviction) := w.requests[i];
    var outcome := Attempt(w.log, a, eviction, expired);
    if outcome.Started? {
      StartKeepsSound(w, i);
    } else {
      var r := AfterTry(w, i, expired).requests[i];
      assert w.log != [] || (!outcome.Wait? && !outcome.AlreadyDone?);
      assert outcome.AlreadyDone? ==> w.log[|w.log| - 1].action == a && w.log[|w.log| - 1].result.Some? && !Errs(w.log[|w.log| - 1]);
      assert Justified(w.log, r);
      ReplaceKeepsSound(w, i, r);
    }
  }

  lemma WakeKeepsSound(w: World, i: nat)
    requires Sound(w) && i < |w.requests| && w.requests[i].Waiting?
    ensures Sound(AfterWake(w, i))
  {
    assert Justified(w.log, w.requests[i]);
    var r := AfterWake(w, i).requests[i];
    assert Justified(w.log, r);
    ReplaceKeepsSound(w, i, r);
  }

  lemma StepKeepsSound(w: World, m: Move)
    requires Sound(w)
    ensures Sound(Step(w, m))
  {
    match m
    case Arrive(a, eviction) => ArriveKeepsSound(w, Ready(a, eviction));
    case Try(i, expired) => if i < |w.requests| && w.requests[i].Ready? { TryKeepsSound(w, i, expired); }
    case Finish(i, ok) => if i < |w.requests| && w.requests[i].Owner? { FinishKeepsSound(w, i, ok); }
    case Wake(i) => if i < |w.requests| && w.requests[i].Waiting? { WakeKeepsSound(w, i); }
    case Cancel(i) =>
      if i < |w.requests| && w.requests[i].Waiting? { ReplaceKeepsSound(w, i, Done(w.requests[i].action, FailedAnswer)); }
  }

  lemma {:induction false} RunKeepsSound(w: World, moves: seq<Move>)
    requires Sound(w)
    ensures Sound(RunMoves(w, moves))
    decreases |moves|
  {
    if moves != [] {
      StepKeepsSound(w, moves[0]);
      RunKeepsSound(Step(w, moves[0]), moves[1..]);
    }
  }

  // ---------------------------------------------------------------- safety over all runs

  /** Has taken, or is taking, the sandbox through the action. */
  predicate PerformsAction(r: Request, a: Action) {
    r.action == a && (r.Owner? || (r.Done? && r.answer.Performed?))
  }

  /** However many requests run concurrently, at most one of them pauses the sandbox and at most one kills it. */
  lemma RemovedOnce(moves: seq<Move>, a: Action, i: nat, j: nat)
    requires a == Pause || a == Kill
    requires var w := RunMoves(IDLE, moves);
             i < |w.requests| && j < |w.requests| && PerformsAction(w.requests[i], a) && PerformsAction(w.requests[j], a)
    ensures i == j
  {
    var w := RunMoves(IDLE, moves);
    RunKeepsSound(IDLE, moves);
    assert Justified(w.log, w.requests[i]) && Justified(w.log, w.requests[j]);
    var k := if w.requests[i].Owner? then w.requests[i].entry else w.requests[i].answer.entry;
    var l := if w.requests[j].Owner? then w.requests[j].entry else w.requests[j].answer.entry;
    assert Performs(w.requests[i], k) && Performs(w.requests[j], l);
    if k < l {
      LogShape(w.log, k, l);
    } else if l < k {
      LogShape(w.log, l, k);
    }
  }

  /** At most one request at a time holds the sandbox, and it holds it in its own target state. */
  lemma OneOwner(moves: seq<Move>, i: nat, j: nat)
    requires var w := RunMoves(IDLE, moves);
             i < |w.requests| && j < |w.requests| && w.requests[i].Owner? && w.requests[j].Owner?
    ensures i == j
    ensures StateAfter(RunMoves(IDLE, moves).log) == Target(RunMoves(IDLE, moves).requests[i].action)
  {
    var w := RunMoves(IDLE, moves);
    RunKeepsSound(IDLE, moves);
    assert Justified(w.log, w.requests[i]) && Justified(w.log, w.requests[j]);
    assert Performs(w.requests[i], |w.log| - 1) && Performs(w.requests[j], |w.log| - 1);
  }

  /** "Already done" is honest for a pause or a kill: another request performed it, successfully. */
  lemma AlreadyDoneIsHonest(moves: seq<Move>, i: nat)
    requires var w := RunMoves(IDLE, moves);
             i < |w.requests| && w.requests[i].Done? && w.requests[i].answer.AlreadyDoneAnswer? && w.requests[i].action != Snapshot
    ensures var w := RunMoves(IDLE, moves);
            exists j :: 0 <= j < |w.requests| && w.requests[j].Done? && w.requests[j].action == w.requests[i].action
                        && w.requests[j].answer.Performed? && w.requests[j].answer.ok
  {
    var w := RunMoves(IDLE, moves);
    RunKeepsSound(IDLE, moves);
    assert Justified(w.log, w.requests[i]);
    var k :| 0 <= k < |w.log| && w.log[k].action == w.requests[i].action && w.log[k].result.Some? && !Errs(w.log[k]);
    assert HasPerformer(w.requests, k);
    var j :| 0 <= j < |w.requests| && Performs(w.requests[j], k);
    assert Justified(w.log, w.requests[j]);
  }

  /** For a snapshot it is not: waiters of a failed snapshot are told it is done. */
  lemma FailedSnapshotReadsAsDone()
    ensures var moves := [Arrive(Snapshot, false), Arrive(Snapshot, false), Try(0, false), Try(1, false), Finish(0, false), Wake(1)];
            RunMoves(IDLE, moves) == World([Entry(Snapshot, Some(false))],
                                           [Done(Snapshot, Performed(0, false)), Done(Snapshot, AlreadyDoneAnswer)])
  {
    var w1 := Step(IDLE, Arrive(Snapshot, false));
    var w2 := Step(w1, Arrive(Snapshot, false));
    assert w2 == World([], [Ready(Snapshot, false), Ready(Snapshot, false)]);
    var w3 := Step(w2, Try(0, false));
    assert w3 == World([Entry(Snapshot, None)], [Owner(Snapshot, 0), Ready(Snapshot, false)]);
    var w4 := Step(w3, Try(1, false));
    assert w4 == World([Entry(Snapshot, None)], [Owner(Snapshot, 0), Waiting(Snapshot, 0, Snapshotting)]);
    var w5 := Step(w4, Finish(0, false));
    assert w5 == World([Entry(Snapshot, Some(false))], [Done(Snapshot, Performed(0, false)), Waiting(Snapshot, 0, Snapshotting)]);
    var w6 := Step(w5, Wake(1));
    var m1, m2, m3 := Arrive(Snapshot, false), Try(0, false), Try(1, false);
    assert RunMoves(w5, [Wake(1)]) == w6;
    assert RunMoves(w4, [Finish(0, false), Wake(1)]) == w6;
    assert RunMoves(w3, [m3, Finish(0, false), Wake(1)]) == w6;
    assert RunMoves(w2, [m2, m3, Finish(0, false), Wake(1)]) == w6;
    assert RunMoves(w1, [m1, m2, m3, Finish(0, false), Wake(1)]) == w6;
  }

  /** No wait is in vain: a transition someone waits for is over, or its performer can still finish it. */
  lemma WaitersCanWake(moves: seq<Move>, i: nat)
    requires var w := RunMoves(IDLE, moves); i < |w.requests| && w.requests[i].Waiting?
    ensures var w := RunMoves(IDLE, moves);
            || Step(w, Wake(i)).requests[i] != w.requests[i]
            || exists j :: 0 <= j < |w.requests| && w.requests[j].Owner?
                           && Step(Step(w, Finish(j, true)), Wake(i)).requests[i] != w.requests[i]
  {
    var w := RunMoves(IDLE, moves);
    RunKeepsSound(IDLE, moves);
    assert Justified(w.log, w.requests[i]);
    var k := w.requests[i].entry;
    if w.log[k].result.None? {
      if k + 1 < |w.log| { LawfulNeighbours(w.log, k); }
      assert HasPerformer(w.requests, k);
      var j :| 0 <= j < |w.requests| && Performs(w.requests[j], k);
      assert Justified(w.log, w.requests[j]);
      var next := Step(w, Finish(j, true));
      assert next.log[k].result.Some? && next.requests[i] == w.requests[i];
    }
  }

  /** Every step changes the state, if at all, along an allowed transition. */
  lemma StatesMoveLawfully(moves: seq<Move>, m: Move)
    ensures var w := RunMoves(IDLE, moves);
            var s, t := StateAfter(w.log), StateAfter(Step(w, m).log);
            s == t || Allowed(s, t)
  {
    var w := RunMoves(IDLE, moves);
    RunKeepsSound(IDLE, moves);
    if m.Try? && m.i < |w.requests| && w.requests[m.i].Ready? {
      var next := AfterTry(w, m.i, m.expired);
      assert next.log != w.log ==> StateAfter(next.log) == Target(w.requests[m.i].action);
    }
    if m.Finish? && m.i < |w.requests| && w.requests[m.i].Owner? {
      assert Justified(w.log, w.requests[m.i]);
    }
  }

  /** A sandbox being killed stays so, and one being paused can only be killed. */
  lemma {:induction false} RemovalIsFinal(moves: seq<Move>, more: seq<Move>)
    ensures var s, t := StateAfter(RunMoves(IDLE, moves).log), StateAfter(RunMoves(RunMoves(IDLE, moves), more).log);
            && (s == Killing ==> t == Killing)
            && (s == Pausing ==> t == Pausing || t == Killing)
    decreases |more|
  {
    if more != [] {
      StatesMoveLawfully(moves, more[0]);
      RunMovesAppend(IDLE, moves, more[0]);
      RemovalIsFinal(moves + [more[0]], more[1..]);
    }
  }

  lemma {:induction false} RunMovesAppend(w: World, moves: seq<Move>, m: Move)
    ensures RunMoves(w, moves + [m]) == Step(RunMoves(w, moves), m)
    decreases |moves|
  {
    if moves == [] {
      assert [m][1..] == [];
      assert RunMoves(Step(w, m), []) == Step(w, m);
    } else {
      RunMovesAppend(Step(w, moves[0]), moves[1..], m);
      assert (moves + [m])[1..] == moves[1..] + [m];
    }
  }

  // ---------------------------------------------------------------- what a request meets

  /** Some transition is in progress: started and not finished. */
  predicate InProgress(log: seq<Entry>) {
    log != [] && log[|log| - 1].result == None
  }

  /** The last transition was a pause or a kill, and it failed; it keeps the slot. */
  predicate FailedForGood(log: seq<Entry>) {
    log != [] && log[|log| - 1].result == Some(false) && log[|log| - 1].action in {Pause, Kill}
  }

  /**
   An eviction starts its action exactly if its attempt finds the sandbox expired, the slot
   free and a state that admits the action; it never waits, and otherwise changes nothing.
   In particular a running sandbox is evicted if and only if it is expired.
   */
  lemma EvictionNeedsExpiry(moves: seq<Move>, i: nat, expired: bool)
    requires var w := RunMoves(IDLE, moves); i < |w.requests| && w.requests[i].Ready? && w.requests[i].eviction
    ensures var w := RunMoves(IDLE, moves);
            var a, next, free := w.requests[i].action, Step(w, Try(i, expired)), !InProgress(w.log) && !FailedForGood(w.log);
            && (next.log != w.log ==> expired && free && next.log == w.log + [Entry(a, None)] && next.requests[i] == Owner(a, |w.log|))
            && (!expired || !free ==> next.log == w.log && next.requests[i] == Done(a, NotEvictableAnswer))
            && (StateAfter(w.log) == Running && free ==> (next.log == w.log + [Entry(a, None)] <==> expired))
            && !next.requests[i].Waiting?
  {
    var log := RunMoves(IDLE, moves).log;
    SlotIsFree(log);
    RunKeepsSound(IDLE, moves);
  }

  lemma SlotIsFree(log: seq<Entry>)
    ensures Blocking(log) <==> InProgress(log) || FailedForGood(log)
  {
  }

  /**
   In every reachable state a request is refused only by the state: a snapshot by a pause
   or a kill, a pause by a kill, a kill by nothing. With the slot free it is otherwise
   started, or done already if the sandbox is in its target state; with the slot taken it
   waits for it.
   */
  lemma RefusedOnlyByState(moves: seq<Move>, i: nat, expired: bool)
    requires var w := RunMoves(IDLE, moves); i < |w.requests| && w.requests[i].Ready? && !w.requests[i].eviction
    ensures var w := RunMoves(IDLE, moves);
            var a, s, r := w.requests[i].action, StateAfter(w.log), Step(w, Try(i, expired)).requests[i];
            var refused := match a case Kill => false case Pause => s == Killing case Snapshot => s == Killing || s == Pausing;
            if refused then r == Done(a, RejectedAnswer(s))
            else if InProgress(w.log) || FailedForGood(w.log) then r == Waiting(a, |w.log| - 1, s)
            else if (a == Kill && s == Killing) || (a == Pause && s == Pausing) || (a == Snapshot && s == State.Snapshotting) then r == Done(a, AlreadyDoneAnswer)
            else r == Owner(a, |w.log|) && Step(w, Try(i, expired)).log == w.log + [Entry(a, None)]
  {
    var w := RunMoves(IDLE, moves);
    SlotIsFree(w.log);
    RunKeepsSound(IDLE, moves);
  }

  /** The state follows the last transition: its target, or running again after a snapshot that succeeded. */
  lemma StateFollowsLast(w: World, i: nat, ok: bool)
    requires Sound(w) && i < |w.requests| && w.requests[i].Owner?
    ensures StateAfter(w.log) == match w.requests[i].action case Pause => Pausing case Kill => Killing case Snapshot => Snapshotting
    ensures var next := Step(w, Finish(i, ok));
            && next.requests[i] == Done(w.requests[i].action, Performed(|w.log| - 1, ok))
            && StateAfter(next.log) == (if w.requests[i].action == Snapshot && ok then Running else StateAfter(w.log))
            && !InProgress(next.log) && (FailedForGood(next.log) <==> !ok && w.requests[i].action != Snapshot)
  {
    assert Justified(w.log, w.requests[i]);
  }

  /** A waiter learns of a failed pause or kill as a failure; after anything else it is done or tries again. */
  lemma WaitersLearn(w: World, i: nat)
    requires Sound(w) && i < |w.requests| && w.requests[i].Waiting?
    ensures var Waiting(a, k, seen) := w.requests[i];
            var e, r := w.log[k], Step(w, Wake(i)).requests[i];
            if e.result == None then r == w.requests[i]
            else if e.result == Some(false) && e.action != Snapshot then r == Done(a, FailedAnswer)
            else if e.action == a then r == Done(a, AlreadyDoneAnswer)
            else r == Ready(a, false)
  {
    assert Justified(w.log, w.requests[i]);
  }

  // ---------------------------------------------------------------- the stored sandbox

  /** A result that is set once. */
  class ErrorOnce {
    var result: Option<bool>

    constructor ()
      ensures result == None
    {
      result := None;
    }

    method SetError(ok: bool)
      modifies this
      ensures result == if old(result).None? then Some(ok) else old(result)
    {
      if result.None? { result := Some(ok); }
    }
  }

  class MemorySandbox {
    var state: State
    var transition: ErrorOnce?
    ghost var log: seq<Entry>

    /** State and slot are those of the log. */
    ghost predicate Valid()
      reads this, transition
    {
      && state == StateAfter(log)
      && (transition != null <==> Blocking(log))
      && (transition != null ==> transition.result == log[|log| - 1].result)
    }

    constructor ()
      ensures Valid() && log == []
    {
      state, transition, log := Running, null, [];
    }

    /** The locked section of startRemoving; on Wait the caller waits on the returned slot. */
    method StartRemoving(a: Action, eviction: bool, expired: bool) returns (o: Outcome, slot: ErrorOnce?)
      requires Valid()
      modifies this
      ensures Valid()
      ensures o == Attempt(old(log), a, eviction, expired)
      ensures log == if o.Started? then old(log) + [Entry(a, None)] else old(log)
      ensures o.Started? || o.Wait? ==> slot != null && slot == transition
    {
      slot := transition;
      if eviction {
        if transition != null { return NotEvictable, slot; }
        if !expired { return NotEvictable, slot; }
      }
      var newState := Target(a);
      if transition != null {
        if state != newState && !Allowed(state, newState) { return Rejected(state), slot; }
        return Wait(state), slot;
      }
      if state == newState { return AlreadyDone, slot; }
      if !Allowed(state, newState) { return Rejected(state), slot; }
      state := newState;
      transition := new ErrorOnce();
      log := log + [Entry(a, None)];
      return Started, transition;
    }

    /** The callback the request that started `a` calls when it is through. */
    method Complete(a: Action, ok: bool)
      requires Valid() && log != [] && log[|log| - 1] == Entry(a, None)
      modifies this, transition
      ensures Valid()
      ensures log == Completed(old(log), ok)
      ensures old(transition).result == Some(ok || !Expires(a))
    {
      var signal := ok;
      if !Expires(a) {
        if ok && state == Target(a) { state := Running; }
        signal := true;
      }
      transition.SetError(signal);
      log := Completed(log, ok);
      if !signal { return; }
      transition := null;
    }
  }
}
