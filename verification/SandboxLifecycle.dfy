/**
 What the sandbox endpoints answer, by the state the store holds for the sandbox and
 its latest snapshot. Each request reads the store once and the snapshot at most once.
 */
module SandboxLifecycle {
  import opened Wrappers
  import opened SandboxTransitions

  /** What the store holds for the sandbox; `mine` says the row belongs to the caller's team. */
  datatype Stored = Absent | Held(state: State, mine: bool)

  /** The store answers not found for another team's row, and callers take any error for that. */
  function StoreGet(stored: Stored): Option<State> {
    match stored
    case Held(state, true) => Some(state)
    case _ => None
  }

  datatype Lookup = NoSnapshot | LookupFailed | Found(mine: bool)

  /** Whether the calls to other services succeed, and with which status they fail. */
  datatype Services = Services(wait: bool, remove: bool, token: Option<int>, start: Option<int>)

  const ALL_WELL: Services := Services(true, true, None, None)

  datatype Response =
    | ShowsRunning | ShowsPaused          // 200 of GET
    | Connected                           // 200 of connect
    | Resumed                             // 201 of resume and connect
    | PausedNow                           // 204 of pause
    | AlreadyPaused                       // 409 of pause
    | Killed                              // 204 of kill
    | Conflict | NotFound | InternalError
    | Failure(code: int)

  function GetSandbox(stored: Stored, snap: Lookup, services: Services): Response {
    match StoreGet(stored)
    case Some(state) =>
      if state == Pausing then ShowsPaused
      else if state == Killing then NotFound
      else ShowsRunning
    case None =>
      match snap
      case NoSnapshot => NotFound
      case LookupFailed => InternalError
      case Found(mine) =>
        if !mine then NotFound
        else if services.token.Some? then InternalError
        else ShowsPaused
  }

  /** The common tail of resume and connect. */
  function StartFromSnapshot(snap: Lookup, services: Services): Response {
    match snap
    case NoSnapshot => NotFound
    case LookupFailed => InternalError
    case Found(mine) =>
      if !mine then NotFound
      else if services.token.Some? then Failure(services.token.value)
      else if services.start.Some? then Failure(services.start.value)
      else Resumed
  }

  function ResumeSandbox(stored: Stored, snap: Lookup, services: Services): Response {
    match StoreGet(stored)
    case None => StartFromSnapshot(snap, services)
    case Some(state) =>
      match state
      case Pausing => if services.wait then StartFromSnapshot(snap, services) else InternalError
      case Killing => NotFound
      case Snapshotting => Conflict
      case Running => Conflict
      case Unrecognized(_) => InternalError
  }

  datatype Removal = Removed | NothingToRemove | WrongState(current: State) | RemovalFailed

  /** RemoveSandbox for a pause: a sandbox that is being killed counts as not found. */
  function RemoveForPause(stored: Stored, services: Services): Removal {
    match StoreGet(stored)
    case None => NothingToRemove
    case Some(state) =>
      if state == Pausing || Allowed(state, Pausing) then
        if services.remove then Removed else RemovalFailed
      else if state == Killing then NothingToRemove
      else WrongState(state)
  }

  function PauseNotRunning(snap: Lookup): Response {
    match snap
    case NoSnapshot => NotFound
    case LookupFailed => InternalError
    case Found(mine) => if mine then AlreadyPaused else NotFound
  }

  function PauseSandbox(stored: Stored, snap: Lookup, services: Services): Response {
    match RemoveForPause(stored, services)
    case Removed => PausedNow
    case NothingToRemove => PauseNotRunning(snap)
    case WrongState(_) => Conflict
    case RemovalFailed => InternalError
  }

  /** RemoveSandbox for a kill: a sandbox that is being killed counts as removed, even if that failed. */
  function RemoveForKill(stored: Stored, services: Services): Removal {
    match StoreGet(stored)
    case None => NothingToRemove
    case Some(state) =>
      if state == Killing then Removed
      else if Allowed(state, Killing) && services.remove then Removed
      else RemovalFailed
  }

  /** What the delete step of a kill finds: a snapshot row of the team, ready build or not. */
  datatype SnapshotDeletion = Deleted | NoRow | DeletionFailed

  /** A kill removes the sandbox and its snapshot; the snapshot only once the sandbox is out of the way. */
  function KillSandbox(stored: Stored, deletion: SnapshotDeletion, services: Services): Response {
    match RemoveForKill(stored, services)
    case RemovalFailed | WrongState(_) => InternalError
    case Removed =>
      if deletion == DeletionFailed then InternalError else Killed
    case NothingToRemove =>
      match deletion
      case Deleted => Killed
      case NoRow => NotFound
      case DeletionFailed => InternalError
  }

  // ---------------------------------------------------------------- one view

  /** What a sandbox is to its team. */
  datatype View = Live | BeingPaused | AtRest | Gone | Unclear

  function ViewOf(stored: Stored, snap: Lookup): View {
    match StoreGet(stored)
    case Some(Running) | Some(Snapshotting) => Live
    case Some(Pausing) => BeingPaused
    case Some(Killing) => Gone
    case Some(Unrecognized(_)) => Unclear
    case None => if snap == Found(true) then AtRest else Gone
  }

  /**
   With all services well, GET answers by the view alone; resume does too, except that
   a sandbox being paused is resumed only if its snapshot is there after the wait.
   */
  lemma AnswersFollowTheView(stored: Stored, snap: Lookup)
    requires snap != LookupFailed
    ensures GetSandbox(stored, snap, ALL_WELL) ==
              match ViewOf(stored, snap)
              case Live | Unclear => ShowsRunning
              case BeingPaused | AtRest => ShowsPaused
              case Gone => NotFound
    ensures ResumeSandbox(stored, snap, ALL_WELL) ==
              match ViewOf(stored, snap)
              case Live => Conflict
              case Unclear => InternalError
              case BeingPaused => if snap == Found(true) then Resumed else NotFound
              case AtRest => Resumed
              case Gone => NotFound
  {
  }

  /** GET reports running exactly when resume answers conflict, if and only if the stored state is a known one. */
  lemma RunningIsConflict(stored: Stored, snap: Lookup)
    requires snap != LookupFailed
    ensures (GetSandbox(stored, snap, ALL_WELL) == ShowsRunning <==> ResumeSandbox(stored, snap, ALL_WELL) == Conflict)
            <==> !(stored.Held? && stored.mine && stored.state.Unrecognized?)
  {
  }

  /** For a sandbox out of the team's store the three endpoints agree that it is paused, whatever the lookup says. */
  lemma PausedAgreement(stored: Stored, snap: Lookup)
    requires StoreGet(stored) == None
    ensures GetSandbox(stored, snap, ALL_WELL) == ShowsPaused <==> snap == Found(true)
    ensures ResumeSandbox(stored, snap, ALL_WELL) == Resumed <==> snap == Found(true)
    ensures PauseSandbox(stored, snap, ALL_WELL) == AlreadyPaused <==> snap == Found(true)
  {
  }

  /** In every store state: pause calls a sandbox paused that GET does not show as paused exactly when it is being killed over a snapshot. */
  lemma AlreadyPausedDisagreement(stored: Stored, snap: Lookup)
    ensures PauseSandbox(stored, snap, ALL_WELL) == AlreadyPaused && GetSandbox(stored, snap, ALL_WELL) != ShowsPaused
            <==> snap == Found(true) && stored == Held(Killing, true)
  {
  }

  /** GET and resume agree on not found, except for a sandbox being paused whose snapshot never came. */
  lemma NotFoundAgreement(stored: Stored, snap: Lookup)
    requires snap != LookupFailed
    ensures (GetSandbox(stored, snap, ALL_WELL) == NotFound <==> ResumeSandbox(stored, snap, ALL_WELL) == NotFound)
            <==> !(ViewOf(stored, snap) == BeingPaused && snap != Found(true))
    ensures stored == Held(Killing, true) ==> GetSandbox(stored, snap, ALL_WELL) == NotFound == ResumeSandbox(stored, snap, ALL_WELL)
  {
  }

  /**
   With all services well a kill succeeds for every sandbox GET shows, unless its stored
   state is an unknown one. It succeeds for a sandbox GET does not show exactly if that is
   being killed already, or is out of the team's store with a snapshot row that has no
   ready build.
   */
  lemma KillAgreesWithGet(stored: Stored, snap: Lookup, deletion: SnapshotDeletion)
    requires snap != LookupFailed && deletion != DeletionFailed
    requires snap == Found(true) ==> deletion == Deleted
    ensures var shown := GetSandbox(stored, snap, ALL_WELL) in {ShowsRunning, ShowsPaused};
            var killed := KillSandbox(stored, deletion, ALL_WELL) == Killed;
            && (shown && !killed <==> stored.Held? && stored.mine && stored.state.Unrecognized?)
            && (killed && !shown <==>
                  stored == Held(Killing, true) || (StoreGet(stored) == None && deletion == Deleted && snap != Found(true)))
  {
  }

  /**
   With all services well, what each store state makes of a pause: 204 for a sandbox that
   runs, is being snapshotted or is already being paused, a conflict for an unknown state,
   and for one that is not there or is being killed the answer its snapshot gives.
   */
  lemma PauseOutcomes(stored: Stored, snap: Lookup)
    ensures PauseSandbox(stored, snap, ALL_WELL) == PausedNow <==>
              stored in {Held(Running, true), Held(State.Snapshotting, true), Held(Pausing, true)}
    ensures PauseSandbox(stored, snap, ALL_WELL) == Conflict <==> stored.Held? && stored.mine && stored.state.Unrecognized?
    ensures stored == Absent || !stored.mine || stored.state == Killing ==>
              PauseSandbox(stored, snap, ALL_WELL) ==
                match snap case Found(true) => AlreadyPaused case LookupFailed => InternalError case _ => NotFound
  {
  }

  /** Failures show: each service that fails has its own answer, and only where it is asked. */
  lemma ServiceFailures(snap: Lookup, services: Services, deletion: SnapshotDeletion)
    ensures GetSandbox(Absent, LookupFailed, services) == ResumeSandbox(Absent, LookupFailed, services) == InternalError
    ensures !services.wait ==> ResumeSandbox(Held(Pausing, true), snap, services) == InternalError
    ensures services.token.Some? ==>
              GetSandbox(Absent, Found(true), services) == InternalError
              && ResumeSandbox(Absent, Found(true), services) == Failure(services.token.value)
    ensures services.token.None? && services.start.Some? ==>
              GetSandbox(Absent, Found(true), services) == ShowsPaused
              && ResumeSandbox(Absent, Found(true), services) == Failure(services.start.value)
    ensures !services.remove ==>
              PauseSandbox(Held(Running, true), snap, services) == KillSandbox(Held(Running, true), deletion, services) == InternalError
              && PauseSandbox(Held(Pausing, true), snap, services) == KillSandbox(Held(Pausing, true), deletion, services) == InternalError
    ensures KillSandbox(Absent, DeletionFailed, services) == KillSandbox(Held(Killing, true), DeletionFailed, services) == InternalError
    ensures KillSandbox(Absent, NoRow, services) == NotFound && KillSandbox(Held(Killing, true), NoRow, services) == Killed
  {
  }

  // ---------------------------------------------------------------- connect

  const MAX_CONNECT_RETRIES: nat := 3

  datatype KeepAlive = Extended | NotInStore | NotRunning(state: State) | Refused(code: int)

  /** The calls a connect request makes. */
  datatype Call = KeepAliveCall(result: KeepAlive) | WaitCall(ok: bool) | LookupCall | StartCall

  /** How the world answers: the keep-alive and the wait of each attempt, freely. */
  datatype Answers = Answers(keepAlive: nat -> KeepAlive, wait: nat -> bool, snap: Lookup, services: Services)

  /** Attempt i found the sandbox in a state that passes, and waited it out. */
  predicate WaitedOut(a: Answers, i: nat) {
    a.keepAlive(i).NotRunning? && a.keepAlive(i).state != Killing && a.wait(i)
  }

  function SnapshotPath(a: Answers): seq<Call> {
    if a.snap == Found(true) && a.services.token.None? then [LookupCall, StartCall] else [LookupCall]
  }

  /** The two calls of each attempt that was waited out. */
  function Retries(a: Answers, n: nat): seq<Call> {
    if n == 0 then [] else Retries(a, n - 1) + [KeepAliveCall(a.keepAlive(n - 1)), WaitCall(true)]
  }

  /** The outcome when the first n attempts were waited out and attempt n was not, or n is the limit. */
  ghost predicate ConnectOutcome(a: Answers, n: nat, r: Response, trace: seq<Call>) {
    && n <= MAX_CONNECT_RETRIES
    && (forall i :: 0 <= i < n ==> WaitedOut(a, i))
    && if n == MAX_CONNECT_RETRIES then
         r == StartFromSnapshot(a.snap, a.services) && trace == Retries(a, n) + SnapshotPath(a)
       else
         var called := Retries(a, n) + [KeepAliveCall(a.keepAlive(n))];
         match a.keepAlive(n)
         case Extended => r == Connected && trace == called
         case NotInStore => r == StartFromSnapshot(a.snap, a.services) && trace == called + SnapshotPath(a)
         case Refused(code) => r == Failure(code) && trace == called
         case NotRunning(state) =>
           if state == Killing then r == Conflict && trace == called
           else !a.wait(n) && r == InternalError && trace == called + [WaitCall(false)]
  }

  method ConnectSandbox(a: Answers) returns (r: Response, trace: seq<Call>)
    ensures exists n :: ConnectOutcome(a, n, r, trace)
  {
    trace := [];
    var attempt := 0;
    while attempt < MAX_CONNECT_RETRIES
      invariant 0 <= attempt <= MAX_CONNECT_RETRIES
      invariant forall i :: 0 <= i < attempt ==> WaitedOut(a, i)
      invariant trace == Retries(a, attempt)
    {
      var apiErr := a.keepAlive(attempt);
      trace := trace + [KeepAliveCall(apiErr)];
      if apiErr == Extended {
        assert ConnectOutcome(a, attempt, Connected, trace);
        return Connected, trace;
      }
      if apiErr == NotInStore { break; }
      if !apiErr.NotRunning? {
        assert ConnectOutcome(a, attempt, Failure(apiErr.code), trace);
        return Failure(apiErr.code), trace;
      }
      if apiErr.state == Killing {
        assert ConnectOutcome(a, attempt, Conflict, trace);
        return Conflict, trace;
      }
      var ok := a.wait(attempt);
      trace := trace + [WaitCall(ok)];
      if !ok {
        assert ConnectOutcome(a, attempt, InternalError, trace);
        return InternalError, trace;
      }
      attempt := attempt + 1;
    }
    ghost var before := trace;
    trace := trace + [LookupCall];
    r := StartFromSnapshot(a.snap, a.services);
    if a.snap == Found(true) && a.services.token.None? {
      trace := trace + [StartCall];
    }
    assert trace == before + SnapshotPath(a);
    assert ConnectOutcome(a, attempt, r, trace);
  }

  function Count(trace: seq<Call>, p: Call -> bool): nat {
    if trace == [] then 0 else Count(trace[..|trace| - 1], p) + if p(trace[|trace| - 1]) then 1 else 0
  }

  lemma {:induction false} CountAppend(s: seq<Call>, t: seq<Call>, p: Call -> bool)
    ensures Count(s + t, p) == Count(s, p) + Count(t, p)
  {
    if t == [] {
      assert s + t == s;
    } else {
      assert (s + t)[..|s + t| - 1] == s + t[..|t| - 1];
      CountAppend(s, t[..|t| - 1], p);
    }
  }

  predicate IsKeepAlive(c: Call) { c.KeepAliveCall? }
  predicate IsWait(c: Call) { c.WaitCall? }
  predicate IsStart(c: Call) { c == StartCall }

  lemma {:induction false} RetriesCount(a: Answers, n: nat)
    ensures Count(Retries(a, n), IsKeepAlive) == n
    ensures Count(Retries(a, n), IsWait) == n
    ensures Count(Retries(a, n), IsStart) == 0
    ensures |Retries(a, n)| == 2 * n
    ensures n > 0 ==> Retries(a, n)[2 * n - 1] == WaitCall(true)
  {
    if n > 0 {
      var last := [KeepAliveCall(a.keepAlive(n - 1)), WaitCall(true)];
      RetriesCount(a, n - 1);
      CountAppend(Retries(a, n - 1), last, IsKeepAlive);
      CountAppend(Retries(a, n - 1), last, IsWait);
      CountAppend(Retries(a, n - 1), last, IsStart);
      CountFew(last, IsKeepAlive);
      CountFew(last, IsWait);
      CountFew(last, IsStart);
    }
  }

  function CountAt(s: seq<Call>, i: nat, p: Call -> bool): nat {
    if i < |s| && p(s[i]) then 1 else 0
  }

  lemma CountFew(s: seq<Call>, p: Call -> bool)
    requires |s| <= 3
    ensures Count(s, p) == CountAt(s, 0, p) + CountAt(s, 1, p) + CountAt(s, 2, p)
  {
    if |s| == 3 {
      CountFew(s[..2], p);
    } else if |s| == 2 {
      CountFew(s[..1], p);
    }
  }

  lemma CountAfterRetries(a: Answers, n: nat, rest: seq<Call>, p: Call -> bool)
    requires |rest| <= 3
    ensures Count(Retries(a, n) + rest, p) == Count(Retries(a, n), p) + CountAt(rest, 0, p) + CountAt(rest, 1, p) + CountAt(rest, 2, p)
  {
    CountAppend(Retries(a, n), rest, p);
    CountFew(rest, p);
  }

  /** What follows the attempts that were waited out. */
  function LastCalls(a: Answers, n: nat): seq<Call> {
    if n >= MAX_CONNECT_RETRIES then SnapshotPath(a)
    else
      var call := KeepAliveCall(a.keepAlive(n));
      match a.keepAlive(n)
      case Extended | Refused(_) => [call]
      case NotInStore => [call] + SnapshotPath(a)
      case NotRunning(state) => if state == Killing then [call] else [call, WaitCall(false)]
  }

  lemma TraceIsRetriesAndLastCalls(a: Answers, n: nat, r: Response, trace: seq<Call>)
    requires ConnectOutcome(a, n, r, trace)
    ensures trace == Retries(a, n) + LastCalls(a, n)
  {
  }

  /** Bounded, whatever changes between the calls: at most three keep-alives, three waits and one start. */
  lemma ConnectIsBounded(a: Answers, n: nat, r: Response, trace: seq<Call>)
    requires ConnectOutcome(a, n, r, trace)
    ensures Count(trace, IsKeepAlive) <= 3
    ensures Count(trace, IsWait) <= 3
    ensures Count(trace, IsStart) <= 1
  {
    var rest := LastCalls(a, n);
    RetriesCount(a, n);
    TraceIsRetriesAndLastCalls(a, n, r, trace);
    CountAfterRetries(a, n, rest, IsKeepAlive);
    CountAfterRetries(a, n, rest, IsWait);
    CountAfterRetries(a, n, rest, IsStart);
  }

  lemma {:induction false} NoStartInRetries(a: Answers, n: nat)
    ensures StartCall !in Retries(a, n)
  {
    if n > 0 { NoStartInRetries(a, n - 1); }
  }

  /**
   A connect answers 200 exactly on a successful keep-alive, which is then its last call.
   It goes for the snapshot exactly after a sandbox that is not in the store, or after
   three attempts that each found a passing state and waited it out; and it starts a
   sandbox exactly if the snapshot it then finds is the team's and its token is issued.
   */
  lemma ConnectIsJustified(a: Answers, n: nat, r: Response, trace: seq<Call>)
    requires ConnectOutcome(a, n, r, trace)
    ensures n <= 3 && |trace| >= 2 * n && forall i :: 0 <= i < n ==>
              trace[2 * i] == KeepAliveCall(a.keepAlive(i)) && trace[2 * i + 1] == WaitCall(true)
              && a.keepAlive(i).NotRunning? && a.keepAlive(i).state != Killing && a.wait(i)
    ensures r == Connected <==> trace[|trace| - 1] == KeepAliveCall(Extended)
    ensures r == Conflict <==> trace[|trace| - 1] == KeepAliveCall(NotRunning(Killing))
    ensures n < 3 && a.keepAlive(n).Refused? ==> r == Failure(a.keepAlive(n).code) && |trace| == 2 * n + 1
    ensures n < 3 && a.keepAlive(n).NotRunning? && a.keepAlive(n).state != Killing ==> r == InternalError && trace[|trace| - 1] == WaitCall(false)
    ensures LookupCall in trace <==> n == 3 || a.keepAlive(n) == NotInStore
    ensures StartCall in trace <==> LookupCall in trace && a.snap == Found(true) && a.services.token.None?
    ensures r == Resumed ==> StartCall in trace && a.services.start.None?
  {
    NoStartInRetries(a, n);
    NoLookupInRetries(a, n);
    RetriesCount(a, n);
    TraceIsRetriesAndLastCalls(a, n, r, trace);
    forall i | 0 <= i < n
      ensures trace[2 * i] == KeepAliveCall(a.keepAlive(i)) && trace[2 * i + 1] == WaitCall(true) && WaitedOut(a, i)
    {
      RetriesAt(a, n, i);
    }
    var path := SnapshotPath(a);
    assert path[0] == LookupCall;
    assert a.snap == Found(true) && a.services.token.None? ==> path[1] == StartCall;
    if n == MAX_CONNECT_RETRIES {
      assert trace[|trace| - 1] == path[|path| - 1];
      assert path[0] in trace && path[|path| - 1] in trace;
    } else if a.keepAlive(n) == NotInStore {
      assert trace[|trace| - 1] == path[|path| - 1];
      assert path[0] in trace && path[|path| - 1] in trace;
    }
  }

  lemma {:induction false} RetriesAt(a: Answers, n: nat, i: nat)
    requires i < n
    ensures |Retries(a, n)| == 2 * n
    ensures Retries(a, n)[2 * i] == KeepAliveCall(a.keepAlive(i)) && Retries(a, n)[2 * i + 1] == WaitCall(true)
  {
    RetriesCount(a, n - 1);
    if i < n - 1 { RetriesAt(a, n - 1, i); }
  }

  lemma {:induction false} NoLookupInRetries(a: Answers, n: nat)
    ensures LookupCall !in Retries(a, n)
  {
    if n > 0 { NoLookupInRetries(a, n - 1); }
  }

  /** The outcome is determined: connect makes one choice of calls for each way the world answers. */
  lemma ConnectIsDetermined(a: Answers, n: nat, r: Response, trace: seq<Call>, m: nat, q: Response, calls: seq<Call>)
    requires ConnectOutcome(a, n, r, trace) && ConnectOutcome(a, m, q, calls)
    ensures n == m && r == q && trace == calls
  {
    assert n < m ==> WaitedOut(a, n);
    assert m < n ==> WaitedOut(a, m);
  }
}
