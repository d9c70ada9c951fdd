/**
  A process and its watcher (pkg/process/process.go) as a step machine: any number of concurrent Start calls,
  Close, cancellation, a reader of the result channel, and the restart loop.
 */
module ProcessWatcher {
  /** A missing restart configuration behaves as one with onError false. */
  datatype Config = Config(onError: bool, limit: int)

  /** The size of the result channel (New). */
  function Capacity(c: Config): nat {
    if c.onError && c.limit > 0 then c.limit else 1
  }

  /** What one run of the command ended with. */
  datatype Result = Success | Error

  /** Start, up to the unlocking of cmdMu. */
  datatype CallerPC = CReadStarted | CReadAborted | CLock | CCheck | CSpawn | CReturned

  datatype Lock = Free | HeldBy(caller: nat) | HeldByClose

  /** watchCmd; WTop is the head of its loop. */
  datatype WatcherPC =
    | WNone
    | WTop
    | WWait
    | WAborted
    | WSend(result: Result)
    | WSendLast(result: Result)
    | WBackoff
    | WRestart
    | WClose
    | WDead

  /**
    The command and what its watcher did: `hasProcess` of the current command object, the watcher's restartCount,
    calls of startCommand and how many of them succeeded, finished runs, results sent, closings of the channel.
   */
  datatype Run = Run(
    pc: WatcherPC, hasProcess: bool, restarts: nat, attempts: nat, starts: nat, finished: nat, sent: seq<Result>,
      closes: nat)

  const FRESH := Run(WNone, false, 0, 0, 0, 0, [], 0)

  datatype State = State(
    lock: Lock, cmdSet: bool, started: bool, aborted: bool, cancelled: bool,
    callers: map<nat, CallerPC>, watchers: nat, run: Run, buffer: seq<Result>, received: nat)

  datatype Action =
    | CallStart(id: nat)
    | CallerStep(id: nat, ok: bool)
    | CloseLock
    | CloseUnlock
    | Cancel
    | WatchTop
    | SeeCancel
    | RunEnds(result: Result)
    | SendResult
    | BackoffOver
    | Restart(ok: bool)
    | CloseResults
    | Receive

  function Init(): State {
    State(Free, false, false, false, false, map[], 0, FRESH, [], 0)
  }

  predicate CallerEnabled(s: State, id: nat) {
    id in s.callers && s.callers[id] != CReturned && (s.callers[id] == CLock ==> s.lock == Free)
  }

  /** Whether the watcher can take step `a`, up to room in the channel. */
  predicate RunEnabled(pc: WatcherPC, cancelled: bool, a: Action) {
    match a
    case WatchTop => pc == WTop
    case SeeCancel => cancelled && (pc == WWait || pc == WBackoff)
    case RunEnds(_) => pc == WWait || pc == WAborted
    case SendResult => pc.WSend? || pc.WSendLast?
    case BackoffOver => pc == WBackoff
    case Restart(_) => pc == WRestart
    case CloseResults => pc == WClose
    case _ => false
  }

  /** Close read `started` and `aborted` before it took the lock; `started` never goes back to false. */
  predicate Enabled(s: State, c: Config, a: Action) {
    match a
    case CallStart(id) => id !in s.callers
    case CallerStep(id, _) => CallerEnabled(s, id)
    case CloseLock => s.started && s.lock == Free
    case CloseUnlock => s.lock == HeldByClose
    case Cancel => true
    case Receive => s.buffer != []
    case _ => RunEnabled(s.run.pc, s.cancelled, a) && (a == SendResult ==> |s.buffer| < Capacity(c))
  }

  /** startCommand: the command object is replaced first, so a failure leaves one without a process. */
  function Launch(r: Run, ok: bool): Run {
    r.(hasProcess := ok, attempts := r.attempts + 1, starts := r.starts + if ok then 1 else 0)
  }

  function NextCaller(s: State, id: nat, ok: bool): State
    requires CallerEnabled(s, id)
  {
    match s.callers[id]
    case CReadStarted => s.(callers := s.callers[id := if s.started then CReturned else CReadAborted])
    case CReadAborted => s.(callers := s.callers[id := if s.aborted then CReturned else CLock])
    case CLock => s.(lock := HeldBy(id), callers := s.callers[id := CCheck])
    case CCheck =>
      if s.cmdSet then s.(lock := Free, callers := s.callers[id := CReturned])
      else if ok then s.(cmdSet := true, started := true, run := Launch(s.run, true),
        callers := s.callers[id := CSpawn])
      else s.(cmdSet := true, run := Launch(s.run, false), lock := Free, callers := s.callers[id := CReturned])
    case CSpawn =>
      s.(watchers := s.watchers + 1, run := s.run.(pc := WTop), lock := Free, callers := s.callers[id := CReturned])
    case CReturned => s
  }

  /** Where the watcher goes after it sent the result of a run that it did not abort. */
  function AfterSend(restarts: nat, c: Config, result: Result): WatcherPC {
    if result == Success || !c.onError || (c.limit > 0 && restarts >= c.limit) then WClose else WBackoff
  }

  function NextRun(r: Run, cancelled: bool, c: Config, a: Action): Run
    requires RunEnabled(r.pc, cancelled, a)
  {
    match a
    case WatchTop => r.(pc := if r.hasProcess then WWait else if cancelled then WClose else WTop)
    case SeeCancel => r.(pc := if r.pc == WWait then WAborted else WClose)
    case RunEnds(result) => r.(finished := r.finished + 1, pc := if r.pc == WWait then WSend(result)
        else WSendLast(result))
    case SendResult =>
      r.(sent := r.sent + [r.pc.result], pc := if r.pc.WSend? then AfterSend(r.restarts, c, r.pc.result) else WClose)
    case BackoffOver => r.(pc := WRestart)
    case Restart(ok) =>
      if ok then Launch(r, true).(restarts := r.restarts + 1, pc := WTop) else Launch(r, false).(pc := WClose)
    case CloseResults => r.(closes := r.closes + 1, pc := WDead)
  }

  function Next(s: State, c: Config, a: Action): State
    requires Enabled(s, c, a)
  {
    match a
    case CallStart(id) => s.(callers := s.callers[id := CReadStarted])
    case CallerStep(id, ok) => NextCaller(s, id, ok)
    case CloseLock => s.(lock := HeldByClose, cancelled := true)
    case CloseUnlock => s.(lock := Free, aborted := true)
    case Cancel => s.(cancelled := true)
    case Receive => s.(buffer := s.buffer[1..], received := s.received + 1)
    case SendResult => s.(run := NextRun(s.run, s.cancelled, c, a), buffer := s.buffer + [s.run.pc.result])
    case Restart(ok) => s.(run := NextRun(s.run, s.cancelled, c, a), started := s.started || ok)
    case _ => s.(run := NextRun(s.run, s.cancelled, c, a))
  }

  datatype Outcome = Blocked | Reached(state: State)

  function Exec(schedule: seq<Action>, c: Config): Outcome {
    if schedule == [] then Reached(Init()) else
    var before := Exec(schedule[..|schedule| - 1], c);
    var a := schedule[|schedule| - 1];
    if before.Blocked? || !Enabled(before.state, c, a) then Blocked else Reached(Next(before.state, c, a))
  }

  ghost predicate Reachable(s: State, c: Config) {
    exists schedule :: Exec(schedule, c) == Reached(s)
  }

  // ---- what every step keeps ----

  /** A caller past the lock holds it; one about to spawn is allowed to. */
  ghost predicate CallersOk(callers: map<nat, CallerPC>, lock: Lock, maySpawn: bool) {
    forall id :: id in callers ==>
      && (callers[id] == CCheck || callers[id] == CSpawn ==> lock == HeldBy(id))
      && (callers[id] == CSpawn ==> maySpawn)
  }

  /** The first command runs and nothing else happened. */
  ghost predicate MaySpawn(r: Run, cmdSet: bool) {
    cmdSet && r == Launch(FRESH, true)
  }

  ghost predicate AllErrors(sent: seq<Result>) {
    forall i :: 0 <= i < |sent| ==> sent[i] == Error
  }

  ghost predicate AllErrorsButLast(sent: seq<Result>) {
    forall i :: 0 <= i < |sent| - 1 ==> sent[i] == Error
  }

  /** There is room for `spare` more restarts. */
  ghost predicate WithinLimit(restarts: nat, c: Config, spare: nat) {
    && (c.onError && c.limit > 0 ==> restarts + spare <= c.limit)
    && (!c.onError ==> restarts + spare == 0)
  }

  /** A run is in progress, or finished with its result not yet sent. */
  ghost predicate Running(r: Run, c: Config) {
    && WithinLimit(r.restarts, c, 0) && r.attempts == r.starts && |r.sent| == r.restarts && AllErrors(r.sent)
      && r.closes == 0
    && r.finished == |r.sent| + (if r.pc.WSend? || r.pc.WSendLast? then 1 else 0)
    && (r.pc.WTop? || r.pc.WWait? ==> r.hasProcess)
  }

  /** Waiting to restart after a failure. */
  ghost predicate Failing(r: Run, c: Config) {
    && WithinLimit(r.restarts, c, 1) && r.attempts == r.starts && r.finished == |r.sent| == r.starts
      && AllErrors(r.sent) && r.closes == 0
  }

  ghost predicate Ended(r: Run, c: Config) {
    && WithinLimit(r.restarts, c, 0)
    && (r.attempts == r.starts || (r.attempts == r.starts + 1 && WithinLimit(r.restarts, c, 1)))
    && r.finished == |r.sent| == r.starts && AllErrorsButLast(r.sent)
    && r.closes == if r.pc.WDead? then 1 else 0
  }

  ghost predicate RunOk(r: Run, c: Config) {
    && r.starts == r.restarts + 1
    && match r.pc
       case WNone => false
       case WTop => Running(r, c)
       case WWait => Running(r, c)
       case WAborted => Running(r, c)
       case WSend(_) => Running(r, c)
       case WSendLast(_) => Running(r, c)
       case WBackoff => Failing(r, c)
       case WRestart => Failing(r, c)
       case WClose => Ended(r, c)
       case WDead => Ended(r, c)
  }

  /** Before a watcher exists, at most one command was launched. */
  ghost predicate Unwatched(r: Run, cmdSet: bool, watchers: nat) {
    watchers == 0 && (if cmdSet then r == Launch(FRESH, true) || r == Launch(FRESH, false) else r == FRESH)
  }

  ghost predicate WatchOk(r: Run, cmdSet: bool, watchers: nat, c: Config) {
    if r.pc == WNone then Unwatched(r, cmdSet, watchers) else watchers == 1 && cmdSet && RunOk(r, c)
  }

  ghost predicate BufferOk(buffer: seq<Result>, received: nat, sent: seq<Result>, capacity: nat) {
    && |buffer| <= capacity
    && received + |buffer| == |sent|
    && sent[received..] == buffer
  }

  ghost predicate Inv(s: State, c: Config) {
    && CallersOk(s.callers, s.lock, MaySpawn(s.run, s.cmdSet))
    && WatchOk(s.run, s.cmdSet, s.watchers, c)
    && BufferOk(s.buffer, s.received, s.run.sent, Capacity(c))
  }

  lemma RunKeepsOk(r: Run, cancelled: bool, c: Config, a: Action)
    requires RunOk(r, c) && RunEnabled(r.pc, cancelled, a)
    ensures RunOk(NextRun(r, cancelled, c, a), c)
  {}

  lemma RunKeepsSent(r: Run, cancelled: bool, c: Config, a: Action)
    requires RunEnabled(r.pc, cancelled, a)
    ensures NextRun(r, cancelled, c, a).sent == if a == SendResult then r.sent + [r.pc.result] else r.sent
  {}

  lemma PushKeepsBuffer(buffer: seq<Result>, received: nat, sent: seq<Result>, capacity: nat, x: Result)
    requires BufferOk(buffer, received, sent, capacity) && |buffer| < capacity
    ensures BufferOk(buffer + [x], received, sent + [x], capacity)
  {
    assert (sent + [x])[received..] == sent[received..] + [x];
  }

  lemma PopKeepsBuffer(buffer: seq<Result>, received: nat, sent: seq<Result>, capacity: nat)
    requires BufferOk(buffer, received, sent, capacity) && buffer != []
    ensures BufferOk(buffer[1..], received + 1, sent, capacity)
  {
    assert sent[received + 1..] == sent[received..][1..];
  }

  /** With a watcher no caller is about to spawn one, so callers do not see what the watcher does. */
  lemma WatcherLeavesCallers(callers: map<nat, CallerPC>, lock: Lock, maySpawn: bool)
    requires CallersOk(callers, lock, false)
    ensures CallersOk(callers, lock, maySpawn)
  {}

  lemma WatcherFrame(s: State, c: Config, a: Action)
    requires Enabled(s, c, a) && RunEnabled(s.run.pc, s.cancelled, a)
    ensures var t := Next(s, c, a);
      && t.run == NextRun(s.run, s.cancelled, c, a) && t.watchers == s.watchers && t.cmdSet == s.cmdSet
      && t.callers == s.callers && t.lock == s.lock && t.received == s.received
      && t.buffer == if a == SendResult then s.buffer + [s.run.pc.result] else s.buffer
  {}

  /** A watcher that can step exists, and its command is in order. */
  lemma SteppingIsWatched(r: Run, cmdSet: bool, watchers: nat, c: Config, cancelled: bool, a: Action)
    requires WatchOk(r, cmdSet, watchers, c) && RunEnabled(r.pc, cancelled, a)
    ensures watchers == 1 && cmdSet && RunOk(r, c) && !MaySpawn(r, cmdSet)
  {}

  lemma WatchedIsOk(r: Run, c: Config)
    requires RunOk(r, c)
    ensures WatchOk(r, true, 1, c)
  {}

  lemma RunKeepsBuffer(s: State, c: Config, a: Action)
    requires BufferOk(s.buffer, s.received, s.run.sent, Capacity(c))
    requires Enabled(s, c, a) && RunEnabled(s.run.pc, s.cancelled, a)
    ensures var t := Next(s, c, a); BufferOk(t.buffer, t.received, t.run.sent, Capacity(c))
  {
    RunKeepsSent(s.run, s.cancelled, c, a);
    WatcherFrame(s, c, a);
    if a == SendResult {
      PushKeepsBuffer(s.buffer, s.received, s.run.sent, Capacity(c), s.run.pc.result);
    }
  }

  lemma WatcherKeepsInv(s: State, c: Config, a: Action)
    requires Inv(s, c) && Enabled(s, c, a) && RunEnabled(s.run.pc, s.cancelled, a)
    ensures Inv(Next(s, c, a), c)
  {
    SteppingIsWatched(s.run, s.cmdSet, s.watchers, c, s.cancelled, a);
    RunKeepsOk(s.run, s.cancelled, c, a);
    WatchedIsOk(NextRun(s.run, s.cancelled, c, a), c);
    WatcherFrame(s, c, a);
    RunKeepsBuffer(s, c, a);
    var t := Next(s, c, a);
    WatcherLeavesCallers(s.callers, s.lock, MaySpawn(t.run, t.cmdSet));
  }

  /** Only the caller holding the lock can be past it. */
  lemma MoveCaller(callers: map<nat, CallerPC>, lock: Lock, maySpawn: bool, id: nat, pc: CallerPC, lock': Lock,
                   maySpawn': bool)
    requires CallersOk(callers, lock, maySpawn)
    requires lock == lock' || lock == HeldBy(id) || lock == Free
    requires maySpawn == maySpawn' || lock == HeldBy(id)
    requires (pc == CCheck || pc == CSpawn ==> lock' == HeldBy(id)) && (pc == CSpawn ==> maySpawn')
    ensures CallersOk(callers[id := pc], lock', maySpawn')
  {}

  /** A launch and a spawn by the caller that holds the lock keep the watcher's part of the invariant. */
  lemma CallerKeepsWatch(s: State, c: Config, id: nat, ok: bool)
    requires CallerEnabled(s, id) && WatchOk(s.run, s.cmdSet, s.watchers, c)
    requires s.callers[id] == CSpawn ==> MaySpawn(s.run, s.cmdSet)
    ensures var t := NextCaller(s, id, ok); WatchOk(t.run, t.cmdSet, t.watchers, c) && t.run.sent == s.run.sent
  {
    if s.callers[id] == CSpawn {
      assert AllErrors([]);
    }
  }

  lemma CallerKeepsCallers(s: State, c: Config, id: nat, ok: bool)
    requires CallerEnabled(s, id) && CallersOk(s.callers, s.lock, MaySpawn(s.run, s.cmdSet))
    requires WatchOk(s.run, s.cmdSet, s.watchers, c)
    ensures var t := NextCaller(s, id, ok); CallersOk(t.callers, t.lock, MaySpawn(t.run, t.cmdSet))
  {
    if s.callers[id] == CCheck || s.callers[id] == CSpawn {
      HolderKeepsCallers(s, c, id, ok);
    } else {
      var t := NextCaller(s, id, ok);
      MoveCaller(s.callers, s.lock, MaySpawn(s.run, s.cmdSet), id, t.callers[id], t.lock, MaySpawn(s.run, s.cmdSet));
    }
  }

  /** The caller that holds the lock launches, gives up or spawns. */
  lemma HolderKeepsCallers(s: State, c: Config, id: nat, ok: bool)
    requires CallerEnabled(s, id) && CallersOk(s.callers, s.lock, MaySpawn(s.run, s.cmdSet))
    requires s.callers[id] == CCheck || s.callers[id] == CSpawn
    requires WatchOk(s.run, s.cmdSet, s.watchers, c)
    ensures var t := NextCaller(s, id, ok); CallersOk(t.callers, t.lock, MaySpawn(t.run, t.cmdSet))
  {
    var t := NextCaller(s, id, ok);
    MoveCaller(s.callers, s.lock, MaySpawn(s.run, s.cmdSet), id, t.callers[id], t.lock, MaySpawn(t.run, t.cmdSet));
  }

  lemma CallerKeepsInv(s: State, c: Config, id: nat, ok: bool)
    requires Inv(s, c) && CallerEnabled(s, id)
    ensures Inv(NextCaller(s, id, ok), c)
  {
    CallerKeepsCallers(s, c, id, ok);
    CallerKeepsWatch(s, c, id, ok);
  }

  lemma StepKeepsInv(s: State, c: Config, a: Action)
    requires Inv(s, c) && Enabled(s, c, a)
    ensures Inv(Next(s, c, a), c)
  {
    if a.CallerStep? {
      CallerKeepsInv(s, c, a.id, a.ok);
    } else if RunEnabled(s.run.pc, s.cancelled, a) {
      WatcherKeepsInv(s, c, a);
    } else {
      OutsideKeepsInv(s, c, a);
    }
  }

  /** A new caller, Close, a cancellation, the reader. */
  lemma OutsideKeepsInv(s: State, c: Config, a: Action)
    requires Inv(s, c) && Enabled(s, c, a)
    requires a.CallStart? || a.CloseLock? || a.CloseUnlock? || a.Cancel? || a.Receive?
    ensures Inv(Next(s, c, a), c)
  {
    var maySpawn := MaySpawn(s.run, s.cmdSet);
    if a.Receive? {
      PopKeepsBuffer(s.buffer, s.received, s.run.sent, Capacity(c));
    } else if a.CallStart? {
      MoveCaller(s.callers, s.lock, maySpawn, a.id, CReadStarted, s.lock, maySpawn);
    }
  }

  lemma {:induction false} EveryRunIsSound(schedule: seq<Action>, c: Config)
    requires Exec(schedule, c).Reached?
    ensures Inv(Exec(schedule, c).state, c)
  {
    if schedule != [] {
      var n := |schedule| - 1;
      EveryRunIsSound(schedule[..n], c);
      StepKeepsInv(Exec(schedule[..n], c).state, c, schedule[n]);
    }
  }

  lemma ReachableIsSound(s: State, c: Config)
    requires Reachable(s, c)
    ensures Inv(s, c)
  {
    var schedule :| Exec(schedule, c) == Reached(s);
    EveryRunIsSound(schedule, c);
  }

  // ---- main results ----

  /** However Start calls interleave, at most one watcher is ever spawned, and none if the first launch failed. */
  lemma AtMostOneWatcher(s: State, c: Config)
    requires Reachable(s, c)
    ensures s.watchers <= 1 && (s.watchers == 0 <==> s.run.pc == WNone)
    ensures s.watchers == 1 ==> s.run.starts >= 1
    ensures s.run.attempts > 0 && s.run.starts == 0 ==> s.watchers == 0
  {
    ReachableIsSound(s, c);
  }

  /**
    With restart on error and a positive limit the command is launched at most limit + 1 times; without restart, once.
   */
  lemma RestartsAreBounded(s: State, c: Config)
    requires Reachable(s, c)
    ensures s.run.starts <= s.run.attempts
    ensures c.onError && c.limit > 0 ==> s.run.attempts <= c.limit + 1
    ensures !c.onError ==> s.run.attempts <= 1
  {
    ReachableIsSound(s, c);
  }

  /**
    One result is sent per finished run, in order; every result but the last is an error, and while another run
    can still come all of them are; the reader gets a prefix of what was sent.
   */
  lemma OneResultPerRun(s: State, c: Config)
    requires Reachable(s, c)
    ensures |s.run.sent| <= s.run.finished <= s.run.starts && s.run.finished <= |s.run.sent| + 1
    ensures s.run.finished == |s.run.sent| + 1 <==> s.run.pc.WSend? || s.run.pc.WSendLast?
    ensures AllErrorsButLast(s.run.sent)
    ensures s.run.pc.WTop? || s.run.pc.WWait? || s.run.pc.WBackoff? || s.run.pc.WRestart? ==> AllErrors(s.run.sent)
    ensures s.received <= |s.run.sent| && s.run.sent[..s.received] + s.buffer == s.run.sent
  {
    ReachableIsSound(s, c);
    assert s.run.sent == s.run.sent[..s.received] + s.run.sent[s.received..];
  }

  /** No step after the closing sends a result, launches the command or closes the channel again. */
  ghost predicate WatcherIsDone(s: State, c: Config) {
    forall a :: Enabled(s, c, a) ==> Next(s, c, a).run == s.run
  }

  lemma DeadStaysDead(s: State, c: Config, a: Action)
    requires Inv(s, c) && s.run.pc == WDead && Enabled(s, c, a)
    ensures Next(s, c, a).run == s.run
  {
    if a.CallerStep? {
      assert s.callers[a.id] != CSpawn && s.cmdSet;
    }
  }

  /** The result channel is closed at most once, after every started run reported, and nothing follows. */
  lemma ClosedOnceAtTheEnd(s: State, c: Config)
    requires Reachable(s, c)
    ensures s.run.closes <= 1
    ensures s.run.closes == 1 ==> |s.run.sent| == s.run.finished == s.run.starts && WatcherIsDone(s, c)
  {
    ReachableIsSound(s, c);
    if s.run.closes == 1 {
      forall a | Enabled(s, c, a) ensures Next(s, c, a).run == s.run {
        DeadStaysDead(s, c, a);
      }
    }
  }

  /**
    The first sends, as many as the channel holds, never block even if nobody reads; without a reader the next one
    does.
   */
  lemma FirstSendsNeverBlock(s: State, c: Config)
    requires Reachable(s, c) && (s.run.pc.WSend? || s.run.pc.WSendLast?)
    ensures |s.run.sent| < Capacity(c) ==> Enabled(s, c, SendResult)
    ensures s.received == 0 ==> (Enabled(s, c, SendResult) <==> |s.run.sent| < Capacity(c))
  {
    ReachableIsSound(s, c);
  }

  /** The branch for a command that has no process yet is never taken. */
  lemma WatchedCommandHasProcess(s: State, c: Config)
    requires Reachable(s, c) && s.run.pc == WTop
    ensures s.run.hasProcess
  {
    ReachableIsSound(s, c);
  }
}
