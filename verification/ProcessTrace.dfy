/**
  What a run of the process watcher (ProcessWatcher) says about its own schedule: which results are sent, why the
  watcher ended, and how often it restarted the command.
 */
module ProcessTrace {
  import opened ProcessWatcher

  // ---- results ----

  function ResultBy(a: Action): seq<Result> {
    if a.RunEnds? then [a.result] else []
  }

  /** How the runs of the command ended, in order. */
  function Results(schedule: seq<Action>): seq<Result> {
    if schedule == [] then [] else Results(schedule[..|schedule| - 1]) + ResultBy(schedule[|schedule| - 1])
  }

  /** The result of a finished run that the watcher has not sent yet. */
  function Pending(pc: WatcherPC): seq<Result> {
    if pc.WSend? || pc.WSendLast? then [pc.result] else []
  }

  ghost predicate SendsResults(r: Run, results: seq<Result>) {
    results == r.sent + Pending(r.pc) && r.finished == |results|
  }

  lemma RunSendsResults(r: Run, cancelled: bool, c: Config, a: Action, results: seq<Result>)
    requires SendsResults(r, results) && RunEnabled(r.pc, cancelled, a)
    ensures SendsResults(NextRun(r, cancelled, c, a), results + ResultBy(a))
  {
    assert results + [] == results && r.sent + [] == r.sent;
  }

  // ---- why the watcher ended ----

  function CountRestarts(schedule: seq<Action>, ok: bool): nat {
    if schedule == [] then 0
    else CountRestarts(schedule[..|schedule| - 1], ok) + if schedule[|schedule| - 1] == Restart(ok) then 1 else 0
  }

  /** Nothing was cancelled and no restart failed. */
  predicate Undisturbed(schedule: seq<Action>) {
    Cancel !in schedule && CloseLock !in schedule && Restart(false) !in schedule
  }

  /** The last run succeeded, or no restart is configured, or the limit is used up. */
  predicate MayEnd(r: Run, c: Config) {
    |r.sent| > 0 &&
    (r.sent[|r.sent| - 1] == Success || !c.onError || (c.limit > 0 && r.restarts >= c.limit))
  }

  ghost predicate EndsWithReason(r: Run, c: Config, schedule: seq<Action>) {
    Undisturbed(schedule) ==> Persists(r, c)
  }

  /** The watcher was not told to stop, and has not stopped without one of those reasons. */
  ghost predicate Persists(r: Run, c: Config) {
    r.pc != WAborted && !r.pc.WSendLast? && (r.pc == WClose || r.pc == WDead ==> MayEnd(r, c))
  }

  lemma RunPersists(r: Run, c: Config, a: Action)
    requires Persists(r, c) && RunEnabled(r.pc, false, a) && RunOk(r, c) && a != Restart(false)
    ensures Persists(NextRun(r, false, c, a), c)
  {}

  /** After the watcher saw the cancellation it only sends what is left and closes. */
  ghost predicate StopsOnCancel(r: Run, schedule: seq<Action>) {
    SeeCancel in schedule ==> r.pc == WAborted || r.pc.WSendLast? || r.pc == WClose || r.pc == WDead
  }

  ghost predicate CountsRestarts(r: Run, cmdSet: bool, schedule: seq<Action>) {
    && r.restarts == CountRestarts(schedule, true)
    && r.attempts == (if cmdSet then 1 else 0) + CountRestarts(schedule, true) + CountRestarts(schedule, false)
  }

  ghost predicate Flags(s: State, schedule: seq<Action>) {
    && (s.cancelled <==> Cancel in schedule || CloseLock in schedule)
    && (s.aborted <==> CloseUnlock in schedule)
    && (s.started <==> s.run.starts > 0)
  }

  ghost predicate Story(s: State, c: Config, schedule: seq<Action>) {
    && SendsResults(s.run, Results(schedule))
    && EndsWithReason(s.run, c, schedule)
    && StopsOnCancel(s.run, schedule)
    && CountsRestarts(s.run, s.cmdSet, schedule)
    && Flags(s, schedule)
  }

  lemma Appended(schedule: seq<Action>, a: Action)
    ensures var after := schedule + [a];
      && Results(after) == Results(schedule) + ResultBy(a)
      && CountRestarts(after, true) == CountRestarts(schedule, true) + (if a == Restart(true) then 1 else 0)
      && CountRestarts(after, false) == CountRestarts(schedule, false) + (if a == Restart(false) then 1 else 0)
      && (forall b :: b in after <==> b in schedule || b == a)
  {
    assert (schedule + [a])[..|schedule|] == schedule;
  }

  lemma RunEndsWithReason(r: Run, cancelled: bool, c: Config, a: Action, schedule: seq<Action>)
    requires EndsWithReason(r, c, schedule) && RunEnabled(r.pc, cancelled, a) && RunOk(r, c)
    requires cancelled <==> Cancel in schedule || CloseLock in schedule
    ensures EndsWithReason(NextRun(r, cancelled, c, a), c, schedule + [a])
  {
    Appended(schedule, a);
    if Undisturbed(schedule + [a]) {
      RunPersists(r, c, a);
    }
  }

  lemma RunStopsOnCancel(r: Run, cancelled: bool, c: Config, a: Action, schedule: seq<Action>)
    requires StopsOnCancel(r, schedule) && RunEnabled(r.pc, cancelled, a)
    ensures StopsOnCancel(NextRun(r, cancelled, c, a), schedule + [a])
  {
    Appended(schedule, a);
  }

  lemma RunCountsRestarts(r: Run, cancelled: bool, c: Config, a: Action, schedule: seq<Action>)
    requires CountsRestarts(r, true, schedule) && RunEnabled(r.pc, cancelled, a)
    ensures CountsRestarts(NextRun(r, cancelled, c, a), true, schedule + [a])
  {
    Appended(schedule, a);
  }

  lemma WatcherFlags(s: State, c: Config, a: Action, schedule: seq<Action>)
    requires Flags(s, schedule) && Enabled(s, c, a) && RunEnabled(s.run.pc, s.cancelled, a)
    ensures Flags(Next(s, c, a), schedule + [a])
  {
    Appended(schedule, a);
  }

  lemma WatcherStory(s: State, c: Config, a: Action, schedule: seq<Action>)
    requires Inv(s, c) && Story(s, c, schedule) && Enabled(s, c, a) && RunEnabled(s.run.pc, s.cancelled, a)
    ensures Story(Next(s, c, a), c, schedule + [a])
  {
    SteppingIsWatched(s.run, s.cmdSet, s.watchers, c, s.cancelled, a);
    Appended(schedule, a);
    RunSendsResults(s.run, s.cancelled, c, a, Results(schedule));
    RunEndsWithReason(s.run, s.cancelled, c, a, schedule);
    RunStopsOnCancel(s.run, s.cancelled, c, a, schedule);
    RunCountsRestarts(s.run, s.cancelled, c, a, schedule);
    WatcherFlags(s, c, a, schedule);
    WatcherFrame(s, c, a);
  }

  /** What a step of Start does to the run: nothing, the first launch, or the spawning of the watcher. */
  lemma CallerRun(s: State, c: Config, id: nat, ok: bool)
    requires Inv(s, c) && CallerEnabled(s, id)
    ensures var t := NextCaller(s, id, ok);
      && t.cancelled == s.cancelled && t.aborted == s.aborted
      && (|| (t.run == s.run && t.cmdSet == s.cmdSet && t.started == s.started)
          || (s.run == FRESH && !s.cmdSet && t.cmdSet && t.run == Launch(FRESH, ok) && t.started == (s.started || ok))
          || (s.run == Launch(FRESH, true) && t.run == s.run.(pc := WTop) && t.cmdSet == s.cmdSet
            && t.started == s.started))
  {}

  lemma CallerStory(s: State, c: Config, id: nat, ok: bool, schedule: seq<Action>)
    requires Inv(s, c) && Story(s, c, schedule) && CallerEnabled(s, id)
    ensures Story(NextCaller(s, id, ok), c, schedule + [CallerStep(id, ok)])
  {
    CallerRun(s, c, id, ok);
    var t := NextCaller(s, id, ok);
    Appended(schedule, CallerStep(id, ok));
    assert Results(schedule) + [] == Results(schedule);
    QuietStory(s.run, t.run, s.cmdSet, t.cmdSet, c, schedule, CallerStep(id, ok));
  }

  /** A step that is not the watcher's and adds no result. */
  lemma QuietStory(r: Run, after: Run, cmdSet: bool, cmdSet': bool, c: Config, schedule: seq<Action>, a: Action)
    requires SendsResults(r, Results(schedule)) && EndsWithReason(r, c, schedule) && CountsRestarts(r, cmdSet, schedule)
    requires StopsOnCancel(r, schedule) && a != SeeCancel
    requires !a.RunEnds? && !a.Restart? && after.sent == r.sent && after.finished == r.finished
    requires after.restarts == r.restarts && (after.pc == r.pc || (r.pc == WNone && after.pc == WTop))
    requires after.attempts == r.attempts + (if cmdSet' && !cmdSet then 1 else 0) && (cmdSet ==> cmdSet')
    ensures SendsResults(after, Results(schedule + [a])) && EndsWithReason(after, c, schedule + [a])
    ensures StopsOnCancel(after, schedule + [a])
    ensures CountsRestarts(after, cmdSet', schedule + [a])
  {
    QuietResults(r, after, schedule, a);
    QuietReason(r, after, c, schedule, a);
    QuietCounts(r, after, cmdSet, cmdSet', schedule, a);
  }

  lemma QuietResults(r: Run, after: Run, schedule: seq<Action>, a: Action)
    requires SendsResults(r, Results(schedule)) && !a.RunEnds? && after.sent == r.sent && after.finished == r.finished
    requires after.pc == r.pc || (r.pc == WNone && after.pc == WTop)
    ensures SendsResults(after, Results(schedule + [a]))
  {
    Appended(schedule, a);
    assert Results(schedule) + [] == Results(schedule);
  }

  lemma QuietReason(r: Run, after: Run, c: Config, schedule: seq<Action>, a: Action)
    requires EndsWithReason(r, c, schedule) && StopsOnCancel(r, schedule) && a != SeeCancel
    requires after.sent == r.sent && after.restarts == r.restarts
    requires after.pc == r.pc || (r.pc == WNone && after.pc == WTop)
    ensures EndsWithReason(after, c, schedule + [a]) && StopsOnCancel(after, schedule + [a])
  {
    Appended(schedule, a);
  }

  lemma QuietCounts(r: Run, after: Run, cmdSet: bool, cmdSet': bool, schedule: seq<Action>, a: Action)
    requires CountsRestarts(r, cmdSet, schedule) && !a.Restart? && after.restarts == r.restarts
    requires after.attempts == r.attempts + (if cmdSet' && !cmdSet then 1 else 0) && (cmdSet ==> cmdSet')
    ensures CountsRestarts(after, cmdSet', schedule + [a])
  {
    Appended(schedule, a);
  }

  lemma OutsideStory(s: State, c: Config, a: Action, schedule: seq<Action>)
    requires Story(s, c, schedule) && Enabled(s, c, a)
    requires a.CallStart? || a.CloseLock? || a.CloseUnlock? || a.Cancel? || a.Receive?
    ensures Story(Next(s, c, a), c, schedule + [a])
  {
    QuietStory(s.run, s.run, s.cmdSet, s.cmdSet, c, schedule, a);
    OutsideFlags(s, c, a, schedule);
  }

  lemma OutsideFlags(s: State, c: Config, a: Action, schedule: seq<Action>)
    requires Flags(s, schedule) && Enabled(s, c, a)
    requires a.CallStart? || a.CloseLock? || a.CloseUnlock? || a.Cancel? || a.Receive?
    ensures Flags(Next(s, c, a), schedule + [a]) && Next(s, c, a).run == s.run && Next(s, c, a).cmdSet == s.cmdSet
  {
    Appended(schedule, a);
  }

  lemma StepStory(s: State, c: Config, a: Action, schedule: seq<Action>)
    requires Inv(s, c) && Story(s, c, schedule) && Enabled(s, c, a)
    ensures Story(Next(s, c, a), c, schedule + [a])
  {
    if a.CallerStep? {
      CallerStory(s, c, a.id, a.ok, schedule);
    } else if RunEnabled(s.run.pc, s.cancelled, a) {
      WatcherStory(s, c, a, schedule);
    } else {
      OutsideStory(s, c, a, schedule);
    }
  }

  /** The story holds after every run. */
  lemma {:induction false} EveryRunTellsItsStory(schedule: seq<Action>, c: Config)
    requires Exec(schedule, c).Reached?
    ensures Story(Exec(schedule, c).state, c, schedule)
  {
    if schedule != [] {
      var n := |schedule| - 1;
      var before, a := schedule[..n], schedule[n];
      assert schedule == before + [a];
      EveryRunIsSound(before, c);
      EveryRunTellsItsStory(before, c);
      StepStory(Exec(before, c).state, c, a, before);
    }
  }

  // ---- main results ----

  /** The results sent are those of the runs, as they ended and in order; at most the last is not sent yet. */
  lemma SentIsHowRunsEnded(schedule: seq<Action>, c: Config)
    requires Exec(schedule, c).Reached?
    ensures var r := Exec(schedule, c).state.run;
      && r.finished == |Results(schedule)| && |r.sent| <= |Results(schedule)| <= |r.sent| + 1
      && r.sent == Results(schedule)[..|r.sent|]
  {
    EveryRunTellsItsStory(schedule, c);
  }

  /**
    When the watcher closed its channel, nothing was cancelled and every restart succeeded, then the last run succeeded,
    or no restart on error is configured, or the command ran limit + 1 times: it never gives up early.
   */
  lemma NeverGivesUpEarly(schedule: seq<Action>, c: Config)
    requires Exec(schedule, c).Reached? && Undisturbed(schedule) && Exec(schedule, c).state.run.closes > 0
    ensures var sent := Exec(schedule, c).state.run.sent;
      && sent == Results(schedule) && |sent| > 0
      && (sent[|sent| - 1] == Success || !c.onError || (c.limit > 0 && |sent| == c.limit + 1))
  {
    EveryRunIsSound(schedule, c);
    EveryRunTellsItsStory(schedule, c);
    var r := Exec(schedule, c).state.run;
    assert r.sent + [] == r.sent;
  }

  /** Once the watcher has seen the cancellation it launches nothing more. */
  lemma NoRestartAfterCancel(schedule: seq<Action>, c: Config, a: Action)
    requires Exec(schedule, c).Reached? && SeeCancel in schedule && Enabled(Exec(schedule, c).state, c, a)
    ensures !a.Restart? && !a.BackoffOver? && !a.SeeCancel?
  {
    EveryRunTellsItsStory(schedule, c);
  }

  /** The command was launched once by Start and once per restart, and the flags tell what happened. */
  lemma LaunchesAreCounted(schedule: seq<Action>, c: Config)
    requires Exec(schedule, c).Reached?
    ensures var s := Exec(schedule, c).state;
      && s.run.restarts == CountRestarts(schedule, true)
      && s.run.attempts == (if s.cmdSet then 1 else 0) + CountRestarts(schedule, true) + CountRestarts(schedule, false)
      && (s.cancelled <==> Cancel in schedule || CloseLock in schedule)
      && (s.aborted <==> CloseUnlock in schedule)
      && (s.started <==> s.run.starts > 0)
  {
    EveryRunTellsItsStory(schedule, c);
  }

  /** With a limit L the first L results are sent without a reader; without one, only the first. */
  lemma RoomForTheLimit(s: State, c: Config)
    requires Reachable(s, c) && (s.run.pc.WSend? || s.run.pc.WSendLast?)
    ensures c.onError && c.limit > 0 && |s.run.sent| < c.limit ==> Enabled(s, c, SendResult)
    ensures s.run.sent == [] ==> Enabled(s, c, SendResult)
    ensures s.received == 0 && c.onError && |s.run.sent| >= c.limit > 0 ==> !Enabled(s, c, SendResult)
  {
    FirstSendsNeverBlock(s, c);
  }

  /** Cancelling is always possible, and closing once the process was started and nobody holds the lock. */
  lemma CancelAndCloseArePossible(s: State, c: Config)
    ensures Enabled(s, c, Cancel)
    ensures Enabled(s, c, CloseLock) <==> s.started && s.lock == Free
    ensures s.lock == HeldByClose ==> Enabled(s, c, CloseUnlock)
    ensures s.cancelled && (s.run.pc == WWait || s.run.pc == WBackoff) ==> Enabled(s, c, SeeCancel)
    ensures s.buffer != [] ==> Enabled(s, c, Receive)
  {}

  /** A watcher that is not done can go on, unless its result does not fit the channel. */
  lemma WatcherCanStep(s: State, c: Config, result: Result, ok: bool)
    requires Reachable(s, c) && s.run.pc != WNone && s.run.pc != WDead
    ensures s.run.pc == WTop ==> Enabled(s, c, WatchTop) && Next(s, c, WatchTop).run.pc == WWait
    ensures s.run.pc == WWait || s.run.pc == WAborted ==> Enabled(s, c, RunEnds(result))
    ensures s.run.pc.WSend? || s.run.pc.WSendLast? ==> (Enabled(s, c, SendResult) <==> |s.buffer| < Capacity(c))
    ensures s.run.pc == WBackoff ==> Enabled(s, c, BackoffOver)
    ensures s.run.pc == WRestart ==> Enabled(s, c, Restart(ok))
    ensures s.run.pc == WClose ==> Enabled(s, c, CloseResults)
  {
    if s.run.pc == WTop {
      WatchedCommandHasProcess(s, c);
    }
  }

  lemma StepReaches(s: State, c: Config, a: Action)
    requires Reachable(s, c) && Enabled(s, c, a)
    ensures Reachable(Next(s, c, a), c)
  {
    var schedule :| Exec(schedule, c) == Reached(s);
    assert (schedule + [a])[..|schedule + [a]| - 1] == schedule;
    assert Exec(schedule + [a], c) == Reached(Next(s, c, a));
  }

  /** A first Start gets to the launch. */
  lemma StartGetsToTheLaunch(c: Config) returns (s: State)
    ensures Reachable(s, c) && s.lock == HeldBy(0) && s.callers == map[0 := CCheck] && !s.cmdSet
    ensures s.run == FRESH && s.watchers == 0
  {
    assert Exec([], c) == Reached(Init());
    StepReaches(Init(), c, CallStart(0));
    var s1 := Init().(callers := map[0 := CReadStarted]);
    assert Next(Init(), c, CallStart(0)) == s1;
    StepReaches(s1, c, CallerStep(0, true));
    var s2 := s1.(callers := map[0 := CReadAborted]);
    assert NextCaller(s1, 0, true) == s2;
    StepReaches(s2, c, CallerStep(0, true));
    var s3 := s1.(callers := map[0 := CLock]);
    assert NextCaller(s2, 0, true) == s3;
    StepReaches(s3, c, CallerStep(0, true));
    s := s1.(callers := map[0 := CCheck], lock := HeldBy(0));
    assert NextCaller(s3, 0, true) == s;
  }

  /** If the launch succeeds the command runs and is watched, and later Start calls see it started. */
  lemma FirstStartRuns(c: Config) returns (s: State)
    ensures Reachable(s, c) && s.watchers == 1 && s.run.pc == WTop && s.run.starts == 1 && s.started && s.lock == Free
  {
    var s0 := StartGetsToTheLaunch(c);
    StepReaches(s0, c, CallerStep(0, true));
    var s1 := NextCaller(s0, 0, true);
    assert s1.callers[0] == CSpawn;
    StepReaches(s1, c, CallerStep(0, true));
    s := NextCaller(s1, 0, true);
  }
}
