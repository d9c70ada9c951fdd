/**
  What a run of the package controller (PackageController) says about its own schedule: which versions a gate let pass,
  which scripts run when, and what the shown fields of a package mean.
 */
module PackageTrace {
  import opened Text
  import opened PackageController

  // ---- versions ----

  /** The version that was read is the demanded one or a later one. */
  ghost predicate AtLeast(read: string, demanded: string) {
    read == demanded || Less(demanded, read)
  }

  ghost predicate Meets(d: Dependency, read: string) {
    d.version == "*" || (read != "" && AtLeast(read, d.version))
  }

  /**
    The gate goes past a dependency exactly if it is known and installed and, where a version is demanded,
      its version is
    known and equal or later; otherwise it skips the package.
   */
  lemma GateIsExact(s: State)
    requires Checking(s)
    ensures var d := Checked(s);
      && (Enabled(s, InstallCheck) <==> Installed(s.pkgs, d.name) && Meets(d, s.pkgs[d.name].version))
      && (Enabled(s, InstallSkip) <==> !Enabled(s, InstallCheck))
  {
    var d := Checked(s);
    if d.name in s.pkgs {
      NotLess(s.pkgs[d.name].version, d.version);
    }
  }

  ghost predicate ReadSoFar(gate: Gate) {
    |gate.read| <= |gate.deps| && forall i :: 0 <= i < |gate.read| ==> Meets(gate.deps[i], gate.read[i])
  }

  /** Every dependency of the list was read, and met the demand when it was. */
  ghost predicate Passed(gate: Gate) {
    ReadSoFar(gate) && |gate.read| == |gate.deps|
  }

  ghost predicate Versions(s: State) {
    && (s.install.ICheck? ==> ReadSoFar(s.install.gate))
    && (s.install.IGate? || s.install.IProbe? || s.install.IMark? ==> Passed(s.install.gate))
    && (forall id :: id in s.tasks ==> Passed(s.tasks[id].gate))
    && (forall i :: 0 <= i < |s.order| ==> Passed(s.order[i].gate))
    && (forall i :: 0 <= i < |s.launches| ==> Passed(s.launches[i].gate))
  }

  lemma InstallerKeepsVersions(s: State, a: Action)
    requires Versions(s) && Enabled(s, a) && OfInstaller(a)
    ensures Versions(NextInstall(s, a))
  {
    if a.InstallCheck? {
      GateIsExact(s);
    }
  }

  lemma EffectKeepsVersions(s: State, e: Effect)
    requires Versions(s) && (e.Begins? ==> e.pkg in s.pkgs) && (e.Launches? || e.Begins? ==> Passed(e.gate))
    ensures Versions(Apply(s, e))
  {}

  lemma TaskKeepsVersions(s: State, id: nat, ok: bool)
    requires Versions(s) && Enabled(s, TaskStep(id, ok))
    ensures Versions(NextTask(s, id, ok))
  {
    EffectKeepsVersions(s, TaskEffect(s, s.tasks[id]));
  }

  lemma LoopKeepsVersions(s: State, a: Action)
    requires Versions(s) && Enabled(s, a) && (a.UpdateStep? || a.StatusStep? || a.DeleteStep? || a.DeletePick?)
    ensures Versions(Next(s, a))
  {
    assert Passed(NO_GATE);
    match a
    case UpdateStep(_, _) => EffectKeepsVersions(s, UpdateEffect(s));
    case StatusStep(ok) => EffectKeepsVersions(s, StatusEffect(s, ok));
    case DeleteStep(_) => EffectKeepsVersions(s, Launches(s.delete.pkg, Delete, NO_GATE));
    case DeletePick(p) => EffectKeepsVersions(s, Launches(p, NeedDelete, NO_GATE));
  }

  lemma QuietKeepsVersions(s: State, a: Action)
    requires Versions(s) && Enabled(s, a)
    requires a.Reconcile? || a.TickerWrite? || a.TickerStop? || a.UpdatePick? || a.StatusPick?
    ensures Versions(Next(s, a))
  {}

  /**
    In every run, whatever is marked installed and whatever script is launched passed a gate that read every dependency
    of its list, each at the demanded version or a later one.
   */
  lemma {:induction false} GatesReadTheirVersions(schedule: seq<Action>)
    requires Exec(schedule).Reached?
    ensures Versions(Exec(schedule).state)
  {
    if schedule != [] {
      var n := |schedule| - 1;
      var s, a := Exec(schedule[..n]).state, schedule[n];
      GatesReadTheirVersions(schedule[..n]);
      if OfInstaller(a) {
        InstallerKeepsVersions(s, a);
      } else if a.TaskStep? {
        TaskKeepsVersions(s, a.id, a.ok);
      } else if a.UpdateStep? || a.StatusStep? || a.DeleteStep? || a.DeletePick? {
        LoopKeepsVersions(s, a);
      } else {
        QuietKeepsVersions(s, a);
      }
    }
  }

  // ---- which scripts run when ----

  /** The script a step runs, read off the goroutine's place, the action's outcome and the package. */
  function Due(s: State, a: Action): Option<Launch>
    requires Enabled(s, a)
  {
    var n := |s.order|;
    match a
    case InstallGate =>
      if s.pkgs[s.install.pkg].installing then None else Some(Launch(s.install.pkg, IsInstalled, s.install.gate, n))
    case TaskStep(id, _) =>
      var t := s.tasks[id];
      if t.pc == TBegin then Some(Launch(t.pkg, Install, t.gate, n))
      else if t.pc == TInstalled(true) then Some(Launch(t.pkg, Start, t.gate, n))
      else None
    case UpdateStep(_, _) =>
      if s.update.UChecked? then Some(Launch(s.update.pkg, Version, NO_GATE, n))
      else if s.update.UBegin? then Some(Launch(s.update.pkg, Upgrade, NO_GATE, n))
      else None
    case StatusStep(ok) =>
      if s.status.SChecked? then Some(Launch(s.status.pkg, Status, NO_GATE, n))
      else if s.status.SStatus? && !ok then Some(Launch(s.status.pkg, Stop, NO_GATE, n))
      else if s.status.SStop? && ok then Some(Launch(s.status.pkg, Start, NO_GATE, n))
      else None
    case DeletePick(p) => Some(Launch(p, NeedDelete, NO_GATE, n))
    case DeleteStep(ok) => if s.delete.DNeed? && ok then Some(Launch(s.delete.pkg, Delete, NO_GATE, n)) else None
    case _ => None
  }

  function With<T>(xs: seq<T>, x: Option<T>): seq<T> {
    if x.Some? then xs + [x.value] else xs
  }

  lemma EffectLaunches(s: State, e: Effect)
    requires e.Begins? ==> e.pkg in s.pkgs
    ensures Apply(s, e).launches ==
            if e.Launches? || e.Begins? then s.launches + [Launch(e.pkg, e.script, e.gate, |s.order|)] else s.launches
  {}

  lemma TaskRunsDue(s: State, id: nat, ok: bool)
    requires Enabled(s, TaskStep(id, ok))
    ensures NextTask(s, id, ok).launches == With(s.launches, Due(s, TaskStep(id, ok)))
  {
    EffectLaunches(s, TaskEffect(s, s.tasks[id]));
  }

  lemma UpdateRunsDue(s: State, ok: bool, v: string)
    requires Enabled(s, UpdateStep(ok, v))
    ensures NextUpdate(s, ok, v).launches == With(s.launches, Due(s, UpdateStep(ok, v)))
  {
    EffectLaunches(s, UpdateEffect(s));
  }

  lemma StatusRunsDue(s: State, ok: bool)
    requires Enabled(s, StatusStep(ok))
    ensures NextStatus(s, ok).launches == With(s.launches, Due(s, StatusStep(ok)))
  {
    EffectLaunches(s, StatusEffect(s, ok));
  }

  lemma InstallerRunsDue(s: State, a: Action)
    requires Enabled(s, a) && OfInstaller(a)
    ensures Next(s, a).launches == With(s.launches, Due(s, a))
  {}

  lemma OthersRunDue(s: State, a: Action)
    requires Enabled(s, a) && !OfInstaller(a) && !a.TaskStep? && !a.UpdateStep? && !a.StatusStep?
    ensures Next(s, a).launches == With(s.launches, Due(s, a))
  {}

  /** A step runs the script that is due, and only that. */
  lemma ScriptsRunWhenDue(s: State, a: Action)
    requires Enabled(s, a)
    ensures Next(s, a).launches == With(s.launches, Due(s, a))
  {
    if OfInstaller(a) {
      InstallerRunsDue(s, a);
    } else if a.TaskStep? {
      TaskRunsDue(s, a.id, a.ok);
    } else if a.UpdateStep? {
      UpdateRunsDue(s, a.ok, a.reported);
    } else if a.StatusStep? {
      StatusRunsDue(s, a.ok);
    } else {
      OthersRunDue(s, a);
    }
  }

  // ---- which package fields a step sets ----

  datatype Write = Write(pkg: string, value: Package)

  function Put(pkgs: Packages, w: Option<Write>): Packages {
    if w.Some? then pkgs[w.value.pkg := w.value.value] else pkgs
  }

  function Began(s: State, q: string): Option<Write>
    requires q in s.pkgs
  {
    Some(Write(q, s.pkgs[q].(installing := true, progress := 0)))
  }

  function Finished(s: State, q: string): Option<Write>
    requires q in s.pkgs
  {
    Some(Write(q, s.pkgs[q].(installing := false, progress := 100)))
  }

  /** The package a step writes, read off the goroutine's place and the action. */
  function Wrote(s: State, a: Action): Option<Write>
    requires Enabled(s, a)
  {
    match a
    case Reconcile(i) =>
      var x := if i.name in s.pkgs then s.pkgs[i.name] else Package(false, false, 0, false, "", "", "", [], 0);
      Some(Write(i.name, x.(dependencies := i.dependencies, totalTime := i.totalTime, target := i.target,
        script := i.script)))
    case InstallMark => Some(Write(s.install.pkg, s.pkgs[s.install.pkg].(progress := 100, installed := true)))
    case TaskStep(id, _) =>
      if s.tasks[id].pc == TBegin then Began(s, s.tasks[id].pkg)
      else if s.tasks[id].pc == TEnd then Finished(s, s.tasks[id].pkg)
      else None
    case UpdateStep(_, _) =>
      if s.update.USet? then Some(Write(s.update.pkg, s.pkgs[s.update.pkg].(version := s.update.version)))
      else if s.update.UBegin? then Began(s, s.update.pkg)
      else if s.update.UEnd? then Finished(s, s.update.pkg)
      else None
    case StatusStep(_) =>
      if s.status.SSet? then Some(Write(s.status.pkg, s.pkgs[s.status.pkg].(healthy := true))) else None
    case TickerWrite(id, r) =>
      var t := s.tickers[id];
      Some(Write(t.pkg, s.pkgs[t.pkg].(progress := TickerProgress(t.eta, r))))
    case _ => None
  }

  lemma EffectPackages(s: State, e: Effect)
    requires e.Begins? ==> e.pkg in s.pkgs
    ensures Apply(s, e).pkgs ==
            if e.Writes? then s.pkgs[e.pkg := e.value]
            else if e.Begins? then Put(s.pkgs, Began(s, e.pkg))
            else s.pkgs
  {}

  lemma TaskWrites(s: State, id: nat, ok: bool)
    requires Enabled(s, TaskStep(id, ok))
    ensures NextTask(s, id, ok).pkgs == Put(s.pkgs, Wrote(s, TaskStep(id, ok)))
  {
    EffectPackages(s, TaskEffect(s, s.tasks[id]));
  }

  lemma UpdateWrites(s: State, ok: bool, v: string)
    requires Enabled(s, UpdateStep(ok, v))
    ensures NextUpdate(s, ok, v).pkgs == Put(s.pkgs, Wrote(s, UpdateStep(ok, v)))
  {
    EffectPackages(s, UpdateEffect(s));
  }

  lemma StatusWrites(s: State, ok: bool)
    requires Enabled(s, StatusStep(ok))
    ensures NextStatus(s, ok).pkgs == Put(s.pkgs, Wrote(s, StatusStep(ok)))
  {
    EffectPackages(s, StatusEffect(s, ok));
  }

  lemma InstallerWrites(s: State, a: Action)
    requires Enabled(s, a) && OfInstaller(a)
    ensures Next(s, a).pkgs == Put(s.pkgs, Wrote(s, a))
  {}

  lemma OthersWrite(s: State, a: Action)
    requires Enabled(s, a) && !OfInstaller(a) && !a.TaskStep? && !a.UpdateStep? && !a.StatusStep?
    ensures Next(s, a).pkgs == Put(s.pkgs, Wrote(s, a))
  {}

  lemma StepWrites(s: State, a: Action)
    requires Enabled(s, a)
    ensures Next(s, a).pkgs == Put(s.pkgs, Wrote(s, a))
  {
    if OfInstaller(a) {
      InstallerWrites(s, a);
    } else if a.TaskStep? {
      TaskWrites(s, a.id, a.ok);
    } else if a.UpdateStep? {
      UpdateWrites(s, a.ok, a.reported);
    } else if a.StatusStep? {
      StatusWrites(s, a.ok);
    } else {
      OthersWrite(s, a);
    }
  }

  // ---- announcements ----

  /** The last announcement of the package. */
  function LastInfo(schedule: seq<Action>, p: string): Option<PackageInfo> {
    if schedule == [] then None
    else
      var a := schedule[|schedule| - 1];
      if a.Reconcile? && a.info.name == p then Some(a.info) else LastInfo(schedule[..|schedule| - 1], p)
  }

  predicate Shows(x: Package, i: PackageInfo) {
    x.dependencies == i.dependencies && x.totalTime == i.totalTime && x.target == i.target && x.script == i.script
  }

  ghost predicate Announced(pkgs: Packages, p: string, i: Option<PackageInfo>) {
    (p in pkgs <==> i.Some?) && (p in pkgs ==> Shows(pkgs[p], i.value))
  }

  lemma WriteKeepsAnnounced(s: State, a: Action, p: string, i: Option<PackageInfo>)
    requires Enabled(s, a) && Announced(s.pkgs, p, i)
    ensures Announced(Put(s.pkgs, Wrote(s, a)), p, if a.Reconcile? && a.info.name == p then Some(a.info) else i)
  {}

  /** In every run the controller knows exactly the announced packages, each with what was announced of it last. */
  lemma {:induction false} AnnouncementsHold(schedule: seq<Action>, p: string)
    requires Exec(schedule).Reached?
    ensures Announced(Exec(schedule).state.pkgs, p, LastInfo(schedule, p))
  {
    if schedule != [] {
      var n := |schedule| - 1;
      AnnouncementsHold(schedule[..n], p);
      WriteKeepsAnnounced(Exec(schedule[..n]).state, schedule[n], p, LastInfo(schedule[..n], p));
      StepWrites(Exec(schedule[..n]).state, schedule[n]);
    }
  }

  /** A ticker works with a time that was announced for its package at some point of the run. */
  ghost predicate AnnouncedTime(schedule: seq<Action>, t: Ticker) {
    exists k :: 0 <= k <= |schedule| && LastInfo(schedule[..k], t.pkg).Some?
      && LastInfo(schedule[..k], t.pkg).value.totalTime == t.eta
  }

  lemma AnnouncedTimeStays(schedule: seq<Action>, a: Action, t: Ticker)
    requires AnnouncedTime(schedule, t)
    ensures AnnouncedTime(schedule + [a], t)
  {
    var k :| 0 <= k <= |schedule| && LastInfo(schedule[..k], t.pkg).Some?
      && LastInfo(schedule[..k], t.pkg).value.totalTime == t.eta;
    assert (schedule + [a])[..k] == schedule[..k];
  }

  lemma AnnouncedNow(schedule: seq<Action>, a: Action, p: string)
    requires Exec(schedule).Reached? && p in Exec(schedule).state.pkgs
    ensures AnnouncedTime(schedule + [a], Ticker(p, Exec(schedule).state.pkgs[p].totalTime))
  {
    AnnouncementsHold(schedule, p);
    assert (schedule + [a])[..|schedule|] == schedule;
  }

  /** The ticker a step starts: a task or an upgrade that begins starts one. */
  function Started(s: State, a: Action): Option<Ticker>
    requires Enabled(s, a)
  {
    if a.TaskStep? && s.tasks[a.id].pc == TBegin then
      Some(Ticker(s.tasks[a.id].pkg, s.pkgs[s.tasks[a.id].pkg].totalTime))
    else if a.UpdateStep? && s.update.UBegin? then Some(Ticker(s.update.pkg, s.pkgs[s.update.pkg].totalTime))
    else None
  }

  lemma EffectTickers(s: State, e: Effect)
    requires e.Begins? ==> e.pkg in s.pkgs
    ensures Apply(s, e).tickers ==
            if e.Begins? then s.tickers[s.nextId := Ticker(e.pkg, s.pkgs[e.pkg].totalTime)] else s.tickers
  {}

  lemma StepStarts(s: State, a: Action, id: nat)
    requires Enabled(s, a) && id in Next(s, a).tickers
    ensures (id in s.tickers && Next(s, a).tickers[id] == s.tickers[id])
            || (Started(s, a).Some? && Next(s, a).tickers[id] == Started(s, a).value)
  {
    if a.TaskStep? {
      EffectTickers(s, TaskEffect(s, s.tasks[a.id]));
    } else if a.UpdateStep? {
      EffectTickers(s, UpdateEffect(s));
    } else {
      OthersStartNone(s, a, id);
    }
  }

  lemma OthersStartNone(s: State, a: Action, id: nat)
    requires Enabled(s, a) && !a.TaskStep? && !a.UpdateStep? && id in Next(s, a).tickers
    ensures id in s.tickers && Next(s, a).tickers[id] == s.tickers[id]
  {
    if OfInstaller(a) {
      InstallerTickers(s, a);
    } else if a.StatusStep? {
      EffectTickers(s, StatusEffect(s, a.ok));
    } else if !a.TickerStop? {
      QuietTickers(s, a);
    }
  }

  lemma InstallerTickers(s: State, a: Action)
    requires Enabled(s, a) && OfInstaller(a)
    ensures NextInstall(s, a).tickers == s.tickers
  {}

  lemma QuietTickers(s: State, a: Action)
    requires Enabled(s, a) && !OfInstaller(a) && !a.TaskStep? && !a.UpdateStep? && !a.StatusStep? && !a.TickerStop?
    ensures Next(s, a).tickers == s.tickers
  {}

  /** In every run each ticker measures against a time announced for its package. */
  lemma {:induction false} TickersUseAnnouncedTimes(schedule: seq<Action>, id: nat)
    requires Exec(schedule).Reached? && id in Exec(schedule).state.tickers
    ensures AnnouncedTime(schedule, Exec(schedule).state.tickers[id])
  {
    if schedule != [] {
      var n := |schedule| - 1;
      var before, a := schedule[..n], schedule[n];
      var s := Exec(before).state;
      assert schedule == before + [a];
      StepStarts(s, a, id);
      if Started(s, a).Some? && Next(s, a).tickers[id] == Started(s, a).value {
        AnnouncedNow(before, a, Started(s, a).value.pkg);
      } else {
        TickersUseAnnouncedTimes(before, id);
        AnnouncedTimeStays(before, a, s.tickers[id]);
      }
    }
  }

  // ---- reports ----

  /** Versions, health, marks and installations go back to what the scripts reported. */
  ghost predicate Reported(schedule: seq<Action>, s: State) {
    && (forall p :: p in s.pkgs ==> s.pkgs[p].version == "" || UpdateStep(true, s.pkgs[p].version) in schedule)
    && (forall p :: p in s.pkgs && s.pkgs[p].healthy ==> StatusStep(true) in schedule)
    && (forall p :: p in s.pkgs && s.pkgs[p].installed ==> InstallProbe(true) in schedule)
    && Places(schedule, s)
    && (forall i :: 0 <= i < |s.launches| ==>
          && (s.launches[i].script == Install ==> InstallProbe(false) in schedule)
          && (s.launches[i].script == Stop ==> StatusStep(false) in schedule))
  }

  lemma PackagesReported(schedule: seq<Action>, s: State, a: Action)
    requires Reported(schedule, s) && Enabled(s, a)
    ensures var pkgs := Put(s.pkgs, Wrote(s, a)); forall p :: p in pkgs ==>
      && (pkgs[p].version == "" || UpdateStep(true, pkgs[p].version) in schedule + [a])
      && (pkgs[p].healthy ==> StatusStep(true) in schedule + [a])
      && (pkgs[p].installed ==> InstallProbe(true) in schedule + [a])
  {}

  lemma LaunchesReported(schedule: seq<Action>, s: State, a: Action)
    requires Reported(schedule, s) && Enabled(s, a)
    ensures var launches := With(s.launches, Due(s, a)); forall i :: 0 <= i < |launches| ==>
      && (launches[i].script == Install ==> InstallProbe(false) in schedule + [a])
      && (launches[i].script == Stop ==> StatusStep(false) in schedule + [a])
  {
    assert a in schedule + [a];
  }

  /** The places of the goroutines that a report led to. */
  ghost predicate Places(schedule: seq<Action>, s: State) {
    && (s.install.IMark? ==> InstallProbe(true) in schedule)
    && (s.tasks != map[] ==> InstallProbe(false) in schedule)
    && (s.update.USet? || s.update.UCompare? ==> UpdateStep(true, s.update.version) in schedule)
    && (s.status.SSet? ==> StatusStep(true) in schedule)
  }

  lemma PlacesStay(schedule: seq<Action>, a: Action, s: State)
    requires Places(schedule, s)
    ensures Places(schedule + [a], s) && a in schedule + [a]
  {}

  lemma InstallerPlaces(schedule: seq<Action>, s: State, a: Action)
    requires Places(schedule, s) && Enabled(s, a) && OfInstaller(a)
    ensures Places(schedule + [a], Next(s, a))
  {
    PlacesStay(schedule, a, s);
  }

  lemma TaskPlaces(schedule: seq<Action>, s: State, id: nat, ok: bool)
    requires Places(schedule, s) && Enabled(s, TaskStep(id, ok))
    ensures Places(schedule + [TaskStep(id, ok)], Next(s, TaskStep(id, ok)))
  {
    PlacesStay(schedule, TaskStep(id, ok), s);
    assert s.tasks != map[];
  }

  lemma UpdatePlaces(schedule: seq<Action>, s: State, ok: bool, v: string)
    requires Places(schedule, s) && Enabled(s, UpdateStep(ok, v))
    ensures Places(schedule + [UpdateStep(ok, v)], Next(s, UpdateStep(ok, v)))
  {
    PlacesStay(schedule, UpdateStep(ok, v), s);
  }

  lemma StatusPlaces(schedule: seq<Action>, s: State, ok: bool)
    requires Places(schedule, s) && Enabled(s, StatusStep(ok))
    ensures Places(schedule + [StatusStep(ok)], Next(s, StatusStep(ok)))
  {
    PlacesStay(schedule, StatusStep(ok), s);
  }

  lemma OtherPlaces(schedule: seq<Action>, s: State, a: Action)
    requires Places(schedule, s) && Enabled(s, a)
    requires !OfInstaller(a) && !a.TaskStep? && !a.UpdateStep? && !a.StatusStep?
    ensures Places(schedule + [a], Next(s, a))
  {
    PlacesStay(schedule, a, s);
  }

  lemma PlacesReported(schedule: seq<Action>, s: State, a: Action)
    requires Places(schedule, s) && Enabled(s, a)
    ensures Places(schedule + [a], Next(s, a))
  {
    if OfInstaller(a) {
      InstallerPlaces(schedule, s, a);
    } else if a.TaskStep? {
      TaskPlaces(schedule, s, a.id, a.ok);
    } else if a.UpdateStep? {
      UpdatePlaces(schedule, s, a.ok, a.reported);
    } else if a.StatusStep? {
      StatusPlaces(schedule, s, a.ok);
    } else {
      OtherPlaces(schedule, s, a);
    }
  }

  /**
    In every run a known version is one that a version script reported, a healthy mark follows a successful status
    script, an installed mark a successful isInstalled script, an installation a failed one, and a stop script a failed
    status script.
   */
  lemma {:induction false} FieldsAreReported(schedule: seq<Action>)
    requires Exec(schedule).Reached?
    ensures Reported(schedule, Exec(schedule).state)
  {
    if schedule != [] {
      var n := |schedule| - 1;
      var s, a := Exec(schedule[..n]).state, schedule[n];
      FieldsAreReported(schedule[..n]);
      PackagesReported(schedule[..n], s, a);
      LaunchesReported(schedule[..n], s, a);
      PlacesReported(schedule[..n], s, a);
      StepWrites(s, a);
      ScriptsRunWhenDue(s, a);
      assert schedule == schedule[..n] + [a];
    }
  }

  // ---- installing and progress ----

  /** An installation or upgrade of the package has begun and not ended. */
  ghost predicate Underway(tasks: map<nat, Task>, update: UpdatePC, p: string) {
    || (exists id :: id in tasks && tasks[id].pkg == p && tasks[id].pc != TBegin)
    || ((update.UUpgrade? || update.UEnd?) && update.pkg == p)
  }

  ghost predicate Touched(pkgs: Packages, launches: seq<Launch>, p: string) {
    || Installed(pkgs, p)
    || exists i :: 0 <= i < |launches| && launches[i].pkg == p && launches[i].script in {Install, Upgrade}
  }

  /** `installing` is set only while something is underway. */
  ghost predicate FlagsOk(s: State) {
    forall p :: p in s.pkgs && s.pkgs[p].installing ==> Underway(s.tasks, s.update, p)
  }

  ghost predicate IdsOk(s: State) {
    forall id :: id in s.tasks ==> id < s.nextId
  }

  lemma FlagsKept(s: State, t: State)
    requires FlagsOk(s) && t.tasks == s.tasks && t.update == s.update
    requires forall p :: p in t.pkgs && t.pkgs[p].installing ==> p in s.pkgs && s.pkgs[p].installing
    ensures FlagsOk(t)
  {}

  lemma TaskFlags(s: State, id: nat, ok: bool)
    requires FlagsOk(s) && IdsOk(s) && Enabled(s, TaskStep(id, ok))
    ensures FlagsOk(NextTask(s, id, ok)) && IdsOk(NextTask(s, id, ok))
  {
    var t, q := NextTask(s, id, ok), s.tasks[id].pkg;
    TaskWrites(s, id, ok);
    forall p | p in t.pkgs && t.pkgs[p].installing ensures Underway(t.tasks, t.update, p) {
      if p == q {
        assert s.tasks[id].pc != TEnd && t.tasks[id].pkg == p && t.tasks[id].pc != TBegin;
      } else if k :| k in s.tasks && s.tasks[k].pkg == p && s.tasks[k].pc != TBegin {
        assert k in t.tasks && t.tasks[k] == s.tasks[k];
      }
    }
  }

  lemma UpdateFlags(s: State, ok: bool, v: string)
    requires FlagsOk(s) && IdsOk(s) && Enabled(s, UpdateStep(ok, v))
    ensures FlagsOk(NextUpdate(s, ok, v)) && IdsOk(NextUpdate(s, ok, v))
  {
    var t, q := NextUpdate(s, ok, v), s.update.pkg;
    UpdateWrites(s, ok, v);
    assert t.tasks == s.tasks && t.nextId >= s.nextId;
    forall p | p in t.pkgs && t.pkgs[p].installing ensures Underway(t.tasks, t.update, p) {
      if p != q {
        assert Underway(s.tasks, s.update, p);
      }
    }
  }

  lemma InstallerFlags(s: State, a: Action)
    requires FlagsOk(s) && IdsOk(s) && Enabled(s, a) && OfInstaller(a)
    ensures FlagsOk(NextInstall(s, a)) && IdsOk(NextInstall(s, a))
  {
    var t := NextInstall(s, a);
    forall p | p in t.pkgs && t.pkgs[p].installing ensures Underway(t.tasks, t.update, p) {
      if k :| k in s.tasks && s.tasks[k].pkg == p && s.tasks[k].pc != TBegin {
        assert k in t.tasks && t.tasks[k] == s.tasks[k];
      }
    }
  }

  lemma OtherFlags(s: State, a: Action)
    requires FlagsOk(s) && IdsOk(s) && Enabled(s, a) && !OfInstaller(a) && !a.TaskStep? && !a.UpdateStep?
    requires a.UpdatePick? ==> s.update == UIdle
    ensures FlagsOk(Next(s, a)) && IdsOk(Next(s, a))
  {
    var t := Next(s, a);
    StepWrites(s, a);
    if !a.UpdatePick? {
      OthersFrame(s, a);
      FlagsKept(s, t);
    }
  }

  lemma OthersFrame(s: State, a: Action)
    requires Enabled(s, a) && !OfInstaller(a) && !a.TaskStep? && !a.UpdateStep? && !a.UpdatePick?
    ensures Next(s, a).tasks == s.tasks && Next(s, a).update == s.update && Next(s, a).nextId == s.nextId
  {}

  /** In every run a package is shown as installing only while an installation or upgrade of it is underway. */
  lemma {:induction false} InstallingMeansUnderway(schedule: seq<Action>)
    requires Exec(schedule).Reached?
    ensures FlagsOk(Exec(schedule).state) && IdsOk(Exec(schedule).state)
  {
    if schedule != [] {
      var n := |schedule| - 1;
      var s, a := Exec(schedule[..n]).state, schedule[n];
      InstallingMeansUnderway(schedule[..n]);
      if OfInstaller(a) {
        InstallerFlags(s, a);
      } else if a.TaskStep? {
        TaskFlags(s, a.id, a.ok);
      } else if a.UpdateStep? {
        UpdateFlags(s, a.ok, a.reported);
      } else {
        OtherFlags(s, a);
      }
    }
  }

  /** Without ticker writes, progress is 0 or 100, and 0 only while installing or when nothing ever happened. */
  ghost predicate ProgressOk(pkgs: Packages, launches: seq<Launch>, p: string) {
    p in pkgs ==>
      && (pkgs[p].progress == 0 || pkgs[p].progress == 100)
      && (pkgs[p].progress == 0 ==> pkgs[p].installing || !Touched(pkgs, launches, p))
  }

  ghost predicate Untouched(s: State, p: string) {
    p !in s.pkgs ==> !Touched(s.pkgs, s.launches, p)
  }

  lemma TouchedGrows(s: State, a: Action, p: string)
    requires Enabled(s, a) && Touched(Put(s.pkgs, Wrote(s, a)), With(s.launches, Due(s, a)), p)
    ensures Touched(s.pkgs, s.launches, p) || (Wrote(s, a).Some? && Wrote(s, a).value.pkg == p && p in s.pkgs)
  {
    var pkgs, launches := Put(s.pkgs, Wrote(s, a)), With(s.launches, Due(s, a));
    if !Installed(pkgs, p) {
      var i :| 0 <= i < |launches| && launches[i].pkg == p && launches[i].script in {Install, Upgrade};
      if i < |s.launches| {
        assert s.launches[i] == launches[i];
      }
    }
  }

  lemma StepProgress(s: State, a: Action, p: string)
    requires Enabled(s, a) && !a.TickerWrite? && ProgressOk(s.pkgs, s.launches, p) && Untouched(s, p)
    ensures ProgressOk(Put(s.pkgs, Wrote(s, a)), With(s.launches, Due(s, a)), p)
    ensures p !in Put(s.pkgs, Wrote(s, a)) ==> !Touched(Put(s.pkgs, Wrote(s, a)), With(s.launches, Due(s, a)), p)
  {
    if Touched(Put(s.pkgs, Wrote(s, a)), With(s.launches, Due(s, a)), p) {
      TouchedGrows(s, a, p);
    }
  }

  /**
    In every run without ticker writes,
      a package that is not being installed shows progress 100 as soon as it was marked
    or an installation or upgrade of it was launched; while one is, it shows 0 or 100.
   */
  lemma {:induction false} ProgressMeansDone(schedule: seq<Action>, p: string)
    requires Exec(schedule).Reached? && forall i :: 0 <= i < |schedule| ==> !schedule[i].TickerWrite?
    ensures var s := Exec(schedule).state; ProgressOk(s.pkgs, s.launches, p) && Untouched(s, p)
  {
    if schedule != [] {
      var n := |schedule| - 1;
      var s, a := Exec(schedule[..n]).state, schedule[n];
      ProgressMeansDone(schedule[..n], p);
      StepProgress(s, a, p);
      StepWrites(s, a);
      ScriptsRunWhenDue(s, a);
    }
  }

  // ---- no goroutine gets stuck ----

  lemma ReachableIsSound(s: State)
    requires Reachable(s)
    ensures PCsOk(s)
  {
    var schedule :| Exec(schedule) == Reached(s);
    EveryRunIsSound(schedule);
  }

  /** The installer can go on from wherever it stands, and can pick any package when it is idle. */
  lemma InstallerCanStep(s: State, ok: bool)
    requires Reachable(s)
    ensures s.install == IIdle ==> forall p :: p in s.pkgs ==> Enabled(s, InstallPick(p))
    ensures s.install.ICheck? ==> Enabled(s, InstallSkip) || Enabled(s, InstallCheck) || Enabled(s, InstallPassed)
    ensures s.install.IGate? ==> Enabled(s, InstallGate)
    ensures s.install.IProbe? ==> Enabled(s, InstallProbe(ok))
    ensures s.install.IMark? ==> Enabled(s, InstallMark)
  {
    ReachableIsSound(s);
    if Checking(s) {
      GateIsExact(s);
    }
  }

  /** So can every installation task, with any outcome of its scripts ... */
  lemma TasksCanStep(s: State, id: nat, ok: bool)
    requires Reachable(s) && id in s.tasks
    ensures Enabled(s, TaskStep(id, ok))
  {
    ReachableIsSound(s);
    assert TaskOk(s.pkgs, s.tasks[id]);
  }

  /** ... and the updater and the status checker. */
  lemma LoopsCanStep(s: State, ok: bool, v: string)
    requires Reachable(s)
    ensures s.update != UIdle ==> Enabled(s, UpdateStep(ok, v))
    ensures s.update == UIdle ==> forall p :: Installed(s.pkgs, p) ==> Enabled(s, UpdatePick(p))
    ensures s.status != SIdle ==> Enabled(s, StatusStep(ok))
    ensures s.status == SIdle ==> forall p :: Installed(s.pkgs, p) ==> Enabled(s, StatusPick(p))
  {
    ReachableIsSound(s);
  }

  // ---- what reports lead to ----

  /** A reported version is stored; then an upgrade begins exactly if it is not the target, and happens once. */
  lemma UpgradesFollowVersions(s: State, ok: bool, v: string)
    requires Enabled(s, UpdateStep(ok, v))
    ensures var next := NextUpdate(s, ok, v).update;
      && (s.update.UChecked? ==> next == UVersion(s.update.pkg))
      && (s.update.USet? ==> next == UCompare(s.update.pkg, s.update.version))
      && (s.update.UBegin? ==> next == UUpgrade(s.update.pkg))
      && (s.update.UUpgrade? ==> next == UEnd(s.update.pkg))
      && (s.update.UEnd? ==> next == UIdle)
      && (s.update.UVersion? ==> next == if ok && v != "" then USet(s.update.pkg, v) else UIdle)
      && (s.update.UCompare? ==>
            next == if s.update.version == s.pkgs[s.update.pkg].target then UIdle else UBegin(s.update.pkg))
  {}

  /** A start follows an installation only if that succeeded; whatever happens, the task comes to its end. */
  lemma TasksFollowResults(s: State, id: nat, ok: bool)
    requires Enabled(s, TaskStep(id, ok))
    ensures var t, pc := NextTask(s, id, ok), s.tasks[id].pc;
      && (pc == TEnd <==> id !in t.tasks)
      && (pc == TBegin ==> t.tasks[id].pc == TInstall)
      && (pc == TInstall ==> t.tasks[id].pc == TInstalled(ok))
      && (pc == TInstalled(true) ==> t.tasks[id].pc == TStart)
      && (pc == TInstalled(false) || pc == TStart ==> t.tasks[id].pc == TEnd)
  {}

  /** A failed status check leads to a stop, and a successful stop to a start; a successful check to a healthy mark. */
  lemma RestartsFollowStatus(s: State, ok: bool)
    requires Enabled(s, StatusStep(ok))
    ensures var next := NextStatus(s, ok).status;
      && (s.status.SChecked? ==> next == SStatus(s.status.pkg))
      && (s.status.SSet? || s.status.SStart? ==> next == SIdle)
      && (s.status.SStatus? ==> next == if ok then SSet(s.status.pkg) else SStop(s.status.pkg))
      && (s.status.SStop? ==> next == if ok then SStart(s.status.pkg) else SIdle)
  {}

  /** A delete script runs only after needDelete succeeded, once. */
  lemma DeletesFollowNeed(s: State, ok: bool)
    requires Enabled(s, DeleteStep(ok))
    ensures var next := NextDelete(s, ok).delete;
      && (s.delete.DNeed? ==> next == if ok then DDelete(s.delete.pkg) else DIdle)
      && (s.delete.DDelete? ==> next == DIdle)
  {}

  lemma EffectKeepsTickers(s: State, e: Effect, id: nat)
    requires (e.Begins? ==> e.pkg in s.pkgs) && id in s.tickers
    ensures id in Apply(s, e).tickers
  {}

  /** A ticker runs until it is stopped: no other step ends it. */
  lemma TickersRunUntilStopped(s: State, a: Action, id: nat)
    requires Enabled(s, a) && id in s.tickers
    ensures id in Next(s, a).tickers <==> a != TickerStop(id)
  {
    if a.TaskStep? {
      EffectKeepsTickers(s, TaskEffect(s, s.tasks[a.id]), id);
    } else if a.UpdateStep? {
      EffectKeepsTickers(s, UpdateEffect(s), id);
    } else if a.StatusStep? {
      EffectKeepsTickers(s, StatusEffect(s, a.ok), id);
    } else if OfInstaller(a) {
      InstallerTickers(s, a);
    } else if !a.TickerStop? {
      QuietTickers(s, a);
    }
  }

  // ---- a run in which an equal version passes ----

  const NEEDS_A := PackageInfo("b", "b.sh", "1", 1, [Dependency("a", "1.0")])

  /** Package "a" is marked installed. */
  lemma AloneIsMarked() returns (s: State)
    ensures Reachable(s) && s.pkgs.Keys == {"a"} && Installed(s.pkgs, "a") && s.install == IIdle && s.update == UIdle
  {
    var found := AloneIsFound();
    StepReaches(found, InstallMark);
    s := NextInstall(found, InstallMark);
  }

  /** Its version script reports "1.0". */
  lemma AloneIsVersioned() returns (s: State)
    ensures Reachable(s) && s.pkgs.Keys == {"a"} && Installed(s.pkgs, "a") && s.install == IIdle
    ensures s.pkgs["a"].version == "1.0"
  {
    var s0 := AloneIsMarked();
    StepReaches(s0, UpdatePick("a"));
    var s1 := s0.(update := UChecked("a"));
    StepReaches(s1, UpdateStep(true, ""));
    var s2 := NextUpdate(s1, true, "");
    StepReaches(s2, UpdateStep(true, "1.0"));
    var s3 := NextUpdate(s2, true, "1.0");
    StepReaches(s3, UpdateStep(true, ""));
    s := NextUpdate(s3, true, "");
  }

  /** Package "b", which demands version "1.0" of "a", passes its gate. */
  lemma EqualVersionPasses() returns (s: State)
    ensures Reachable(s) && s.install == IGate("b", Gate(NEEDS_A.dependencies, ["1.0"]))
  {
    var s0 := AloneIsVersioned();
    StepReaches(s0, Reconcile(NEEDS_A));
    var s1 := NextReconcile(s0, NEEDS_A);
    StepReaches(s1, InstallPick("b"));
    var s2 := NextInstall(s1, InstallPick("b"));
    GateIsExact(s2);
    StepReaches(s2, InstallCheck);
    var s3 := NextInstall(s2, InstallCheck);
    StepReaches(s3, InstallPassed);
    s := NextInstall(s3, InstallPassed);
  }
}
