/**
  The package controller (pkg/gpud-manager/controllers/package_controller.go) as a step machine.
  Its goroutines read the shared status map without a lock, so the dependency gate, the
  "isInstalled" script and the marking are separate steps that any other step may interrupt.
 */
module PackageController {
  import opened Text

  /** One entry of a package's dependency list; version "*" accepts any version. */
  datatype Dependency = Dependency(name: string, version: string)

  datatype PackageInfo = PackageInfo(
    name: string, script: string, target: string, totalTime: int, dependencies: seq<Dependency>)

  datatype Package = Package(
    installed: bool, installing: bool, progress: int, healthy: bool, target: string, version: string,
    script: string, dependencies: seq<Dependency>, totalTime: int)

  /** The dependency list a range loop evaluated, and the versions its checks have read so far. */
  datatype Gate = Gate(deps: seq<Dependency>, read: seq<string>)

  const NO_GATE := Gate([], [])

  /** installRunner; ICheck is its range loop. */
  datatype InstallPC =
    | IIdle
    | ICheck(pkg: string, gate: Gate)
    | IGate(pkg: string, gate: Gate)
    | IProbe(pkg: string, gate: Gate)
    | IMark(pkg: string, gate: Gate)

  /** The goroutine that installRunner spawns for a package that is not installed. */
  datatype TaskPC = TBegin | TInstall | TInstalled(ok: bool) | TStart | TEnd
  datatype Task = Task(pkg: string, gate: Gate, pc: TaskPC)

  /** The progress ticker of one installation or upgrade. */
  datatype Ticker = Ticker(pkg: string, eta: int)

  datatype UpdatePC =
    | UIdle
    | UChecked(pkg: string)
    | UVersion(pkg: string)
    | USet(pkg: string, version: string)
    | UCompare(pkg: string, version: string)
    | UBegin(pkg: string)
    | UUpgrade(pkg: string)
    | UEnd(pkg: string)

  datatype StatusPC = SIdle | SChecked(pkg: string) | SStatus(pkg: string) | SSet(pkg: string) | SStop(pkg: string)
    | SStart(pkg: string)

  datatype DeletePC = DIdle | DNeed(pkg: string) | DDelete(pkg: string)

  datatype Script = IsInstalled | Install | Start | Version | Upgrade | Status | Stop | NeedDelete | Delete

  /** A script run: `marked` is how many packages had been marked installed, `gate` the list an install task passed. */
  datatype Launch = Launch(pkg: string, script: Script, gate: Gate, marked: nat)

  /** A package's first marking as installed, with the dependencies and versions its gate read. */
  datatype Mark = Mark(pkg: string, gate: Gate)

  type Packages = map<string, Package>

  datatype State = State(
    pkgs: Packages, install: InstallPC, tasks: map<nat, Task>, tickers: map<nat, Ticker>, nextId: nat,
    update: UpdatePC, status: StatusPC, delete: DeletePC, order: seq<Mark>, launches: seq<Launch>)

  datatype Action =
    | Reconcile(info: PackageInfo)
    | InstallPick(pkg: string)
    | InstallSkip
    | InstallCheck
    | InstallPassed
    | InstallGate
    | InstallProbe(ok: bool)
    | InstallMark
    | TaskStep(id: nat, ok: bool)
    | TickerWrite(id: nat, reading: Reading)
    | TickerStop(id: nat)
    | UpdatePick(pkg: string)
    | UpdateStep(ok: bool, reported: string)
    | StatusPick(pkg: string)
    | StatusStep(ok: bool)
    | DeletePick(pkg: string)
    | DeleteStep(ok: bool)

  function Init(): State {
    State(map[], IIdle, map[], map[], 0, UIdle, SIdle, DIdle, [], [])
  }

  function Ran(s: State, pkg: string, script: Script, gate: Gate): State {
    s.(launches := s.launches + [Launch(pkg, script, gate, |s.order|)])
  }

  function Set(s: State, pkg: string, p: Package): State {
    s.(pkgs := s.pkgs[pkg := p])
  }

  /** The range loop stands at a dependency. */
  predicate Checking(s: State) {
    s.install.ICheck? && |s.install.gate.read| < |s.install.gate.deps|
  }

  function Checked(s: State): Dependency
    requires Checking(s)
  {
    s.install.gate.deps[|s.install.gate.read|]
  }

  /** What the gate asks of one dependency (lines 166-180). */
  predicate Satisfied(s: State, d: Dependency) {
    && d.name in s.pkgs
    && s.pkgs[d.name].installed
    && (d.version != "*" ==> s.pkgs[d.name].version != "" && !Less(s.pkgs[d.name].version, d.version))
  }

  /** Go's conversion to an integer drops the fraction. */
  function Truncated(x: real): int {
    if x < 0.0 then 0 - (0.0 - x).Floor else x.Floor
  }

  /**
    One turn of a ticker: the nanoseconds since its start, the percentage as float64 arithmetic gives it, and what
    the platform makes of a float that no 64-bit integer can hold.
   */
  datatype Reading = Reading(elapsed: nat, ratio: real, junk: int)

  /** The float is within one part in 2^40 of the exact percentage. */
  predicate Rounds(r: Reading, eta: int)
    requires eta != 0
  {
    var exact := 100.0 * r.elapsed as real / eta as real;
    Magnitude(r.ratio - exact) * 1_099_511_627_776.0 <= Magnitude(exact)
  }

  function Magnitude(x: real): real {
    if x < 0.0 then 0.0 - x else x
  }

  /** What a ticker stores for an expected time `eta`; dividing by zero gives no number. */
  function TickerProgress(eta: int, r: Reading): (progress: int) {
    var p := if eta == 0 || !FitsInt64(Truncated(r.ratio)) then r.junk else Truncated(r.ratio);
    if p >= 100 then 98 else p
  }

  predicate Enabled(s: State, a: Action) {
    match a
    case Reconcile(_) => true
    case InstallPick(p) => s.install == IIdle && p in s.pkgs
    case InstallSkip => Checking(s) && !Satisfied(s, Checked(s))
    case InstallCheck => Checking(s) && Satisfied(s, Checked(s))
    case InstallPassed => s.install.ICheck? && |s.install.gate.read| == |s.install.gate.deps|
    case InstallGate => s.install.IGate? && s.install.pkg in s.pkgs
    case InstallProbe(_) => s.install.IProbe?
    case InstallMark => s.install.IMark? && s.install.pkg in s.pkgs
    case TaskStep(id, _) => id in s.tasks && s.tasks[id].pkg in s.pkgs
    case TickerWrite(id, r) =>
      id in s.tickers && s.tickers[id].pkg in s.pkgs && (s.tickers[id].eta != 0 ==> Rounds(r, s.tickers[id].eta))
    case TickerStop(id) => id in s.tickers
    case UpdatePick(p) => s.update == UIdle && p in s.pkgs && s.pkgs[p].installed
    case UpdateStep(_, _) => s.update != UIdle && s.update.pkg in s.pkgs
    case StatusPick(p) => s.status == SIdle && p in s.pkgs && s.pkgs[p].installed
    case StatusStep(_) => s.status != SIdle && s.status.pkg in s.pkgs
    case DeletePick(p) => s.delete == DIdle && p in s.pkgs
    case DeleteStep(_) => s.delete != DIdle
  }

  function NextReconcile(s: State, i: PackageInfo): State {
    var p := if i.name in s.pkgs then s.pkgs[i.name]
             else Package(false, false, 0, false, "", "", "", i.dependencies, i.totalTime);
    Set(s, i.name, p.(totalTime := i.totalTime, dependencies := i.dependencies, target := i.target, script := i.script))
  }

  /** One more version was read. */
  function Read(gate: Gate, version: string): Gate {
    gate.(read := gate.read + [version])
  }

  /** A step of installRunner. */
  predicate OfInstaller(a: Action) {
    || a.InstallPick? || a.InstallSkip? || a.InstallCheck? || a.InstallPassed?
    || a.InstallGate? || a.InstallProbe? || a.InstallMark?
  }

  function NextInstall(s: State, a: Action): State
    requires Enabled(s, a)
    requires OfInstaller(a)
  {
    match a
    case InstallPick(p) => s.(install := ICheck(p, Gate(s.pkgs[p].dependencies, [])))
    case InstallSkip => s.(install := IIdle)
    case InstallCheck =>
      s.(install := ICheck(s.install.pkg, Read(s.install.gate, s.pkgs[Checked(s).name].version)))
    case InstallPassed => s.(install := IGate(s.install.pkg, s.install.gate))
    case InstallGate =>
      if s.pkgs[s.install.pkg].installing then s.(install := IIdle)
      else Ran(s, s.install.pkg, IsInstalled, s.install.gate).(install := IProbe(s.install.pkg, s.install.gate))
    case InstallProbe(ok) =>
      if ok then s.(install := IMark(s.install.pkg, s.install.gate))
      else s.(install := IIdle, tasks := s.tasks[s.nextId := Task(s.install.pkg, s.install.gate, TBegin)],
        nextId := s.nextId + 1)
    case InstallMark =>
      var p := s.pkgs[s.install.pkg];
      Set(s, s.install.pkg, p.(progress := 100, installed := true))
        .(install := IIdle, order := if p.installed then s.order else s.order + [Mark(s.install.pkg, s.install.gate)])
  }

  /** Lock, set Installing and Progress, unlock, and spawn the ticker (lines 115-139 and 204-228). */
  function Begin(s: State, pkg: string): State
    requires pkg in s.pkgs
  {
    Set(s, pkg, s.pkgs[pkg].(installing := true, progress := 0))
      .(tickers := s.tickers[s.nextId := Ticker(pkg, s.pkgs[pkg].totalTime)], nextId := s.nextId + 1)
  }

  /** What one step of a script-running goroutine does to the shared state. */
  datatype Effect =
    | Nothing
    | Launches(pkg: string, script: Script, gate: Gate)
    | Writes(pkg: string, value: Package)
    | Begins(pkg: string, script: Script, gate: Gate)

  function Apply(s: State, e: Effect): State
    requires e.Begins? ==> e.pkg in s.pkgs
  {
    match e
    case Nothing => s
    case Launches(p, script, gate) => Ran(s, p, script, gate)
    case Writes(p, v) => Set(s, p, v)
    case Begins(p, script, gate) => Ran(Begin(s, p), p, script, gate)
  }

  function Ended(p: Package): Package {
    p.(installing := false, progress := 100)
  }

  function TaskEffect(s: State, t: Task): Effect
    requires t.pkg in s.pkgs
  {
    match t.pc
    case TBegin => Begins(t.pkg, Install, t.gate)
    case TInstalled(true) => Launches(t.pkg, Start, t.gate)
    case TEnd => Writes(t.pkg, Ended(s.pkgs[t.pkg]))
    case _ => Nothing
  }

  function TaskGoto(t: Task, ok: bool): TaskPC {
    match t.pc
    case TBegin => TInstall
    case TInstall => TInstalled(ok)
    case TInstalled(true) => TStart
    case _ => TEnd
  }

  function NextTask(s: State, id: nat, ok: bool): State
    requires Enabled(s, TaskStep(id, ok))
  {
    var t := s.tasks[id];
    Apply(s, TaskEffect(s, t)).(tasks := if t.pc == TEnd then s.tasks - {id}
      else s.tasks[id := t.(pc := TaskGoto(t, ok))])
  }

  function TickerEffect(s: State, id: nat, r: Reading): Effect
    requires id in s.tickers && s.tickers[id].pkg in s.pkgs
  {
    var t := s.tickers[id];
    Writes(t.pkg, s.pkgs[t.pkg].(progress := TickerProgress(t.eta, r)))
  }

  function UpdateEffect(s: State): Effect
    requires s.update != UIdle && s.update.pkg in s.pkgs
  {
    match s.update
    case UChecked(p) => Launches(p, Version, NO_GATE)
    case USet(p, v) => Writes(p, s.pkgs[p].(version := v))
    case UBegin(p) => Begins(p, Upgrade, NO_GATE)
    case UEnd(p) => Writes(p, Ended(s.pkgs[p]))
    case _ => Nothing
  }

  function UpdateGoto(s: State, ok: bool, reported: string): UpdatePC
    requires s.update != UIdle && s.update.pkg in s.pkgs
  {
    match s.update
    case UChecked(p) => UVersion(p)
    case UVersion(p) => if !ok || reported == "" then UIdle else USet(p, reported)
    case USet(p, v) => UCompare(p, v)
    case UCompare(p, v) => if v == s.pkgs[p].target then UIdle else UBegin(p)
    case UBegin(p) => UUpgrade(p)
    case UUpgrade(p) => UEnd(p)
    case UEnd(_) => UIdle
  }

  function NextUpdate(s: State, ok: bool, reported: string): State
    requires Enabled(s, UpdateStep(ok, reported))
  {
    Apply(s, UpdateEffect(s)).(update := UpdateGoto(s, ok, reported))
  }

  function StatusEffect(s: State, ok: bool): Effect
    requires s.status != SIdle && s.status.pkg in s.pkgs
  {
    match s.status
    case SChecked(p) => Launches(p, Status, NO_GATE)
    case SStatus(p) => if ok then Nothing else Launches(p, Stop, NO_GATE)
    case SSet(p) => Writes(p, s.pkgs[p].(healthy := true))
    case SStop(p) => if ok then Launches(p, Start, NO_GATE) else Nothing
    case SStart(_) => Nothing
  }

  function StatusGoto(pc: StatusPC, ok: bool): StatusPC {
    match pc
    case SChecked(p) => SStatus(p)
    case SStatus(p) => if ok then SSet(p) else SStop(p)
    case SStop(p) => if ok then SStart(p) else SIdle
    case _ => SIdle
  }

  function NextStatus(s: State, ok: bool): State
    requires Enabled(s, StatusStep(ok))
  {
    Apply(s, StatusEffect(s, ok)).(status := StatusGoto(s.status, ok))
  }

  function NextDelete(s: State, ok: bool): State
    requires Enabled(s, DeleteStep(ok))
  {
    match s.delete
    case DNeed(p) => if ok then Apply(s, Launches(p, Delete, NO_GATE)).(delete := DDelete(p)) else s.(delete := DIdle)
    case DDelete(p) => s.(delete := DIdle)
  }

  function Next(s: State, a: Action): State
    requires Enabled(s, a)
  {
    match a
    case Reconcile(i) => NextReconcile(s, i)
    case TaskStep(id, ok) => NextTask(s, id, ok)
    case TickerWrite(id, r) => Apply(s, TickerEffect(s, id, r))
    case TickerStop(id) => s.(tickers := s.tickers - {id})
    case UpdatePick(p) => s.(update := UChecked(p))
    case UpdateStep(ok, v) => NextUpdate(s, ok, v)
    case StatusPick(p) => s.(status := SChecked(p))
    case StatusStep(ok) => NextStatus(s, ok)
    case DeletePick(p) => Apply(s, Launches(p, NeedDelete, NO_GATE)).(delete := DNeed(p))
    case DeleteStep(ok) => NextDelete(s, ok)
    case _ => NextInstall(s, a)
  }

  datatype Outcome = Blocked | Reached(state: State)

  function Exec(schedule: seq<Action>): Outcome {
    if schedule == [] then Reached(Init()) else
    var before := Exec(schedule[..|schedule| - 1]);
    var a := schedule[|schedule| - 1];
    if before.Blocked? || !Enabled(before.state, a) then Blocked else Reached(Next(before.state, a))
  }

  // ---- what every step keeps ----

  predicate Installed(pkgs: Packages, pkg: string) {
    pkg in pkgs && pkgs[pkg].installed
  }

  /** The lasting part of a passed gate: versions may change later, but never back to unknown. */
  ghost predicate Gated(pkgs: Packages, gate: seq<Dependency>) {
    forall d :: d in gate ==> Installed(pkgs, d.name) && (d.version != "*" ==> pkgs[d.name].version != "")
  }

  /** Packages are never forgotten, never become uninstalled and never lose a known version. */
  ghost predicate Grows(before: Packages, after: Packages) {
    forall p :: p in before ==>
      && p in after
      && (before[p].installed ==> after[p].installed)
      && (before[p].version != "" ==> after[p].version != "")
  }

  ghost predicate SameInstalled(before: Packages, after: Packages) {
    forall p :: Installed(after, p) <==> Installed(before, p)
  }

  ghost predicate InOrder(order: seq<Mark>, pkg: string) {
    exists i :: 0 <= i < |order| && order[i].pkg == pkg
  }

  ghost predicate AllInOrder(order: seq<Mark>, gate: seq<Dependency>) {
    forall d :: d in gate ==> InOrder(order, d.name)
  }

  /** No package is marked twice, and each is marked after everything its gate list names. */
  ghost predicate Topological(order: seq<Mark>) {
    && (forall i, j :: 0 <= i < j < |order| ==> order[i].pkg != order[j].pkg)
    && (forall i :: 0 <= i < |order| ==> AllInOrder(order[..i], order[i].gate.deps))
  }

  ghost predicate NeedsInstalled(script: Script) {
    script == Version || script == Upgrade || script == Status || script == Stop
  }

  ghost predicate LaunchOk(order: seq<Mark>, l: Launch) {
    && l.marked <= |order|
    && AllInOrder(order[..l.marked], l.gate.deps)
    && (NeedsInstalled(l.script) ==> InOrder(order[..l.marked], l.pkg))
  }

  ghost predicate InstallOk(pkgs: Packages, pc: InstallPC) {
    match pc
    case IIdle => true
    case ICheck(p, gate) => p in pkgs && |gate.read| <= |gate.deps| && Gated(pkgs, gate.deps[..|gate.read|])
    case _ => pc.pkg in pkgs && Gated(pkgs, pc.gate.deps)
  }

  ghost predicate TaskOk(pkgs: Packages, t: Task) {
    t.pkg in pkgs && Gated(pkgs, t.gate.deps)
  }

  ghost predicate UpdateOk(pkgs: Packages, pc: UpdatePC) {
    && (pc != UIdle ==> Installed(pkgs, pc.pkg))
    && (pc.USet? ==> pc.version != "")
  }

  ghost predicate StatusOk(pkgs: Packages, pc: StatusPC) {
    pc != SIdle ==> Installed(pkgs, pc.pkg)
  }

  ghost predicate TasksOk(pkgs: Packages, tasks: map<nat, Task>) {
    forall id :: id in tasks ==> TaskOk(pkgs, tasks[id])
  }

  ghost predicate TickersOk(pkgs: Packages, tickers: map<nat, Ticker>) {
    forall id :: id in tickers ==> tickers[id].pkg in pkgs
  }

  ghost predicate PCsOk(s: State) {
    && InstallOk(s.pkgs, s.install)
    && TasksOk(s.pkgs, s.tasks)
    && TickersOk(s.pkgs, s.tickers)
    && UpdateOk(s.pkgs, s.update)
    && StatusOk(s.pkgs, s.status)
  }

  /** The installed packages are exactly the marked ones. */
  ghost predicate Linked(pkgs: Packages, order: seq<Mark>) {
    forall p :: Installed(pkgs, p) <==> InOrder(order, p)
  }

  ghost predicate MarksGated(pkgs: Packages, order: seq<Mark>) {
    forall i :: 0 <= i < |order| ==> Gated(pkgs, order[i].gate.deps)
  }

  ghost predicate LaunchesOk(order: seq<Mark>, launches: seq<Launch>) {
    forall i :: 0 <= i < |launches| ==> LaunchOk(order, launches[i])
  }

  ghost predicate Inv(s: State) {
    && PCsOk(s)
    && Topological(s.order)
    && Linked(s.pkgs, s.order)
    && MarksGated(s.pkgs, s.order)
    && LaunchesOk(s.order, s.launches)
  }

  /** What the goroutines rely on survives every step of the others. */
  lemma PCsLast(s: State, after: Packages)
    requires PCsOk(s) && Grows(s.pkgs, after)
    ensures InstallOk(after, s.install) && UpdateOk(after, s.update) && StatusOk(after, s.status)
    ensures TasksOk(after, s.tasks) && TickersOk(after, s.tickers)
  {
  }

  lemma OrderOnlyGrows(before: seq<Mark>, after: seq<Mark>, launches: seq<Launch>)
    requires before <= after && LaunchesOk(before, launches)
    ensures LaunchesOk(after, launches)
  {
    forall i | 0 <= i < |launches|
      ensures LaunchOk(after, launches[i])
    {
      var m := launches[i].marked;
      assert LaunchOk(before, launches[i]);
      assert after[..m] == before[..m];
    }
  }

  lemma InOrderAppend(order: seq<Mark>, m: Mark, pkg: string)
    ensures InOrder(order + [m], pkg) <==> InOrder(order, pkg) || m.pkg == pkg
  {
    var o := order + [m];
    if InOrder(order, pkg) {
      var i :| 0 <= i < |order| && order[i].pkg == pkg;
      assert o[i].pkg == pkg;
    }
    assert o[|order|] == m;
  }

  lemma MarkedIsTopological(order: seq<Mark>, pkgs: Packages, m: Mark)
    requires Topological(order) && Linked(pkgs, order) && Gated(pkgs, m.gate.deps) && !Installed(pkgs, m.pkg)
    ensures Topological(order + [m])
  {
    var o := order + [m];
    forall i | 0 <= i < |o|
      ensures AllInOrder(o[..i], o[i].gate.deps)
    {
      assert o[..i] == order[..i];
      if i == |order| {
        assert order[..i] == order;
      }
    }
    forall i | 0 <= i < |order|
      ensures order[i].pkg != m.pkg
    {
      assert InOrder(order, order[i].pkg);
    }
  }

  lemma MarkedIsLinked(s: State)
    requires Linked(s.pkgs, s.order) && Enabled(s, InstallMark)
    ensures var t := NextInstall(s, InstallMark); Linked(t.pkgs, t.order)
  {
    var t := NextInstall(s, InstallMark);
    forall p ensures Installed(t.pkgs, p) <==> InOrder(t.order, p) {
      InOrderAppend(s.order, Mark(s.install.pkg, s.install.gate), p);
      assert Installed(s.pkgs, p) <==> InOrder(s.order, p);
      assert Installed(s.pkgs, s.install.pkg) <==> InOrder(s.order, s.install.pkg);
    }
  }

  lemma MarkGrows(s: State)
    requires PCsOk(s) && Enabled(s, InstallMark)
    ensures Grows(s.pkgs, NextInstall(s, InstallMark).pkgs) && PCsOk(NextInstall(s, InstallMark))
  {
    PCsLast(s, NextInstall(s, InstallMark).pkgs);
  }

  lemma MarksStayGated(before: Packages, after: Packages, order: seq<Mark>)
    requires MarksGated(before, order) && Grows(before, after)
    ensures MarksGated(after, order)
  {
  }

  lemma MarkKeepsInv(s: State)
    requires Inv(s) && Enabled(s, InstallMark)
    ensures Inv(NextInstall(s, InstallMark)) && Grows(s.pkgs, NextInstall(s, InstallMark).pkgs)
  {
    var t := NextInstall(s, InstallMark);
    var m := Mark(s.install.pkg, s.install.gate);
    MarkGrows(s);
    MarkedIsLinked(s);
    MarksStayGated(s.pkgs, t.pkgs, s.order);
    MarksStayGated(s.pkgs, t.pkgs, [m]);
    if !s.pkgs[m.pkg].installed {
      MarkedIsTopological(s.order, s.pkgs, m);
    }
    OrderOnlyGrows(s.order, t.order, s.launches);
  }

  /** What a step other than a marking does to the histories: at most one lawful launch. */
  ghost predicate Advances(s: State, t: State) {
    && Grows(s.pkgs, t.pkgs)
    && SameInstalled(s.pkgs, t.pkgs)
    && t.order == s.order
    && OneLaunch(s.order, s.launches, t.launches)
  }

  ghost predicate OneLaunch(order: seq<Mark>, before: seq<Launch>, after: seq<Launch>) {
    before == after || exists l :: after == before + [l] && LaunchOk(order, l)
  }

  ghost predicate MayLaunch(pkgs: Packages, pkg: string, script: Script, gate: Gate) {
    Gated(pkgs, gate.deps) && (NeedsInstalled(script) ==> Installed(pkgs, pkg))
  }

  ghost predicate Lawful(s: State, e: Effect) {
    match e
    case Nothing => true
    case Launches(p, script, gate) => MayLaunch(s.pkgs, p, script, gate)
    case Begins(p, script, gate) => p in s.pkgs && MayLaunch(s.pkgs, p, script, gate)
    case Writes(p, v) =>
      p in s.pkgs && v.installed == s.pkgs[p].installed && v.dependencies == s.pkgs[p].dependencies &&
      (s.pkgs[p].version != "" ==> v.version != "")
  }

  lemma LawfulLaunch(s: State, pkg: string, script: Script, gate: Gate)
    requires Linked(s.pkgs, s.order) && MayLaunch(s.pkgs, pkg, script, gate)
    ensures LaunchOk(s.order, Launch(pkg, script, gate, |s.order|))
  {
    assert s.order[..|s.order|] == s.order;
    forall d | d in gate.deps ensures InOrder(s.order, d.name) {
      assert Installed(s.pkgs, d.name);
    }
    if NeedsInstalled(script) {
      assert Installed(s.pkgs, pkg) && InOrder(s.order, pkg);
    }
  }

  lemma EffectGrows(s: State, e: Effect)
    requires Lawful(s, e)
    ensures Grows(s.pkgs, Apply(s, e).pkgs) && SameInstalled(s.pkgs, Apply(s, e).pkgs)
  {
  }

  lemma EffectAdvances(s: State, e: Effect)
    requires PCsOk(s) && Linked(s.pkgs, s.order) && Lawful(s, e)
    ensures Advances(s, Apply(s, e)) && PCsOk(Apply(s, e))
  {
    var t := Apply(s, e);
    EffectGrows(s, e);
    PCsLast(s, t.pkgs);
    if e.Launches? || e.Begins? {
      LawfulLaunch(s, e.pkg, e.script, e.gate);
      assert t.launches == s.launches + [Launch(e.pkg, e.script, e.gate, |s.order|)];
    }
  }

  lemma ReconcileAdvances(s: State, i: PackageInfo)
    requires PCsOk(s) && Linked(s.pkgs, s.order)
    ensures Advances(s, NextReconcile(s, i)) && PCsOk(NextReconcile(s, i))
  {
    PCsLast(s, NextReconcile(s, i).pkgs);
  }

  lemma InstallScanAdvances(s: State, a: Action)
    requires PCsOk(s) && Linked(s.pkgs, s.order) && Enabled(s, a)
    requires a.InstallPick? || a.InstallSkip? || a.InstallCheck? || a.InstallPassed?
    ensures Advances(s, NextInstall(s, a)) && PCsOk(NextInstall(s, a))
  {
    var t := NextInstall(s, a);
    PCsLast(s, t.pkgs);
    if a == InstallCheck {
      var deps, k := s.install.gate.deps, |s.install.gate.read|;
      assert deps[..k + 1] == deps[..k] + [deps[k]];
    } else if a == InstallPassed {
      assert s.install.gate.deps[..|s.install.gate.read|] == s.install.gate.deps;
    }
  }

  lemma InstallProbeAdvances(s: State, ok: bool)
    requires PCsOk(s) && Linked(s.pkgs, s.order) && Enabled(s, InstallProbe(ok))
    ensures Advances(s, NextInstall(s, InstallProbe(ok))) && PCsOk(NextInstall(s, InstallProbe(ok)))
  {
  }

  lemma InstallGateAdvances(s: State)
    requires PCsOk(s) && Linked(s.pkgs, s.order) && Enabled(s, InstallGate)
    ensures Advances(s, NextInstall(s, InstallGate)) && PCsOk(NextInstall(s, InstallGate))
  {
    LawfulLaunch(s, s.install.pkg, IsInstalled, s.install.gate);
  }

  lemma TaskAdvances(s: State, id: nat, ok: bool)
    requires PCsOk(s) && Linked(s.pkgs, s.order) && Enabled(s, TaskStep(id, ok))
    ensures Advances(s, NextTask(s, id, ok)) && PCsOk(NextTask(s, id, ok))
  {
    var t := s.tasks[id];
    assert TaskOk(s.pkgs, t);
    EffectAdvances(s, TaskEffect(s, t));
  }

  lemma UpdateAdvances(s: State, ok: bool, v: string)
    requires PCsOk(s) && Linked(s.pkgs, s.order) && Enabled(s, UpdateStep(ok, v))
    ensures Advances(s, NextUpdate(s, ok, v)) && PCsOk(NextUpdate(s, ok, v))
  {
    EffectAdvances(s, UpdateEffect(s));
    assert UpdateOk(s.pkgs, UpdateGoto(s, ok, v));
  }

  lemma StatusAdvances(s: State, ok: bool)
    requires PCsOk(s) && Linked(s.pkgs, s.order) && Enabled(s, StatusStep(ok))
    ensures Advances(s, NextStatus(s, ok)) && PCsOk(NextStatus(s, ok))
  {
    EffectAdvances(s, StatusEffect(s, ok));
    assert StatusOk(s.pkgs, StatusGoto(s.status, ok));
  }

  lemma PickAdvances(s: State, a: Action)
    requires PCsOk(s) && Linked(s.pkgs, s.order) && Enabled(s, a) && (a.TickerStop? || a.UpdatePick? || a.StatusPick?)
    ensures Advances(s, Next(s, a)) && PCsOk(Next(s, a))
  {
  }

  lemma TickAdvances(s: State, id: nat, r: Reading)
    requires PCsOk(s) && Linked(s.pkgs, s.order) && Enabled(s, TickerWrite(id, r))
    ensures var t := Next(s, TickerWrite(id, r)); Advances(s, t) && PCsOk(t)
  {
    EffectAdvances(s, TickerEffect(s, id, r));
  }

  lemma DeleteAdvances(s: State, a: Action)
    requires PCsOk(s) && Linked(s.pkgs, s.order) && Enabled(s, a) && (a.DeletePick? || a.DeleteStep?)
    ensures Advances(s, Next(s, a)) && PCsOk(Next(s, a))
  {
    EffectAdvances(s, if a.DeletePick? then Launches(a.pkg, NeedDelete, NO_GATE)
      else Launches(s.delete.pkg, Delete, NO_GATE));
  }

  lemma ScriptAdvances(s: State, a: Action)
    requires PCsOk(s) && Linked(s.pkgs, s.order) && Enabled(s, a) && (a.TaskStep? || a.UpdateStep? || a.StatusStep?)
    ensures Advances(s, Next(s, a)) && PCsOk(Next(s, a))
  {
    match a
    case TaskStep(id, ok) => TaskAdvances(s, id, ok);
    case UpdateStep(ok, v) => UpdateAdvances(s, ok, v);
    case StatusStep(ok) => StatusAdvances(s, ok);
  }

  lemma InstallAdvances(s: State, a: Action)
    requires PCsOk(s) && Linked(s.pkgs, s.order) && Enabled(s, a) && OfInstaller(a) && !a.InstallMark?
    ensures Advances(s, Next(s, a)) && PCsOk(Next(s, a))
  {
    if a.InstallGate? {
      InstallGateAdvances(s);
    } else if a.InstallProbe? {
      InstallProbeAdvances(s, a.ok);
    } else {
      InstallScanAdvances(s, a);
    }
  }

  lemma StepAdvances(s: State, a: Action)
    requires PCsOk(s) && Linked(s.pkgs, s.order) && Enabled(s, a) && !a.InstallMark?
    ensures Advances(s, Next(s, a)) && PCsOk(Next(s, a))
  {
    if OfInstaller(a) {
      InstallAdvances(s, a);
    } else if a.Reconcile? {
      ReconcileAdvances(s, a.info);
    } else if a.TickerWrite? {
      TickAdvances(s, a.id, a.reading);
    } else if a.TickerStop? || a.UpdatePick? || a.StatusPick? {
      PickAdvances(s, a);
    } else if a.DeletePick? || a.DeleteStep? {
      DeleteAdvances(s, a);
    } else {
      ScriptAdvances(s, a);
    }
  }

  lemma AdvanceKeepsInv(s: State, t: State)
    requires Inv(s) && Advances(s, t) && PCsOk(t)
    ensures Inv(t)
  {
    MarksStayGated(s.pkgs, t.pkgs, s.order);
    assert Linked(t.pkgs, t.order);
  }

  lemma StepKeepsInv(s: State, a: Action)
    requires Inv(s) && Enabled(s, a)
    ensures Inv(Next(s, a)) && Grows(s.pkgs, Next(s, a).pkgs)
  {
    if a == InstallMark {
      MarkKeepsInv(s);
    } else {
      StepAdvances(s, a);
      AdvanceKeepsInv(s, Next(s, a));
    }
  }

  lemma {:induction false} EveryRunIsSound(schedule: seq<Action>)
    requires Exec(schedule).Reached?
    ensures Inv(Exec(schedule).state)
  {
    if schedule != [] {
      var n := |schedule| - 1;
      EveryRunIsSound(schedule[..n]);
      StepKeepsInv(Exec(schedule[..n]).state, schedule[n]);
    }
  }

  ghost predicate Reachable(s: State) {
    exists schedule :: Exec(schedule) == Reached(s)
  }

  lemma StepReaches(s: State, a: Action)
    requires Reachable(s) && Enabled(s, a)
    ensures Reachable(Next(s, a))
  {
    var schedule :| Exec(schedule) == Reached(s);
    assert (schedule + [a])[..|schedule + [a]| - 1] == schedule;
    assert Exec(schedule + [a]) == Reached(Next(s, a));
  }

  // ---- main results, for any announcements ----

  /**
    Packages become installed in an order in which each comes after everything its gate read, and the
    installed set is exactly what was marked.
   */
  lemma InstalledInTopologicalOrder(s: State)
    requires Reachable(s)
    ensures Topological(s.order)
    ensures forall p :: Installed(s.pkgs, p) <==> InOrder(s.order, p)
  {
    var schedule :| Exec(schedule) == Reached(s);
    EveryRunIsSound(schedule);
  }

  /** Every dependency a marked package was gated on is installed now, with a known version if one was demanded. */
  lemma MarkedPackagesStayGated(s: State, i: nat)
    requires Reachable(s) && i < |s.order|
    ensures Gated(s.pkgs, s.order[i].gate.deps)
  {
    var schedule :| Exec(schedule) == Reached(s);
    EveryRunIsSound(schedule);
  }

  lemma {:induction false} InstalledNeverShrinks(schedule: seq<Action>, more: seq<Action>, p: string)
    requires Exec(schedule + more).Reached?
    ensures Exec(schedule).Reached?
    ensures Installed(Exec(schedule).state.pkgs, p) ==> Installed(Exec(schedule + more).state.pkgs, p)
    decreases |more|
  {
    if more == [] {
      assert schedule + more == schedule;
    } else {
      var n := |more| - 1;
      assert (schedule + more)[..|schedule + more| - 1] == schedule + more[..n];
      InstalledNeverShrinks(schedule, more[..n], p);
      EveryRunIsSound(schedule + more[..n]);
      StepKeepsInv(Exec(schedule + more[..n]).state, more[n]);
    }
  }

  /** version, upgrade, status and stop scripts were launched only on packages already marked by then. */
  lemma ScriptsOnlyOnInstalled(s: State, i: nat)
    requires Reachable(s) && i < |s.launches| && NeedsInstalled(s.launches[i].script)
    ensures s.launches[i].marked <= |s.order| && InOrder(s.order[..s.launches[i].marked], s.launches[i].pkg)
    ensures Installed(s.pkgs, s.launches[i].pkg)
  {
    var schedule :| Exec(schedule) == Reached(s);
    EveryRunIsSound(schedule);
    var l := s.launches[i];
    assert LaunchOk(s.order, l);
    var k :| 0 <= k < l.marked && s.order[..l.marked][k].pkg == l.pkg;
    assert s.order[k].pkg == l.pkg;
    assert InOrder(s.order, l.pkg);
  }

  // ---- main results, when no package changes its dependency list ----

  type Graph = map<string, seq<Dependency>>

  ghost predicate Announces(schedule: seq<Action>, g: Graph) {
    forall i :: 0 <= i < |schedule| && schedule[i].Reconcile? ==>
      schedule[i].info.name in g && g[schedule[i].info.name] == schedule[i].info.dependencies
  }

  ghost predicate FromGraph(g: Graph, pkg: string, gate: seq<Dependency>) {
    pkg in g && g[pkg] == gate
  }

  ghost predicate PackagesFollow(pkgs: Packages, g: Graph) {
    forall p :: p in pkgs ==> FromGraph(g, p, pkgs[p].dependencies)
  }

  ghost predicate TasksFollow(tasks: map<nat, Task>, g: Graph) {
    forall id :: id in tasks ==> FromGraph(g, tasks[id].pkg, tasks[id].gate.deps)
  }

  ghost predicate MarksFollow(order: seq<Mark>, g: Graph) {
    forall i :: 0 <= i < |order| ==> FromGraph(g, order[i].pkg, order[i].gate.deps)
  }

  ghost predicate LaunchesFollow(launches: seq<Launch>, g: Graph) {
    forall i :: 0 <= i < |launches| && launches[i].script == Install ==>
      FromGraph(g, launches[i].pkg, launches[i].gate.deps)
  }

  ghost predicate Follows(s: State, g: Graph) {
    && PackagesFollow(s.pkgs, g)
    && (s.install.IIdle? || FromGraph(g, s.install.pkg, s.install.gate.deps))
    && TasksFollow(s.tasks, g)
    && MarksFollow(s.order, g)
    && LaunchesFollow(s.launches, g)
  }

  lemma EffectFollows(s: State, e: Effect, g: Graph)
    requires Follows(s, g) && Lawful(s, e)
    requires (e.Launches? || e.Begins?) && e.script == Install ==> FromGraph(g, e.pkg, e.gate.deps)
    ensures Follows(Apply(s, e), g)
  {
  }

  lemma InstallFollows(s: State, a: Action, g: Graph)
    requires Follows(s, g) && Enabled(s, a) && OfInstaller(a)
    ensures Follows(NextInstall(s, a), g)
  {
    var t := NextInstall(s, a);
    if a.InstallMark? {
      MarkFollows(s, g);
    } else {
      assert t.pkgs == s.pkgs && t.order == s.order;
    }
  }

  lemma MarkFollows(s: State, g: Graph)
    requires Follows(s, g) && Enabled(s, InstallMark)
    ensures Follows(NextInstall(s, InstallMark), g)
  {
  }

  lemma TaskFollows(s: State, id: nat, ok: bool, g: Graph)
    requires Follows(s, g) && Enabled(s, TaskStep(id, ok)) && PCsOk(s)
    ensures Follows(Next(s, TaskStep(id, ok)), g)
  {
    assert TaskOk(s.pkgs, s.tasks[id]) && FromGraph(g, s.tasks[id].pkg, s.tasks[id].gate.deps);
    var effect := TaskEffect(s, s.tasks[id]);
    TaskEffectIsLawful(s, s.tasks[id]);
    EffectFollows(s, effect, g);
    EffectKeepsTasks(s, effect);
    TasksMove(Apply(s, effect), NextTask(s, id, ok), id, g);
  }

  lemma TaskEffectIsLawful(s: State, t: Task)
    requires t.pkg in s.pkgs && TaskOk(s.pkgs, t)
    ensures var e := TaskEffect(s, t);
      Lawful(s, e) && ((e.Launches? || e.Begins?) && e.script == Install ==> e.pkg == t.pkg && e.gate == t.gate)
  {
  }

  lemma EffectKeepsTasks(s: State, e: Effect)
    requires e.Begins? ==> e.pkg in s.pkgs
    ensures Apply(s, e).tasks == s.tasks
  {
  }

  /** One task moves on or ends. */
  lemma TasksMove(s: State, t: State, id: nat, g: Graph)
    requires Follows(s, g) && id in s.tasks && t == s.(tasks := t.tasks)
    requires t.tasks == s.tasks - {id} || exists pc :: t.tasks == s.tasks[id := s.tasks[id].(pc := pc)]
    ensures Follows(t, g)
  {
  }

  lemma TickFollows(s: State, id: nat, r: Reading, g: Graph)
    requires Follows(s, g) && Enabled(s, TickerWrite(id, r))
    ensures Follows(Next(s, TickerWrite(id, r)), g)
  {
    EffectFollows(s, TickerEffect(s, id, r), g);
  }

  lemma UpdateFollows(s: State, ok: bool, v: string, g: Graph)
    requires Follows(s, g) && Enabled(s, UpdateStep(ok, v)) && PCsOk(s)
    ensures Follows(Next(s, UpdateStep(ok, v)), g)
  {
    EffectFollows(s, UpdateEffect(s), g);
  }

  lemma StatusFollows(s: State, ok: bool, g: Graph)
    requires Follows(s, g) && Enabled(s, StatusStep(ok)) && PCsOk(s)
    ensures Follows(Next(s, StatusStep(ok)), g)
  {
    EffectFollows(s, StatusEffect(s, ok), g);
  }

  lemma DeleteFollows(s: State, ok: bool, g: Graph)
    requires Follows(s, g) && Enabled(s, DeleteStep(ok))
    ensures Follows(Next(s, DeleteStep(ok)), g)
  {
    EffectFollows(s, Launches(s.delete.pkg, Delete, NO_GATE), g);
  }

  /** Only the program counter of a goroutine that is not the installer, or a ticker, moved. */
  lemma QuietFollows(s: State, t: State, g: Graph)
    requires Follows(s, g)
    requires t.pkgs == s.pkgs && t.install == s.install && t.tasks == s.tasks
    requires t.order == s.order && t.launches == s.launches
    ensures Follows(t, g)
  {
  }

  lemma PickFollows(s: State, a: Action, g: Graph)
    requires Follows(s, g) && Enabled(s, a) && (a.TickerStop? || a.UpdatePick? || a.StatusPick?)
    ensures Follows(Next(s, a), g)
  {
    QuietFollows(s, Next(s, a), g);
  }

  lemma DeletePickFollows(s: State, p: string, g: Graph)
    requires Follows(s, g) && Enabled(s, DeletePick(p))
    ensures Follows(Next(s, DeletePick(p)), g)
  {
    EffectFollows(s, Launches(p, NeedDelete, NO_GATE), g);
  }

  lemma ReconcileFollows(s: State, i: PackageInfo, g: Graph)
    requires Follows(s, g) && FromGraph(g, i.name, i.dependencies)
    ensures Follows(Next(s, Reconcile(i)), g)
  {
  }

  lemma InstallStepFollows(s: State, a: Action, g: Graph)
    requires Follows(s, g) && Enabled(s, a) && OfInstaller(a)
    ensures Follows(Next(s, a), g)
  {
    InstallFollows(s, a, g);
  }

  lemma StepFollows(s: State, a: Action, g: Graph)
    requires Follows(s, g) && Enabled(s, a) && PCsOk(s)
    requires a.Reconcile? ==> FromGraph(g, a.info.name, a.info.dependencies)
    ensures Follows(Next(s, a), g)
  {
    if OfInstaller(a) {
      InstallStepFollows(s, a, g);
    } else if a.Reconcile? {
      ReconcileFollows(s, a.info, g);
    } else if a.TickerWrite? {
      TickFollows(s, a.id, a.reading, g);
    } else if a.TickerStop? || a.UpdatePick? || a.StatusPick? {
      PickFollows(s, a, g);
    } else if a.DeletePick? {
      DeletePickFollows(s, a.pkg, g);
    } else if a.TaskStep? {
      TaskFollows(s, a.id, a.ok, g);
    } else if a.UpdateStep? {
      UpdateFollows(s, a.ok, a.reported, g);
    } else if a.StatusStep? {
      StatusFollows(s, a.ok, g);
    } else {
      DeleteFollows(s, a.ok, g);
    }
  }

  lemma {:induction false} RunFollows(schedule: seq<Action>, g: Graph)
    requires Announces(schedule, g) && Exec(schedule).Reached?
    ensures Follows(Exec(schedule).state, g)
  {
    if schedule != [] {
      var n := |schedule| - 1;
      RunFollows(schedule[..n], g);
      EveryRunIsSound(schedule[..n]);
      StepFollows(Exec(schedule[..n]).state, schedule[n], g);
    }
  }

  ghost predicate DependsOn(g: Graph, p: string, q: string) {
    p in g && exists d :: d in g[p] && d.name == q
  }

  ghost predicate IsCycle(g: Graph, path: seq<string>) {
    && |path| >= 2
    && path[0] == path[|path| - 1]
    && forall i :: 0 <= i < |path| - 1 ==> DependsOn(g, path[i], path[i + 1])
  }

  ghost predicate OnCycle(g: Graph, p: string) {
    exists path :: IsCycle(g, path) && path[0] == p
  }

  /** Following dependencies leads strictly down in a topological order. */
  lemma {:induction false} Descends(order: seq<Mark>, g: Graph, path: seq<string>, i: nat, k: nat) returns (j: nat)
    requires Topological(order)
    requires forall m :: 0 <= m < |order| ==> FromGraph(g, order[m].pkg, order[m].gate.deps)
    requires IsCycle(g, path) && k < |path|
    requires i < |order| && order[i].pkg == path[0]
    ensures j + k <= i && order[j].pkg == path[k]
  {
    if k == 0 {
      j := i;
    } else {
      var m := Descends(order, g, path, i, k - 1);
      assert FromGraph(g, order[m].pkg, order[m].gate.deps);
      assert DependsOn(g, path[k - 1], path[k]);
      var d :| d in g[path[k - 1]] && d.name == path[k];
      assert AllInOrder(order[..m], order[m].gate.deps);
      assert InOrder(order[..m], d.name);
      j :| 0 <= j < m && order[..m][j].pkg == path[k];
    }
  }

  /** Packages become installed in a topological order of the announced graph. */
  lemma InstalledInGraphOrder(schedule: seq<Action>, g: Graph, i: nat, q: string)
    requires Announces(schedule, g) && Exec(schedule).Reached? && i < |Exec(schedule).state.order|
    requires DependsOn(g, Exec(schedule).state.order[i].pkg, q)
    ensures InOrder(Exec(schedule).state.order[..i], q)
  {
    var order := Exec(schedule).state.order;
    EveryRunIsSound(schedule);
    RunFollows(schedule, g);
    assert FromGraph(g, order[i].pkg, order[i].gate.deps);
    assert AllInOrder(order[..i], order[i].gate.deps);
  }

  /** The installed set is dependency-closed. */
  lemma InstalledSetIsClosed(schedule: seq<Action>, g: Graph, p: string)
    requires Announces(schedule, g) && Exec(schedule).Reached? && Installed(Exec(schedule).state.pkgs, p)
    ensures p in g && Gated(Exec(schedule).state.pkgs, g[p])
  {
    var s := Exec(schedule).state;
    EveryRunIsSound(schedule);
    RunFollows(schedule, g);
    assert InOrder(s.order, p);
    var i :| 0 <= i < |s.order| && s.order[i].pkg == p;
    assert FromGraph(g, s.order[i].pkg, s.order[i].gate.deps);
    assert Gated(s.pkgs, s.order[i].gate.deps);
  }

  /** No package on a dependency cycle is ever marked installed. */
  lemma CycleNeverInstalled(schedule: seq<Action>, g: Graph, p: string)
    requires Announces(schedule, g) && Exec(schedule).Reached? && OnCycle(g, p)
    ensures !Installed(Exec(schedule).state.pkgs, p)
  {
    var s := Exec(schedule).state;
    EveryRunIsSound(schedule);
    RunFollows(schedule, g);
    if Installed(s.pkgs, p) {
      assert InOrder(s.order, p);
      var path :| IsCycle(g, path) && path[0] == p;
      var i :| 0 <= i < |s.order| && s.order[i].pkg == p;
      var j := Descends(s.order, g, path, i, |path| - 1);
      assert false;
    }
  }

  lemma CycleContinues(g: Graph, path: seq<string>)
    requires IsCycle(g, path)
    ensures OnCycle(g, path[1])
  {
    var rest := path[1..] + [path[1]];
    forall i | 0 <= i < |rest| - 1 ensures DependsOn(g, rest[i], rest[i + 1]) {
      if i < |path| - 2 {
        assert DependsOn(g, path[i + 1], path[i + 2]);
      } else {
        assert rest[i] == path[|path| - 1] == path[0];
        assert DependsOn(g, path[0], path[0 + 1]);
      }
    }
    assert IsCycle(g, rest);
  }

  /** Whatever the gate list of a launch names is installed. */
  lemma LaunchedAfterDependencies(s: State, i: nat, d: Dependency)
    requires Inv(s) && i < |s.launches| && d in s.launches[i].gate.deps
    ensures Installed(s.pkgs, d.name)
  {
    var l := s.launches[i];
    assert LaunchOk(s.order, l);
    assert InOrder(s.order[..l.marked], d.name);
    var k :| 0 <= k < l.marked && s.order[..l.marked][k].pkg == d.name;
    assert s.order[k].pkg == d.name;
    assert InOrder(s.order, d.name);
  }

  /** ... nor has its install script launched. */
  lemma CycleNeverLaunched(schedule: seq<Action>, g: Graph, i: nat)
    requires Announces(schedule, g) && Exec(schedule).Reached?
    requires i < |Exec(schedule).state.launches| && Exec(schedule).state.launches[i].script == Install
    ensures !OnCycle(g, Exec(schedule).state.launches[i].pkg)
  {
    var s := Exec(schedule).state;
    var l := s.launches[i];
    EveryRunIsSound(schedule);
    RunFollows(schedule, g);
    if OnCycle(g, l.pkg) {
      var path :| IsCycle(g, path) && path[0] == l.pkg;
      assert DependsOn(g, path[0], path[0 + 1]);
      var d :| d in g[path[0]] && d.name == path[1];
      assert FromGraph(g, l.pkg, l.gate.deps);
      CycleContinues(g, path);
      LaunchedAfterDependencies(s, i, d);
      CycleNeverInstalled(schedule, g, path[1]);
    }
  }

  // ---- when dependency lists change ----

  ghost predicate AllInstalled(pkgs: Packages, deps: seq<Dependency>) {
    forall d :: d in deps ==> Installed(pkgs, d.name)
  }

  /** Closure with respect to the lists announced last. */
  ghost predicate Closed(s: State) {
    forall p :: Installed(s.pkgs, p) ==> AllInstalled(s.pkgs, s.pkgs[p].dependencies)
  }

  ghost predicate KeepsClosure(s: State, a: Action) {
    match a
    case Reconcile(i) => Installed(s.pkgs, i.name) ==> AllInstalled(s.pkgs, i.dependencies)
    case InstallMark =>
      s.install.IMark? && s.install.pkg in s.pkgs &&
      forall d :: d in s.pkgs[s.install.pkg].dependencies ==> Installed(s.pkgs, d.name) || d.name == s.install.pkg
    case _ => true
  }

  lemma ReconcileAndClosure(s: State, i: PackageInfo)
    requires Closed(s)
    ensures Closed(NextReconcile(s, i)) <==> KeepsClosure(s, Reconcile(i))
  {
    var t := NextReconcile(s, i);
    assert forall p :: Installed(t.pkgs, p) <==> Installed(s.pkgs, p);
    if KeepsClosure(s, Reconcile(i)) {
      forall p | Installed(t.pkgs, p) ensures AllInstalled(t.pkgs, t.pkgs[p].dependencies) {
        if p != i.name {
          assert AllInstalled(s.pkgs, s.pkgs[p].dependencies);
        }
      }
    } else {
      assert Installed(t.pkgs, i.name);
      assert t.pkgs[i.name].dependencies == i.dependencies;
      var d :| d in i.dependencies && !Installed(s.pkgs, d.name);
      assert !Installed(t.pkgs, d.name);
    }
  }

  lemma MarkAndClosure(s: State)
    requires Closed(s) && Enabled(s, InstallMark)
    ensures Closed(NextInstall(s, InstallMark)) <==> KeepsClosure(s, InstallMark)
  {
    var t := NextInstall(s, InstallMark);
    var pkg := s.install.pkg;
    assert forall p :: Installed(t.pkgs, p) <==> Installed(s.pkgs, p) || p == pkg;
    assert forall p :: p in s.pkgs ==> t.pkgs[p].dependencies == s.pkgs[p].dependencies;
    if KeepsClosure(s, InstallMark) {
      forall p | Installed(t.pkgs, p) ensures AllInstalled(t.pkgs, t.pkgs[p].dependencies) {
        if p != pkg {
          assert AllInstalled(s.pkgs, s.pkgs[p].dependencies);
        }
      }
    } else {
      var d :| d in s.pkgs[pkg].dependencies && !Installed(s.pkgs, d.name) && d.name != pkg;
      assert !Installed(t.pkgs, d.name);
    }
  }

  lemma OtherStepsKeepClosure(s: State, t: State)
    requires Closed(s) && Advances(s, t)
    requires SameDependencies(s, t)
    ensures Closed(t)
  {
    forall p | Installed(t.pkgs, p) ensures AllInstalled(t.pkgs, t.pkgs[p].dependencies) {
      assert Installed(s.pkgs, p);
      assert AllInstalled(s.pkgs, s.pkgs[p].dependencies);
    }
  }

  ghost predicate SameDependencies(s: State, t: State) {
    forall p :: p in t.pkgs ==> p in s.pkgs && t.pkgs[p].dependencies == s.pkgs[p].dependencies
  }

  lemma EffectSetsNoDependencies(s: State, e: Effect)
    requires Lawful(s, e)
    ensures SameDependencies(s, Apply(s, e))
  {
  }

  lemma ScriptSetsNoDependencies(s: State, a: Action)
    requires Enabled(s, a) && PCsOk(s) && (a.TaskStep? || a.UpdateStep? || a.StatusStep?)
    ensures SameDependencies(s, Next(s, a))
  {
    match a
    case TaskStep(id, _) =>
      assert TaskOk(s.pkgs, s.tasks[id]);
      EffectSetsNoDependencies(s, TaskEffect(s, s.tasks[id]));
    case UpdateStep(_, _) => EffectSetsNoDependencies(s, UpdateEffect(s));
    case StatusStep(ok) => EffectSetsNoDependencies(s, StatusEffect(s, ok));
  }

  lemma QuietSetsNoDependencies(s: State, a: Action)
    requires Enabled(s, a) && !a.Reconcile? && !a.InstallMark?
    requires !a.TickerWrite? && !a.TaskStep? && !a.UpdateStep? && !a.StatusStep?
    ensures Next(s, a).pkgs == s.pkgs
  {
  }

  lemma OnlyReconcileSetsDependencies(s: State, a: Action)
    requires Enabled(s, a) && !a.Reconcile? && !a.InstallMark? && PCsOk(s)
    ensures SameDependencies(s, Next(s, a))
  {
    if a.TickerWrite? {
      EffectSetsNoDependencies(s, TickerEffect(s, a.id, a.reading));
    } else if a.TaskStep? || a.UpdateStep? || a.StatusStep? {
      ScriptSetsNoDependencies(s, a);
    } else {
      QuietSetsNoDependencies(s, a);
    }
  }

  /**
    Without the assumption on announcements, exactly two steps can break closure, and each does exactly
    when its guard fails: announcing an uninstalled dependency for an installed package, and marking a
    package whose list changed after its gate was read.
   */
  lemma ClosureStepByStep(s: State, a: Action)
    requires Reachable(s) && Closed(s) && Enabled(s, a)
    ensures Closed(Next(s, a)) <==> KeepsClosure(s, a)
  {
    var schedule :| Exec(schedule) == Reached(s);
    EveryRunIsSound(schedule);
    if a.Reconcile? {
      ReconcileAndClosure(s, a.info);
    } else if a == InstallMark {
      MarkAndClosure(s);
    } else {
      StepAdvances(s, a);
      OnlyReconcileSetsDependencies(s, a);
      OtherStepsKeepClosure(s, Next(s, a));
    }
  }

  const ALONE := PackageInfo("a", "a.sh", "1", 1, [])

  /** The same package, announced with a dependency. */
  const BOUND := ALONE.(dependencies := [Dependency("b", "*")])

  /** A package without dependencies is announced and passes its gate. */
  lemma AloneIsProbed() returns (s: State)
    ensures Reachable(s) && s.pkgs.Keys == {"a"} && !Installed(s.pkgs, "a") && s.update == UIdle
    ensures s.install == IProbe("a", NO_GATE)
  {
    assert Exec([]) == Reached(Init());
    StepReaches(Init(), Reconcile(ALONE));
    var s1 := NextReconcile(Init(), ALONE);
    StepReaches(s1, InstallPick("a"));
    var s2 := NextInstall(s1, InstallPick("a"));
    StepReaches(s2, InstallPassed);
    var s3 := NextInstall(s2, InstallPassed);
    StepReaches(s3, InstallGate);
    s := NextInstall(s3, InstallGate);
  }

  /** It is found installed, and about to be marked. */
  lemma AloneIsFound() returns (s: State)
    ensures Reachable(s) && s.pkgs.Keys == {"a"} && !Installed(s.pkgs, "a") && s.update == UIdle
    ensures s.install == IMark("a", NO_GATE)
  {
    var before := AloneIsProbed();
    StepReaches(before, InstallProbe(true));
    s := NextInstall(before, InstallProbe(true));
  }

  /** A run in which a changed announcement leaves an installed package with a missing dependency. */
  lemma ChangedListBreaksClosure() returns (s: State)
    ensures Reachable(s) && !Closed(s)
  {
    var found := AloneIsFound();
    StepReaches(found, InstallMark);
    var marked := NextInstall(found, InstallMark);
    StepReaches(marked, Reconcile(BOUND));
    s := NextReconcile(marked, BOUND);
    assert Installed(s.pkgs, "a") && BOUND.dependencies[0] in s.pkgs["a"].dependencies;
    assert !Installed(s.pkgs, "b");
  }

  /** A run in which the list changes between gate and mark, so that a package is marked with a missing dependency. */
  lemma RaceBreaksClosure() returns (s: State)
    ensures Reachable(s) && !Closed(s)
    ensures Mark("a", NO_GATE) in s.order && "a" in s.pkgs && s.pkgs["a"].dependencies == BOUND.dependencies
  {
    var found := AloneIsFound();
    StepReaches(found, Reconcile(BOUND));
    var changed := NextReconcile(found, BOUND);
    StepReaches(changed, InstallMark);
    s := NextInstall(changed, InstallMark);
    assert Installed(s.pkgs, "a") && BOUND.dependencies[0] in s.pkgs["a"].dependencies;
    assert !Installed(s.pkgs, "b");
  }

  // ---- progress ----

  /**
    The stored value is a percentage whatever the platform does with floats it cannot convert, exactly when there is
    an expected time and the float is above -1 and below 2^63.
   */
  lemma TickerProgressRange(eta: int, elapsed: nat, ratio: real)
    ensures (forall junk :: 0 <= TickerProgress(eta, Reading(elapsed, ratio, junk)) <= 100) <==>
            eta != 0 && -1.0 < ratio < 9_223_372_036_854_775_808.0
  {
    assert Truncated(ratio) >= 0 <==> ratio > -1.0;
    assert Truncated(ratio) <= INT64_MAX <==> ratio < 9_223_372_036_854_775_808.0;
    assert TickerProgress(eta, Reading(elapsed, ratio, -1)) < 0 || (eta != 0 && ratio > -1.0);
  }

  /** Below a hundred percent the whole percents are shown, from there on 98. */
  lemma TickerShows(eta: int, r: Reading)
    requires eta != 0 && 0.0 <= r.ratio < 9_223_372_036_854_775_808.0
    ensures r.ratio < 100.0 ==>
              var p := TickerProgress(eta, r) as real; p <= r.ratio < p + 1.0
    ensures r.ratio >= 100.0 ==> TickerProgress(eta, r) == 98
  {
    assert Truncated(r.ratio) <= INT64_MAX;
  }

  /** With a positive expected time the float is not negative, and below 2^63 for the first 2^62 / 100 nanoseconds. */
  lemma PositiveTimeRatio(eta: int, r: Reading)
    requires eta > 0 && Rounds(r, eta)
    ensures r.ratio >= 0.0
    ensures InTime(r.elapsed) ==> r.ratio < 9_223_372_036_854_775_808.0
  {
    var e, t := 100.0 * r.elapsed as real, eta as real;
    var exact := e / t;
    assert exact * t == e;
    SmallQuotient(e, t, exact);
  }

  lemma SmallQuotient(e: real, t: real, q: real)
    requires e >= 0.0 && t >= 1.0 && q * t == e
    ensures 0.0 <= q <= e
  {
    assert q >= 0.0;
    assert q * (t - 1.0) >= 0.0;
  }

  /** A year and a half: 2^62 / 100 nanoseconds. */
  predicate InTime(elapsed: nat) {
    100 * elapsed <= 0x4000_0000_0000_0000
  }

  /** Announced times are positive durations, and no ticker runs longer than a year and a half. */
  ghost predicate PositiveTimes(schedule: seq<Action>) {
    forall i :: 0 <= i < |schedule| ==> PositiveTime(schedule[i])
  }

  predicate PositiveTime(a: Action) {
    && (a.Reconcile? ==> 0 < a.info.totalTime <= INT64_MAX)
    && (a.TickerWrite? ==> InTime(a.reading.elapsed))
  }

  ghost predicate PackagePercentages(pkgs: Packages) {
    forall p :: p in pkgs ==> 0 <= pkgs[p].progress <= 100 && 0 < pkgs[p].totalTime <= INT64_MAX
  }

  ghost predicate PositiveTickers(tickers: map<nat, Ticker>) {
    forall id :: id in tickers ==> tickers[id].eta > 0
  }

  ghost predicate Percentages(s: State) {
    PackagePercentages(s.pkgs) && PositiveTickers(s.tickers)
  }

  lemma EffectKeepsPercentages(s: State, e: Effect)
    requires Percentages(s) && (e.Begins? ==> e.pkg in s.pkgs)
    requires e.Writes? ==> 0 <= e.value.progress <= 100 && 0 < e.value.totalTime <= INT64_MAX
    ensures Percentages(Apply(s, e))
  {
  }

  lemma TickKeepsPercentages(s: State, id: nat, r: Reading)
    requires Percentages(s) && Enabled(s, TickerWrite(id, r)) && InTime(r.elapsed)
    ensures Percentages(Apply(s, TickerEffect(s, id, r)))
  {
    var eta := s.tickers[id].eta;
    PositiveTimeRatio(eta, r);
    TickerProgressRange(eta, r.elapsed, r.ratio);
    assert r == Reading(r.elapsed, r.ratio, r.junk);
    EffectKeepsPercentages(s, TickerEffect(s, id, r));
  }

  lemma ScriptKeepsPercentages(s: State, a: Action)
    requires Percentages(s) && Enabled(s, a) && (a.TaskStep? || a.UpdateStep? || a.StatusStep?)
    ensures Percentages(Next(s, a))
  {
    match a
    case TaskStep(id, ok) => EffectKeepsPercentages(s, TaskEffect(s, s.tasks[id]));
    case UpdateStep(ok, v) => EffectKeepsPercentages(s, UpdateEffect(s));
    case StatusStep(ok) => EffectKeepsPercentages(s, StatusEffect(s, ok));
  }

  lemma QuietKeepsTickers(s: State, a: Action)
    requires Enabled(s, a) && PositiveTickers(s.tickers)
    requires !a.Reconcile? && !a.InstallMark? && !a.TickerWrite? && !a.TaskStep? && !a.UpdateStep? && !a.StatusStep?
    ensures PositiveTickers(Next(s, a).tickers)
  {
  }

  lemma StepKeepsPercentages(s: State, a: Action)
    requires Percentages(s) && Enabled(s, a) && PositiveTime(a)
    ensures Percentages(Next(s, a))
  {
    if a.TickerWrite? {
      TickKeepsPercentages(s, a.id, a.reading);
    } else if a.TaskStep? || a.UpdateStep? || a.StatusStep? {
      ScriptKeepsPercentages(s, a);
    } else if !a.Reconcile? && !a.InstallMark? {
      QuietSetsNoDependencies(s, a);
      QuietKeepsTickers(s, a);
    }
  }

  /** In every run with positive install times, every progress is a percentage. */
  lemma {:induction false} ProgressIsPercentage(schedule: seq<Action>)
    requires PositiveTimes(schedule) && Exec(schedule).Reached?
    ensures Percentages(Exec(schedule).state)
  {
    if schedule != [] {
      var n := |schedule| - 1;
      ProgressIsPercentage(schedule[..n]);
      StepKeepsPercentages(Exec(schedule[..n]).state, schedule[n]);
    }
  }
}
