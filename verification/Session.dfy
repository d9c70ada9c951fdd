/**
  The control-plane session (pkg/session/session.go, serve loop of pkg/session/serve.go)
  as a step machine. One step is one channel operation, one read of the shared `closer`
  field or one close; every interleaving of the six kinds of goroutine is a run.

  A generation is what one tick of the reconnect loop creates. It is named by the index of
  the closer that tick installs, so `closers[g]` is the closer of generation g.
 */
module Session {
  const QUEUE_CAPACITY: nat := 20

  /** A message of either direction; `decodable` is whether encoding/json accepts its data as a request. */
  datatype Body = Body(text: string, decodable: bool, reqID: string)

  /** startReader, then its deferred function from RCloseGo on. */
  datatype ReaderPC =
    | RRequest
    | RFail
    | RDecode
    | ROffer(body: Body)
    | RSelect(body: Body, loaded: nat)
    | RCloseGo
    | RLoadCloser
    | RCloseCloser(loaded: nat)
    | RAwaitFinish
    | RCloseExit
    | RDead

  /** startWriter, then its deferred function from WCloseGo on. */
  datatype WriterPC =
    | WStart
    | WRequest
    | WCloseGo
    | WLoadCloser
    | WCloseCloser(loaded: nat)
    | WAwaitFinish
    | WCloseExit
    | WDead

  /** handleReaderPipe and handleWriterPipe; HWait blocks on the closer that was read when select was entered. */
  datatype HandlerPC =
    | Unborn
    | HLoad
    | HWait(loaded: nat)
    | HSend(body: Body)
    | HFinish
    | HDead

  /** The goroutines of one generation and, per channel, how often it was closed (a second close panics). */
  datatype Generation = Generation(
    reader: ReaderPC, writer: WriterPC, readPipe: HandlerPC, writePipe: HandlerPC,
    readerExit: nat, writerExit: nat, readerGo: nat, writerGo: nat, readFinish: nat, writeFinish: nat)

  datatype KeepAlivePC =
    | KTick
    | KProbe
    | KAwaitReader
    | KAwaitWriter
    | KStopped

  datatype ServePC =
    | SReceive
    | SHandle(request: Body)
    | SSend(response: Body)

  /** A message together with the generation that moved it. */
  datatype Tagged = Tagged(gen: nat, body: Body)

  /** A request lost in the default branch of the select, with the queue length the reader saw. */
  datatype Dropped = Dropped(gen: nat, body: Body, queued: nat)

  /** `inbox` and `outbox` are the reader and writer channels; the last five fields record what happened so far. */
  datatype State = State(
    keepAlive: KeepAlivePC, current: nat, closers: seq<bool>, gens: map<nat, Generation>,
    serve: ServePC, inbox: seq<Body>, outbox: seq<Body>,
    accepted: seq<Tagged>, dropped: seq<Dropped>, consumed: seq<Body>, answered: seq<Body>, taken: seq<Tagged>)

  datatype KeepAliveAction = Tick | ProbeOk | ProbeFail | ReaderExited | WriterExited | ContextDone

  datatype ReaderAction =
    | RequestFails
    | CloseFinishUnused
    | ResponseOk
    | DecodeFails
    | Decoded(body: Body)
    | EnterOffer
    | Refuse
    | Accept
    | Drop
    | CloseReaderGo
    | LoadCloser
    | CloseLoaded
    | SeeFinish
    | CloseReaderExit

  datatype WriterAction =
    | SpawnPipe
    | RequestReturns
    | CloseWriterGo
    | LoadWriterCloser
    | CloseWriterLoaded
    | SeeWriterFinish
    | CloseWriterExit

  datatype HandlerAction = EnterSelect | SeeCloser | SeeGo | Timeout | TickOnly | Take | Sent | SendClosedPipe
    | CloseFinish

  datatype ServeAction = Receive | Handle(text: string) | Send

  datatype Action =
    | KeepAlive(k: KeepAliveAction)
    | Reader(g: nat, r: ReaderAction)
    | Writer(g: nat, w: WriterAction)
    | ReadPipe(g: nat, h: HandlerAction)
    | WritePipe(g: nat, h: HandlerAction)
    | Serve(v: ServeAction)

  function Init(): State {
    State(KTick, 0, [false], map[], SReceive, [], [], [], [], [], [], [])
  }

  function NewGeneration(): Generation {
    Generation(RRequest, WStart, Unborn, Unborn, 0, 0, 0, 0, 0, 0)
  }

  // ---- steps of the reconnect loop ----

  predicate KeepAliveEnabled(s: State, a: KeepAliveAction) {
    match a
    case Tick => s.keepAlive == KTick
    case ContextDone => s.keepAlive == KTick
    case ProbeOk => s.keepAlive == KProbe
    case ProbeFail => s.keepAlive == KProbe
    case ReaderExited => s.keepAlive == KAwaitReader && s.current in s.gens && s.gens[s.current].readerExit > 0
    case WriterExited => s.keepAlive == KAwaitWriter && s.current in s.gens && s.gens[s.current].writerExit > 0
  }

  function NextKeepAlive(s: State, a: KeepAliveAction): State
    requires KeepAliveEnabled(s, a)
  {
    match a
    case Tick => s.(keepAlive := KProbe, current := |s.closers|, closers := s.closers + [false])
    case ContextDone => s.(keepAlive := KStopped)
    case ProbeOk => s.(keepAlive := KAwaitReader, gens := s.gens[s.current := NewGeneration()])
    case ProbeFail => s.(keepAlive := KTick)
    case ReaderExited => s.(keepAlive := KAwaitWriter)
    case WriterExited => s.(keepAlive := KTick)
  }

  // ---- steps of a reader ----

  /** Where the reader itself must stand for a step; ReaderEnabled adds the shared channels. */
  predicate ReaderMay(pc: ReaderPC, a: ReaderAction) {
    match a
    case RequestFails => pc == RRequest
    case CloseFinishUnused => pc == RFail
    case ResponseOk => pc == RRequest
    case DecodeFails => pc == RDecode
    case Decoded(_) => pc == RDecode
    case EnterOffer => pc.ROffer?
    case Refuse => pc.RSelect?
    case Accept => pc.RSelect?
    case Drop => pc.RSelect?
    case CloseReaderGo => pc == RCloseGo
    case LoadCloser => pc == RLoadCloser
    case CloseLoaded => pc.RCloseCloser?
    case SeeFinish => pc == RAwaitFinish
    case CloseReaderExit => pc == RCloseExit
  }

  predicate ReaderEnabled(s: State, g: nat, a: ReaderAction) {
    g in s.gens && ReaderMay(s.gens[g].reader, a) &&
    var pc := s.gens[g].reader;
    match a
    case Refuse => pc.loaded < |s.closers| && s.closers[pc.loaded]
    case Accept => |s.inbox| < QUEUE_CAPACITY
    case Drop => pc.loaded < |s.closers| && !s.closers[pc.loaded] && |s.inbox| >= QUEUE_CAPACITY
    case CloseLoaded => pc.loaded < |s.closers|
    case SeeFinish => s.gens[g].readFinish > 0
    case _ => true
  }

  /** What a reader's step does to its own generation; `current` is what reading s.closer yields. */
  function ReaderMove(x: Generation, a: ReaderAction, current: nat): Generation
    requires ReaderMay(x.reader, a)
  {
    match a
    case RequestFails => x.(reader := RFail)
    case CloseFinishUnused => x.(reader := RCloseGo, readFinish := x.readFinish + 1)
    case ResponseOk => x.(reader := RDecode, readPipe := HLoad)
    case DecodeFails => x.(reader := RCloseGo)
    case Decoded(b) => x.(reader := ROffer(b))
    case EnterOffer => x.(reader := RSelect(x.reader.body, current))
    case Refuse => x.(reader := RCloseGo)
    case Accept => x.(reader := RDecode)
    case Drop => x.(reader := RDecode)
    case CloseReaderGo => x.(reader := RLoadCloser, readerGo := x.readerGo + 1)
    case LoadCloser => x.(reader := RCloseCloser(current))
    case CloseLoaded => x.(reader := RAwaitFinish)
    case SeeFinish => x.(reader := RCloseExit)
    case CloseReaderExit => x.(reader := RDead, readerExit := x.readerExit + 1)
  }

  function NextReader(s: State, g: nat, a: ReaderAction): State
    requires ReaderEnabled(s, g, a)
  {
    var pc := s.gens[g].reader;
    var t := s.(gens := s.gens[g := ReaderMove(s.gens[g], a, s.current)]);
    match a
    case Accept => t.(inbox := s.inbox + [pc.body], accepted := s.accepted + [Tagged(g, pc.body)])
    case Drop => t.(dropped := s.dropped + [Dropped(g, pc.body, |s.inbox|)])
    case CloseLoaded => t.(closers := s.closers[pc.loaded := true])
    case _ => t
  }

  // ---- steps of a writer ----

  predicate WriterMay(pc: WriterPC, a: WriterAction) {
    match a
    case SpawnPipe => pc == WStart
    case RequestReturns => pc == WRequest
    case CloseWriterGo => pc == WCloseGo
    case LoadWriterCloser => pc == WLoadCloser
    case CloseWriterLoaded => pc.WCloseCloser?
    case SeeWriterFinish => pc == WAwaitFinish
    case CloseWriterExit => pc == WCloseExit
  }

  predicate WriterEnabled(s: State, g: nat, a: WriterAction) {
    && g in s.gens
    && WriterMay(s.gens[g].writer, a)
    && (a == CloseWriterLoaded ==> s.gens[g].writer.loaded < |s.closers|)
    && (a == SeeWriterFinish ==> s.gens[g].writeFinish > 0)
  }

  function WriterMove(x: Generation, a: WriterAction, current: nat): Generation
    requires WriterMay(x.writer, a)
  {
    match a
    case SpawnPipe => x.(writer := WRequest, writePipe := HLoad)
    case RequestReturns => x.(writer := WCloseGo)
    case CloseWriterGo => x.(writer := WLoadCloser, writerGo := x.writerGo + 1)
    case LoadWriterCloser => x.(writer := WCloseCloser(current))
    case CloseWriterLoaded => x.(writer := WAwaitFinish)
    case SeeWriterFinish => x.(writer := WCloseExit)
    case CloseWriterExit => x.(writer := WDead, writerExit := x.writerExit + 1)
  }

  function NextWriter(s: State, g: nat, a: WriterAction): State
    requires WriterEnabled(s, g, a)
  {
    var t := s.(gens := s.gens[g := WriterMove(s.gens[g], a, s.current)]);
    if a == CloseWriterLoaded then t.(closers := s.closers[s.gens[g].writer.loaded := true]) else t
  }

  // ---- steps of the two pipe handlers ----

  predicate CloserSeen(s: State, pc: HandlerPC) {
    pc.HWait? && pc.loaded < |s.closers| && s.closers[pc.loaded]
  }

  predicate ReadPipeEnabled(s: State, g: nat, a: HandlerAction) {
    g in s.gens &&
    var pc := s.gens[g].readPipe;
    match a
    case EnterSelect => pc == HLoad
    case SeeCloser => CloserSeen(s, pc)
    case SeeGo => pc.HWait? && s.gens[g].readerGo > 0
    case Timeout => pc.HWait?
    case TickOnly => pc.HWait?
    case CloseFinish => pc == HFinish
    case _ => false
  }

  predicate WritePipeMay(pc: HandlerPC, a: HandlerAction) {
    match a
    case EnterSelect => pc == HLoad
    case SeeCloser => pc.HWait?
    case SeeGo => pc.HWait?
    case Take => pc.HWait?
    case Sent => pc.HSend?
    case SendClosedPipe => pc.HSend?
    case CloseFinish => pc == HFinish
    case _ => false
  }

  predicate WritePipeEnabled(s: State, g: nat, a: HandlerAction) {
    && g in s.gens
    && WritePipeMay(s.gens[g].writePipe, a)
    && (a == SeeCloser ==> CloserSeen(s, s.gens[g].writePipe))
    && (a == SeeGo ==> s.gens[g].writerGo > 0)
    && (a == Take ==> |s.outbox| > 0)
  }

  /** The next place of a pipe handler; `body` is what Take received. */
  function HandlerGoto(a: HandlerAction, current: nat, body: Body): HandlerPC {
    match a
    case EnterSelect => HWait(current)
    case TickOnly => HLoad
    case Take => HSend(body)
    case Sent => HLoad
    case CloseFinish => HDead
    case _ => HFinish
  }

  function ReadPipeMove(x: Generation, a: HandlerAction, current: nat): Generation {
    x.(readPipe := HandlerGoto(a, current, Body("", false, "")),
       readFinish := x.readFinish + if a == CloseFinish then 1 else 0)
  }

  function WritePipeMove(x: Generation, a: HandlerAction, current: nat, body: Body): Generation {
    x.(writePipe := HandlerGoto(a, current, body),
       writeFinish := x.writeFinish + if a == CloseFinish then 1 else 0)
  }

  function NextReadPipe(s: State, g: nat, a: HandlerAction): State
    requires ReadPipeEnabled(s, g, a)
  {
    s.(gens := s.gens[g := ReadPipeMove(s.gens[g], a, s.current)])
  }

  function NextWritePipe(s: State, g: nat, a: HandlerAction): State
    requires WritePipeEnabled(s, g, a)
  {
    var body := if a == Take then s.outbox[0] else Body("", false, "");
    var t := s.(gens := s.gens[g := WritePipeMove(s.gens[g], a, s.current, body)]);
    if a == Take then t.(outbox := s.outbox[1..], taken := s.taken + [Tagged(g, body)]) else t
  }

  // ---- steps of the serve loop ----

  predicate ServeEnabled(s: State, a: ServeAction) {
    match a
    case Receive => s.serve == SReceive && |s.inbox| > 0
    case Handle(_) => s.serve.SHandle?
    case Send => s.serve.SSend? && |s.outbox| < QUEUE_CAPACITY
  }

  function NextServe(s: State, a: ServeAction): State
    requires ServeEnabled(s, a)
  {
    match a
    case Receive =>
      var b := s.inbox[0];
      s.(inbox := s.inbox[1..], consumed := s.consumed + [b], serve := if b.decodable then SHandle(b) else SReceive)
    case Handle(text) => s.(serve := SSend(Body(text, true, s.serve.request.reqID)))
    case Send => s.(serve := SReceive, outbox := s.outbox + [s.serve.response],
        answered := s.answered + [s.serve.response])
  }

  // ---- runs ----

  predicate Enabled(s: State, a: Action) {
    match a
    case KeepAlive(k) => KeepAliveEnabled(s, k)
    case Reader(g, r) => ReaderEnabled(s, g, r)
    case Writer(g, w) => WriterEnabled(s, g, w)
    case ReadPipe(g, h) => ReadPipeEnabled(s, g, h)
    case WritePipe(g, h) => WritePipeEnabled(s, g, h)
    case Serve(v) => ServeEnabled(s, v)
  }

  function Next(s: State, a: Action): State
    requires Enabled(s, a)
  {
    match a
    case KeepAlive(k) => NextKeepAlive(s, k)
    case Reader(g, r) => NextReader(s, g, r)
    case Writer(g, w) => NextWriter(s, g, w)
    case ReadPipe(g, h) => NextReadPipe(s, g, h)
    case WritePipe(g, h) => NextWritePipe(s, g, h)
    case Serve(v) => NextServe(s, v)
  }

  datatype Outcome = Blocked | Reached(state: State)

  /** The state a schedule leads to, or Blocked when one of its steps is not possible. */
  function Exec(schedule: seq<Action>): Outcome {
    if schedule == [] then Reached(Init()) else
    var before := Exec(schedule[..|schedule| - 1]);
    var a := schedule[|schedule| - 1];
    if before.Blocked? || !Enabled(before.state, a) then Blocked else Reached(Next(before.state, a))
  }

  ghost predicate Reachable(s: State) {
    exists schedule :: Exec(schedule) == Reached(s)
  }

  // ---- what every reachable state satisfies: generations ----

  ghost predicate PipeGone(pc: HandlerPC) {
    pc == Unborn || pc == HDead
  }

  ghost predicate Alive(x: Generation) {
    x.reader != RDead || x.writer != WDead || !PipeGone(x.readPipe) || !PipeGone(x.writePipe)
  }

  ghost predicate ReaderExiting(pc: ReaderPC) {
    pc.RLoadCloser? || pc.RCloseCloser? || pc.RAwaitFinish? || pc.RCloseExit? || pc.RDead?
  }

  ghost predicate WriterExiting(pc: WriterPC) {
    pc.WLoadCloser? || pc.WCloseCloser? || pc.WAwaitFinish? || pc.WCloseExit? || pc.WDead?
  }

  /** Each channel is closed exactly by the one step that ends its owner, and never twice. */
  ghost predicate ChannelsClosedOnce(x: Generation) {
    && x.readerExit == (if x.reader == RDead then 1 else 0)
    && x.writerExit == (if x.writer == WDead then 1 else 0)
    && x.readerGo == (if ReaderExiting(x.reader) then 1 else 0)
    && x.writerGo == (if WriterExiting(x.writer) then 1 else 0)
    && x.readFinish ==
       (if x.readPipe == HDead || (x.readPipe == Unborn && x.reader != RRequest && x.reader != RFail) then 1 else 0)
    && x.writeFinish == (if x.writePipe == HDead then 1 else 0)
  }

  /** The order in which a generation winds down. */
  ghost predicate WindsDown(x: Generation) {
    && (x.reader == RRequest || x.reader == RFail ==> x.readPipe == Unborn)
    && (x.reader.RDecode? || x.reader.ROffer? || x.reader.RSelect? ==> x.readPipe != Unborn)
    && (x.writer == WStart <==> x.writePipe == Unborn)
    && (x.reader == RCloseExit || x.reader == RDead ==> x.readFinish > 0)
    && (x.writer == WCloseExit || x.writer == WDead ==> x.writeFinish > 0)
    && !x.readPipe.HSend?
  }

  /** Whatever closer a goroutine of generation g holds is the closer of g. */
  ghost predicate HoldsOwnCloser(g: nat, x: Generation) {
    && (x.reader.RSelect? ==> x.reader.loaded == g)
    && (x.reader.RCloseCloser? ==> x.reader.loaded == g)
    && (x.writer.WCloseCloser? ==> x.writer.loaded == g)
    && (x.readPipe.HWait? ==> x.readPipe.loaded == g)
    && (x.writePipe.HWait? ==> x.writePipe.loaded == g)
  }

  ghost predicate HasClosed(x: Generation) {
    || x.reader.RAwaitFinish? || x.reader.RCloseExit? || x.reader.RDead?
    || x.writer.WAwaitFinish? || x.writer.WCloseExit? || x.writer.WDead?
  }

  ghost predicate LocalOk(g: nat, x: Generation) {
    ChannelsClosedOnce(x) && WindsDown(x) && HoldsOwnCloser(g, x)
  }

  /** ... and a generation whose reader or writer has run its Close has a closed closer. */
  ghost predicate GenerationOk(closers: seq<bool>, g: nat, x: Generation) {
    LocalOk(g, x) && g < |closers| && (HasClosed(x) ==> closers[g])
  }

  ghost predicate GenerationsOk(closers: seq<bool>, gens: map<nat, Generation>) {
    forall g :: g in gens ==> GenerationOk(closers, g, gens[g])
  }

  ghost predicate Waiting(k: KeepAlivePC) {
    k == KAwaitReader || k == KAwaitWriter
  }

  ghost predicate OnlyCurrentAlive(s: State) {
    forall g :: g in s.gens && Alive(s.gens[g]) ==> g == s.current && Waiting(s.keepAlive)
  }

  ghost predicate Discipline(s: State) {
    && s.current + 1 == |s.closers|
    && GenerationsOk(s.closers, s.gens)
    && OnlyCurrentAlive(s)
    && (Waiting(s.keepAlive) ==> s.current in s.gens)
    && (s.keepAlive == KProbe ==> s.current !in s.gens)
    && (s.keepAlive == KAwaitWriter && s.current in s.gens ==> s.gens[s.current].reader == RDead)
  }

  lemma KeepAliveKeepsDiscipline(s: State, a: KeepAliveAction)
    requires Discipline(s) && KeepAliveEnabled(s, a)
    ensures Discipline(NextKeepAlive(s, a))
  {
    if s.current in s.gens {
      assert GenerationOk(s.closers, s.current, s.gens[s.current]);
    }
  }

  /** A step that moves one live generation, and may close its own closer, keeps the discipline. */
  lemma MovingOneGeneration(s: State, t: State, g: nat)
    requires Discipline(s) && g in s.gens && Alive(s.gens[g]) && g in t.gens
    requires t.gens == s.gens[g := t.gens[g]] && t.current == s.current && t.keepAlive == s.keepAlive
    requires t.closers == s.closers || (g < |s.closers| && t.closers == s.closers[g := true])
    requires GenerationOk(t.closers, g, t.gens[g])
    requires s.gens[g].reader == RDead ==> t.gens[g].reader == RDead
    ensures Discipline(t)
  {
  }

  lemma ReaderMoveOk(g: nat, x: Generation, a: ReaderAction)
    requires LocalOk(g, x) && ReaderMay(x.reader, a) && (a == SeeFinish ==> x.readFinish > 0)
    ensures LocalOk(g, ReaderMove(x, a, g)) && Alive(x) && x.reader != RDead
    ensures HasClosed(ReaderMove(x, a, g)) ==> HasClosed(x) || (a == CloseLoaded && x.reader.loaded == g)
  {
  }

  lemma WriterMoveOk(g: nat, x: Generation, a: WriterAction)
    requires LocalOk(g, x) && WriterMay(x.writer, a) && (a == SeeWriterFinish ==> x.writeFinish > 0)
    ensures LocalOk(g, WriterMove(x, a, g)) && Alive(x) && WriterMove(x, a, g).reader == x.reader
    ensures HasClosed(WriterMove(x, a, g)) ==> HasClosed(x) || (a == CloseWriterLoaded && x.writer.loaded == g)
  {
  }

  lemma ReaderKeepsDiscipline(s: State, g: nat, a: ReaderAction)
    requires Discipline(s) && ReaderEnabled(s, g, a)
    ensures Discipline(NextReader(s, g, a)) && g == s.current
  {
    assert GenerationOk(s.closers, g, s.gens[g]);
    ReaderMoveOk(g, s.gens[g], a);
    MovingOneGeneration(s, NextReader(s, g, a), g);
  }

  lemma WriterKeepsDiscipline(s: State, g: nat, a: WriterAction)
    requires Discipline(s) && WriterEnabled(s, g, a)
    ensures Discipline(NextWriter(s, g, a)) && g == s.current
  {
    assert GenerationOk(s.closers, g, s.gens[g]);
    WriterMoveOk(g, s.gens[g], a);
    MovingOneGeneration(s, NextWriter(s, g, a), g);
  }

  lemma ReadPipeKeepsDiscipline(s: State, g: nat, a: HandlerAction)
    requires Discipline(s) && ReadPipeEnabled(s, g, a)
    ensures Discipline(NextReadPipe(s, g, a)) && g == s.current
  {
    assert GenerationOk(s.closers, g, s.gens[g]);
    assert LocalOk(g, ReadPipeMove(s.gens[g], a, g));
    MovingOneGeneration(s, NextReadPipe(s, g, a), g);
  }

  lemma WritePipeMoveOk(g: nat, x: Generation, a: HandlerAction, b: Body)
    requires LocalOk(g, x) && WritePipeMay(x.writePipe, a)
    ensures LocalOk(g, WritePipeMove(x, a, g, b)) && Alive(x)
  {
  }

  lemma WritePipeKeepsDiscipline(s: State, g: nat, a: HandlerAction)
    requires Discipline(s) && WritePipeEnabled(s, g, a)
    ensures Discipline(NextWritePipe(s, g, a)) && g == s.current
  {
    var t := NextWritePipe(s, g, a);
    assert GenerationOk(s.closers, g, s.gens[g]);
    WritePipeMoveOk(g, s.gens[g], a, if a == Take then s.outbox[0] else Body("", false, ""));
    MovingOneGeneration(s, t, g);
  }

  lemma ServeKeepsDiscipline(s: State, a: ServeAction)
    requires Discipline(s) && ServeEnabled(s, a)
    ensures Discipline(NextServe(s, a))
  {
  }

  lemma StepKeepsDiscipline(s: State, a: Action)
    requires Discipline(s) && Enabled(s, a)
    ensures Discipline(Next(s, a))
  {
    match a
    case KeepAlive(k) => KeepAliveKeepsDiscipline(s, k);
    case Reader(g, r) => ReaderKeepsDiscipline(s, g, r);
    case Writer(g, w) => WriterKeepsDiscipline(s, g, w);
    case ReadPipe(g, h) => ReadPipeKeepsDiscipline(s, g, h);
    case WritePipe(g, h) => WritePipeKeepsDiscipline(s, g, h);
    case Serve(v) => ServeKeepsDiscipline(s, v);
  }

  // ---- what every reachable state satisfies: messages ----

  function Bodies(ts: seq<Tagged>): (bs: seq<Body>) {
    seq(|ts|, i requires 0 <= i < |ts| => ts[i].body)
  }

  function ReqIDs(bs: seq<Body>): (ids: seq<string>) {
    seq(|bs|, i requires 0 <= i < |bs| => bs[i].reqID)
  }

  /** The ReqIDs of the decodable requests of bs, in order. */
  function DecodableIDs(bs: seq<Body>): (ids: seq<string>) {
    if bs == [] then [] else
    DecodableIDs(bs[..|bs| - 1]) + if bs[|bs| - 1].decodable then [bs[|bs| - 1].reqID] else []
  }

  lemma {:induction false} DecodableIDsConcat(a: seq<Body>, b: seq<Body>)
    ensures DecodableIDs(a + b) == DecodableIDs(a) + DecodableIDs(b)
  {
    if b == [] {
      assert a + b == a;
    } else {
      var n := |b| - 1;
      DecodableIDsConcat(a, b[..n]);
      assert (a + b)[..|a + b| - 1] == a + b[..n];
    }
  }

  function InFlight(v: ServePC): (ids: seq<string>) {
    match v
    case SReceive => []
    case SHandle(b) => [b.reqID]
    case SSend(b) => [b.reqID]
  }

  ghost predicate InOrderOfGenerations(ts: seq<Tagged>, current: nat) {
    && (forall i, j :: 0 <= i < j < |ts| ==> ts[i].gen <= ts[j].gen)
    && (forall i :: 0 <= i < |ts| ==> ts[i].gen <= current)
  }

  ghost predicate DropsOk(dropped: seq<Dropped>) {
    forall i :: 0 <= i < |dropped| ==> dropped[i].queued == QUEUE_CAPACITY
  }

  ghost predicate Ledger(s: State) {
    && Bodies(s.accepted) == s.consumed + s.inbox
    && s.answered == Bodies(s.taken) + s.outbox
    && DecodableIDs(s.consumed) == ReqIDs(s.answered) + InFlight(s.serve)
    && |s.inbox| <= QUEUE_CAPACITY
    && |s.outbox| <= QUEUE_CAPACITY
    && DropsOk(s.dropped)
    && InOrderOfGenerations(s.accepted, s.current)
    && InOrderOfGenerations(s.taken, s.current)
  }

  lemma AppendTagged(ts: seq<Tagged>, g: nat, b: Body)
    requires InOrderOfGenerations(ts, g)
    ensures InOrderOfGenerations(ts + [Tagged(g, b)], g)
    ensures Bodies(ts + [Tagged(g, b)]) == Bodies(ts) + [b]
  {
  }

  lemma ReaderKeepsLedger(s: State, g: nat, a: ReaderAction)
    requires g == s.current && Ledger(s) && ReaderEnabled(s, g, a)
    ensures Ledger(NextReader(s, g, a))
  {
    if a == Accept {
      AppendTagged(s.accepted, g, s.gens[g].reader.body);
    }
  }

  lemma WritePipeKeepsLedger(s: State, g: nat, a: HandlerAction)
    requires g == s.current && Ledger(s) && WritePipeEnabled(s, g, a)
    ensures Ledger(NextWritePipe(s, g, a))
  {
    if a == Take {
      AppendTagged(s.taken, g, s.outbox[0]);
    }
  }

  lemma ServeKeepsLedger(s: State, a: ServeAction)
    requires Ledger(s) && ServeEnabled(s, a)
    ensures Ledger(NextServe(s, a))
  {
    var t := NextServe(s, a);
    match a
    case Receive =>
      assert t.consumed[..|t.consumed| - 1] == s.consumed;
    case Handle(_) =>
    case Send =>
      assert ReqIDs(t.answered) == ReqIDs(s.answered) + [s.serve.response.reqID];
  }

  lemma UntouchedLedger(s: State, t: State)
    requires Ledger(s) && s.current <= t.current
    requires t == s.(keepAlive := t.keepAlive, current := t.current, closers := t.closers, gens := t.gens)
    ensures Ledger(t)
  {
  }

  lemma StepKeepsLedger(s: State, a: Action)
    requires Discipline(s) && Ledger(s) && Enabled(s, a)
    ensures Ledger(Next(s, a))
  {
    match a
    case KeepAlive(k) => UntouchedLedger(s, NextKeepAlive(s, k));
    case Reader(g, r) =>
      ReaderKeepsDiscipline(s, g, r);
      ReaderKeepsLedger(s, g, r);
    case Writer(g, w) => UntouchedLedger(s, NextWriter(s, g, w));
    case ReadPipe(g, h) => UntouchedLedger(s, NextReadPipe(s, g, h));
    case WritePipe(g, h) =>
      WritePipeKeepsDiscipline(s, g, h);
      WritePipeKeepsLedger(s, g, h);
    case Serve(v) => ServeKeepsLedger(s, v);
  }

  lemma {:induction false} EveryRunIsSound(schedule: seq<Action>)
    requires Exec(schedule).Reached?
    ensures Discipline(Exec(schedule).state) && Ledger(Exec(schedule).state)
  {
    if schedule != [] {
      var n := |schedule| - 1;
      EveryRunIsSound(schedule[..n]);
      var s := Exec(schedule[..n]).state;
      StepKeepsDiscipline(s, schedule[n]);
      StepKeepsLedger(s, schedule[n]);
    }
  }

  lemma ReachableIsSound(s: State)
    requires Reachable(s)
    ensures Discipline(s) && Ledger(s)
  {
    var schedule :| Exec(schedule) == Reached(s);
    EveryRunIsSound(schedule);
  }

  // ---- main results ----

  /** When the reconnect loop installs a new closer, no goroutine of any earlier generation is left. */
  lemma GenerationsNeverOverlap(s: State)
    requires Reachable(s)
    ensures KeepAliveEnabled(s, Tick) ==> forall g :: g in s.gens ==> !Alive(s.gens[g])
    ensures forall g, h :: g in s.gens && h in s.gens && Alive(s.gens[g]) && Alive(s.gens[h]) ==> g == h
  {
    ReachableIsSound(s);
  }

  /** `s.closer.Close()` always closes the closer of the caller's own generation, which is the installed one. */
  lemma CloseHitsOwnGeneration(s: State, g: nat)
    requires Reachable(s) && g in s.gens
    ensures s.gens[g].reader.RCloseCloser? ==> s.gens[g].reader.loaded == g == s.current
    ensures s.gens[g].writer.WCloseCloser? ==> s.gens[g].writer.loaded == g == s.current
    ensures ReaderEnabled(s, g, LoadCloser) || WriterEnabled(s, g, LoadWriterCloser) ==> g == s.current
    ensures s.gens[g].reader == RDead || s.gens[g].writer == WDead ==> g < |s.closers| && s.closers[g]
  {
    ReachableIsSound(s);
    assert GenerationOk(s.closers, g, s.gens[g]);
  }

  /** No channel of a generation is ever closed twice, and a generation that is gone has closed all six once. */
  lemma EveryChannelClosedExactlyOnce(s: State, g: nat)
    requires Reachable(s) && g in s.gens
    ensures var x := s.gens[g];
            && x.readerExit <= 1 && x.writerExit <= 1 && x.readerGo <= 1
            && x.writerGo <= 1 && x.readFinish <= 1 && x.writeFinish <= 1
    ensures var x := s.gens[g];
            !Alive(x) ==> && x.readerExit == x.writerExit == 1
                          && x.readerGo == x.writerGo == 1
                          && x.readFinish == x.writeFinish == 1
    ensures g != s.current || s.keepAlive == KTick ==> !Alive(s.gens[g])
  {
    ReachableIsSound(s);
    assert GenerationOk(s.closers, g, s.gens[g]);
  }

  ghost predicate SameGeneration(s: State, t: State, g: nat) {
    && g in s.gens && g in t.gens && t.gens[g] == s.gens[g]
    && g < |s.closers| && g < |t.closers| && t.closers[g] == s.closers[g]
  }

  lemma ReaderTouchesOwn(s: State, h: nat, a: ReaderAction, g: nat)
    requires Discipline(s) && ReaderEnabled(s, h, a) && g in s.gens && g != s.current
    ensures SameGeneration(s, NextReader(s, h, a), g)
  {
    assert GenerationOk(s.closers, g, s.gens[g]) && GenerationOk(s.closers, h, s.gens[h]);
    ReaderMoveOk(h, s.gens[h], a);
  }

  lemma WriterTouchesOwn(s: State, h: nat, a: WriterAction, g: nat)
    requires Discipline(s) && WriterEnabled(s, h, a) && g in s.gens && g != s.current
    ensures SameGeneration(s, NextWriter(s, h, a), g)
  {
    assert GenerationOk(s.closers, g, s.gens[g]) && GenerationOk(s.closers, h, s.gens[h]);
    WriterMoveOk(h, s.gens[h], a);
  }

  lemma PipesTouchOwn(s: State, h: nat, a: HandlerAction, g: nat)
    requires Discipline(s) && g in s.gens && g != s.current
    ensures ReadPipeEnabled(s, h, a) ==> SameGeneration(s, NextReadPipe(s, h, a), g)
    ensures WritePipeEnabled(s, h, a) ==> SameGeneration(s, NextWritePipe(s, h, a), g)
  {
    assert GenerationOk(s.closers, g, s.gens[g]);
  }

  lemma LoopsTouchNone(s: State, a: Action, g: nat)
    requires Discipline(s) && Enabled(s, a) && (a.KeepAlive? || a.Serve?) && g in s.gens && g != s.current
    ensures SameGeneration(s, Next(s, a), g)
  {
    assert GenerationOk(s.closers, g, s.gens[g]);
  }

  lemma StepTouchesCurrent(s: State, a: Action, g: nat)
    requires Discipline(s) && Enabled(s, a) && g in s.gens && g != s.current
    ensures SameGeneration(s, Next(s, a), g)
  {
    match a
    case Reader(h, r) => ReaderTouchesOwn(s, h, r, g);
    case Writer(h, w) => WriterTouchesOwn(s, h, w, g);
    case ReadPipe(h, p) => PipesTouchOwn(s, h, p, g);
    case WritePipe(h, p) => PipesTouchOwn(s, h, p, g);
    case _ => LoopsTouchNone(s, a, g);
  }

  /** A superseded generation is frozen: no step of any goroutine touches it again, nor its closer. */
  lemma SupersededGenerationIsFrozen(s: State, a: Action, g: nat)
    requires Reachable(s) && Enabled(s, a) && g in s.gens && g != s.current
    ensures SameGeneration(s, Next(s, a), g)
  {
    ReachableIsSound(s);
    StepTouchesCurrent(s, a, g);
  }

  /**
    One response per accepted decodable request, in acceptance order: what was answered, what is
    being handled and what is still queued make up exactly the accepted decodable ReqIDs.
   */
  lemma ResponsesMatchRequestsInOrder(s: State)
    requires Reachable(s)
    ensures DecodableIDs(Bodies(s.accepted)) == ReqIDs(s.answered) + InFlight(s.serve) + DecodableIDs(s.inbox)
    ensures s.inbox == [] && s.serve == SReceive ==> ReqIDs(s.answered) == DecodableIDs(Bodies(s.accepted))
    ensures |s.inbox| <= QUEUE_CAPACITY && |s.outbox| <= QUEUE_CAPACITY
  {
    ReachableIsSound(s);
    DecodableIDsConcat(s.consumed, s.inbox);
  }

  /** Across all reconnects the bodies taken for sending are a prefix of the answers, each taken once. */
  lemma SendingOrderSurvivesReconnects(s: State)
    requires Reachable(s)
    ensures Bodies(s.taken) + s.outbox == s.answered
    ensures ReqIDs(Bodies(s.taken)) <= DecodableIDs(Bodies(s.accepted))
    ensures InOrderOfGenerations(s.taken, s.current) && InOrderOfGenerations(s.accepted, s.current)
  {
    ReachableIsSound(s);
    DecodableIDsConcat(s.consumed, s.inbox);
    ReqIDsConcat(Bodies(s.taken), s.outbox);
  }

  lemma ReqIDsConcat(a: seq<Body>, b: seq<Body>)
    ensures ReqIDs(a + b) == ReqIDs(a) + ReqIDs(b)
  {
  }

  lemma OfferOutcomes(s: State, g: nat)
    requires Discipline(s) && Ledger(s) && g in s.gens && s.gens[g].reader.RSelect?
    ensures g < |s.closers|
    ensures ReaderEnabled(s, g, Accept) <==> |s.inbox| < QUEUE_CAPACITY
    ensures ReaderEnabled(s, g, Drop) <==> |s.inbox| == QUEUE_CAPACITY && !s.closers[g]
    ensures ReaderEnabled(s, g, Refuse) <==> s.closers[g]
  {
    assert GenerationOk(s.closers, g, s.gens[g]);
  }

  /** In every reachable state, each request that was dropped so far was dropped while the queue was full. */
  lemma DropOnlyWhenFull(s: State)
    requires Reachable(s)
    ensures DropsOk(s.dropped)
  {
    ReachableIsSound(s);
  }

  /**
    An offer is refused exactly if the reader's own generation is closed and dropped only to a full queue; one of
    the three outcomes is always possible, and no offer can be both accepted and dropped.
   */
  lemma OfferIsDecided(s: State, g: nat)
    requires Reachable(s) && g in s.gens && s.gens[g].reader.RSelect?
    ensures g == s.current && g < |s.closers|
    ensures ReaderEnabled(s, g, Refuse) <==> s.closers[g]
    ensures ReaderEnabled(s, g, Drop) <==> |s.inbox| == QUEUE_CAPACITY && !s.closers[g]
    ensures !(ReaderEnabled(s, g, Accept) && ReaderEnabled(s, g, Drop))
    ensures ReaderEnabled(s, g, Accept) || ReaderEnabled(s, g, Drop) || ReaderEnabled(s, g, Refuse)
  {
    ReachableIsSound(s);
    OfferOutcomes(s, g);
    assert GenerationOk(s.closers, g, s.gens[g]);
  }

  /** The next step of a reader or, when it waits for its pipe handler, of that handler. */
  lemma ReaderSideCanStep(s: State, g: nat) returns (a: Action)
    requires Discipline(s) && Ledger(s) && g in s.gens && s.gens[g].reader != RDead
    ensures (a.Reader? || a.ReadPipe?) && a.g == g && Enabled(s, a)
  {
    assert GenerationOk(s.closers, g, s.gens[g]);
    var x := s.gens[g];
    match x.reader
    case RRequest => a := Reader(g, RequestFails);
    case RFail => a := Reader(g, CloseFinishUnused);
    case RDecode => a := Reader(g, DecodeFails);
    case ROffer(_) => a := Reader(g, EnterOffer);
    case RSelect(_, _) => a := Reader(g, if s.closers[g] then Refuse else if |s.inbox| < QUEUE_CAPACITY
        then Accept else Drop);
    case RCloseGo => a := Reader(g, CloseReaderGo);
    case RLoadCloser => a := Reader(g, LoadCloser);
    case RCloseCloser(_) => a := Reader(g, CloseLoaded);
    case RCloseExit => a := Reader(g, CloseReaderExit);
    case RAwaitFinish =>
      a := if x.readFinish > 0 then Reader(g, SeeFinish)
           else ReadPipe(g, if x.readPipe == HLoad then EnterSelect else if x.readPipe.HWait? then SeeGo
             else CloseFinish);
  }

  lemma WriterSideCanStep(s: State, g: nat) returns (a: Action)
    requires Discipline(s) && Ledger(s) && g in s.gens && s.gens[g].writer != WDead
    ensures (a.Writer? || a.WritePipe?) && a.g == g && Enabled(s, a)
  {
    assert GenerationOk(s.closers, g, s.gens[g]);
    var x := s.gens[g];
    match x.writer
    case WStart => a := Writer(g, SpawnPipe);
    case WRequest => a := Writer(g, RequestReturns);
    case WCloseGo => a := Writer(g, CloseWriterGo);
    case WLoadCloser => a := Writer(g, LoadWriterCloser);
    case WCloseCloser(_) => a := Writer(g, CloseWriterLoaded);
    case WCloseExit => a := Writer(g, CloseWriterExit);
    case WAwaitFinish =>
      a := if x.writeFinish > 0 then Writer(g, SeeWriterFinish)
           else WritePipe(g, match x.writePipe
                             case HLoad => EnterSelect
                             case HWait(_) => SeeGo
                             case HSend(_) => SendClosedPipe
                             case _ => CloseFinish);
  }

  /**
    The protocol never deadlocks: until the context is done, some step outside the serve loop is possible. A writer
    that waits for a handler caught in a pipe write relies on that write failing once the request is over.
   */
  lemma NeverDeadlocks(s: State) returns (a: Action)
    requires Reachable(s) && s.keepAlive != KStopped
    ensures Enabled(s, a) && !a.Serve?
  {
    ReachableIsSound(s);
    match s.keepAlive
    case KTick => a := KeepAlive(Tick);
    case KProbe => a := KeepAlive(ProbeOk);
    case KAwaitReader =>
      assert GenerationOk(s.closers, s.current, s.gens[s.current]);
      if s.gens[s.current].reader == RDead {
        a := KeepAlive(ReaderExited);
      } else {
        a := ReaderSideCanStep(s, s.current);
      }
    case KAwaitWriter =>
      assert GenerationOk(s.closers, s.current, s.gens[s.current]);
      if s.gens[s.current].writer == WDead {
        a := KeepAlive(WriterExited);
      } else {
        a := WriterSideCanStep(s, s.current);
      }
  }
}
