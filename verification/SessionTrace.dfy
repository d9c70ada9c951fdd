/**
  What a run of the session (Session) says about its own schedule: where every accepted message came from, what became
  of every decoded one, and why each goroutine ended. Everything on the left of these laws is read off the schedule.
 */
module SessionTrace {
  import opened Session

  // ---- what was decoded and what became of it ----

  /** What a step adds to the decoded messages and to the fates. */
  function DecodedBy(a: Action): seq<Body> {
    if a.Reader? && a.r.Decoded? then [a.r.body] else []
  }

  function FateBy(a: Action): seq<Fate> {
    if !a.Reader? then []
    else if a.r.Accept? then [Accepted]
    else if a.r.Drop? then [Lost]
    else if a.r.Refuse? then [Refused]
    else []
  }

  /** The messages that readers decoded, in order. */
  function DecodedBodies(schedule: seq<Action>): seq<Body> {
    if schedule == [] then [] else DecodedBodies(schedule[..|schedule| - 1]) + DecodedBy(schedule[|schedule| - 1])
  }

  datatype Fate = Accepted | Lost | Refused

  /** How the selects in tryWriteToReader ended, in order. */
  function Fates(schedule: seq<Action>): seq<Fate> {
    if schedule == [] then [] else Fates(schedule[..|schedule| - 1]) + FateBy(schedule[|schedule| - 1])
  }

  /** The bodies that met the given fate, in order. */
  function WithFate(bodies: seq<Body>, fates: seq<Fate>, fate: Fate): seq<Body>
    requires |fates| <= |bodies|
  {
    if fates == [] then []
    else
      var n := |fates| - 1;
      WithFate(bodies, fates[..n], fate) + if fates[n] == fate then [bodies[n]] else []
  }

  lemma {:induction false} FateOfPrefix(bodies: seq<Body>, more: seq<Body>, fates: seq<Fate>, fate: Fate)
    requires |fates| <= |bodies|
    ensures WithFate(bodies + more, fates, fate) == WithFate(bodies, fates, fate)
  {
    if fates != [] {
      FateOfPrefix(bodies, more, fates[..|fates| - 1], fate);
    }
  }

  lemma FateSnoc(bodies: seq<Body>, fates: seq<Fate>, x: Fate, fate: Fate)
    requires |fates| < |bodies|
    ensures WithFate(bodies, fates + [x], fate) ==
            WithFate(bodies, fates, fate) + if x == fate then [bodies[|fates|]] else []
  {
    assert (fates + [x])[..|fates|] == fates;
  }

  /** The message a reader has decoded and not yet offered to the end. */
  function HandOf(pc: ReaderPC): seq<Body> {
    match pc
    case ROffer(b) => [b]
    case RSelect(b, _) => [b]
    case _ => []
  }

  function Hand(s: State): seq<Body> {
    if s.current in s.gens then HandOf(s.gens[s.current].reader) else []
  }

  function LostBodies(ds: seq<Dropped>): seq<Body> {
    if ds == [] then [] else LostBodies(ds[..|ds| - 1]) + [ds[|ds| - 1].body]
  }

  /** Every decoded message met its fate in order, except one that may be in the current reader's hand. */
  ghost predicate Tracks(decoded: seq<Body>, fates: seq<Fate>, s: State) {
    && |fates| + |Hand(s)| == |decoded|
    && (Hand(s) != [] ==> Hand(s)[0] == decoded[|fates|])
    && Bodies(s.accepted) == WithFate(decoded, fates, Accepted)
    && LostBodies(s.dropped) == WithFate(decoded, fates, Lost)
  }

  lemma BodiesSnoc(ts: seq<Tagged>, t: Tagged)
    ensures Bodies(ts + [t]) == Bodies(ts) + [t.body]
  {}

  lemma LostSnoc(ds: seq<Dropped>, d: Dropped)
    ensures LostBodies(ds + [d]) == LostBodies(ds) + [d.body]
  {
    assert (ds + [d])[..|ds|] == ds;
  }

  lemma DecodeTracks(decoded: seq<Body>, fates: seq<Fate>, s: State, t: State, b: Body)
    requires Tracks(decoded, fates, s) && Hand(s) == [] && Hand(t) == [b]
    requires t.accepted == s.accepted && t.dropped == s.dropped
    ensures Tracks(decoded + [b], fates, t)
  {
    FateOfPrefix(decoded, [b], fates, Accepted);
    FateOfPrefix(decoded, [b], fates, Lost);
  }

  lemma FateTracks(decoded: seq<Body>, fates: seq<Fate>, s: State, t: State, fate: Fate)
    requires Tracks(decoded, fates, s) && Hand(s) != [] && Hand(t) == []
    requires Bodies(t.accepted) == Bodies(s.accepted) + if fate == Accepted then Hand(s) else []
    requires LostBodies(t.dropped) == LostBodies(s.dropped) + if fate == Lost then Hand(s) else []
    ensures Tracks(decoded, fates + [fate], t)
  {
    FateSnoc(decoded, fates, fate, Accepted);
    FateSnoc(decoded, fates, fate, Lost);
    assert Hand(s) == [decoded[|fates|]];
  }

  lemma SameTracks(decoded: seq<Body>, fates: seq<Fate>, s: State, t: State)
    requires Tracks(decoded, fates, s) && Hand(t) == Hand(s) && t.accepted == s.accepted && t.dropped == s.dropped
    ensures Tracks(decoded, fates, t)
  {}

  lemma ReaderHand(s: State, g: nat, a: ReaderAction)
    requires g == s.current && ReaderEnabled(s, g, a)
    ensures var t := NextReader(s, g, a);
      && Hand(t) == HandOf(ReaderMove(s.gens[g], a, s.current).reader)
      && (a.Decoded? ==> Hand(s) == [] && Hand(t) == [a.body])
      && (a.Accept? || a.Drop? || a.Refuse? ==> |Hand(s)| == 1 && Hand(t) == [])
      && (!a.Decoded? && !a.Accept? && !a.Drop? && !a.Refuse? ==> Hand(t) == Hand(s))
  {}

  lemma AcceptTracks(decoded: seq<Body>, fates: seq<Fate>, s: State, g: nat)
    requires Tracks(decoded, fates, s) && g == s.current && ReaderEnabled(s, g, Accept)
    ensures Tracks(decoded, fates + [Accepted], NextReader(s, g, Accept))
  {
    ReaderHand(s, g, Accept);
    BodiesSnoc(s.accepted, Tagged(g, s.gens[g].reader.body));
    FateTracks(decoded, fates, s, NextReader(s, g, Accept), Accepted);
  }

  lemma DropTracks(decoded: seq<Body>, fates: seq<Fate>, s: State, g: nat)
    requires Tracks(decoded, fates, s) && g == s.current && ReaderEnabled(s, g, Drop)
    ensures Tracks(decoded, fates + [Lost], NextReader(s, g, Drop))
  {
    ReaderHand(s, g, Drop);
    LostSnoc(s.dropped, Dropped(g, s.gens[g].reader.body, |s.inbox|));
    FateTracks(decoded, fates, s, NextReader(s, g, Drop), Lost);
  }

  lemma RefuseTracks(decoded: seq<Body>, fates: seq<Fate>, s: State, g: nat)
    requires Tracks(decoded, fates, s) && g == s.current && ReaderEnabled(s, g, Refuse)
    ensures Tracks(decoded, fates + [Refused], NextReader(s, g, Refuse))
  {
    ReaderHand(s, g, Refuse);
    FateTracks(decoded, fates, s, NextReader(s, g, Refuse), Refused);
  }

  lemma DecodedTracks(decoded: seq<Body>, fates: seq<Fate>, s: State, g: nat, b: Body)
    requires Tracks(decoded, fates, s) && g == s.current && ReaderEnabled(s, g, Decoded(b))
    ensures Tracks(decoded + [b], fates, NextReader(s, g, Decoded(b)))
  {
    ReaderHand(s, g, Decoded(b));
    DecodeTracks(decoded, fates, s, NextReader(s, g, Decoded(b)), b);
  }

  lemma SilentTracks(decoded: seq<Body>, fates: seq<Fate>, s: State, g: nat, a: ReaderAction)
    requires Tracks(decoded, fates, s) && g == s.current && ReaderEnabled(s, g, a)
    requires !a.Decoded? && !a.Accept? && !a.Drop? && !a.Refuse?
    ensures Tracks(decoded, fates, NextReader(s, g, a))
  {
    ReaderHand(s, g, a);
    SameTracks(decoded, fates, s, NextReader(s, g, a));
  }

  lemma ReaderTracks(decoded: seq<Body>, fates: seq<Fate>, s: State, g: nat, a: ReaderAction)
    requires Tracks(decoded, fates, s) && g == s.current && ReaderEnabled(s, g, a)
    ensures Tracks(decoded + DecodedBy(Reader(g, a)), fates + FateBy(Reader(g, a)), NextReader(s, g, a))
  {
    assert decoded + [] == decoded && fates + [] == fates;
    match a
    case Decoded(b) => DecodedTracks(decoded, fates, s, g, b);
    case Accept => AcceptTracks(decoded, fates, s, g);
    case Drop => DropTracks(decoded, fates, s, g);
    case Refuse => RefuseTracks(decoded, fates, s, g);
    case _ => SilentTracks(decoded, fates, s, g, a);
  }

  lemma LoopKeepsHand(s: State, k: KeepAliveAction)
    requires Discipline(s) && KeepAliveEnabled(s, k)
    ensures Hand(NextKeepAlive(s, k)) == Hand(s)
  {
    if s.current in s.gens {
      assert GenerationOk(s.closers, s.current, s.gens[s.current]);
    }
    forall g | g in s.gens ensures g < |s.closers| {
      assert GenerationOk(s.closers, g, s.gens[g]);
    }
  }

  lemma WriterKeepsHand(s: State, g: nat, a: WriterAction)
    requires WriterEnabled(s, g, a)
    ensures Hand(NextWriter(s, g, a)) == Hand(s)
  {
    assert WriterMove(s.gens[g], a, s.current).reader == s.gens[g].reader;
  }

  lemma PipeKeepsHand(s: State, g: nat, a: HandlerAction)
    ensures ReadPipeEnabled(s, g, a) ==> Hand(NextReadPipe(s, g, a)) == Hand(s)
    ensures WritePipeEnabled(s, g, a) ==> Hand(NextWritePipe(s, g, a)) == Hand(s)
  {}

  /** No step but a reader's changes what the current reader holds. */
  lemma OthersKeepHand(s: State, a: Action)
    requires Discipline(s) && Enabled(s, a) && !a.Reader?
    ensures Hand(Next(s, a)) == Hand(s)
  {
    match a
    case KeepAlive(k) => LoopKeepsHand(s, k);
    case Writer(g, w) => WriterKeepsHand(s, g, w);
    case ReadPipe(g, h) => PipeKeepsHand(s, g, h);
    case WritePipe(g, h) => PipeKeepsHand(s, g, h);
    case Serve(_) =>
  }

  lemma OthersAcceptNothing(s: State, a: Action)
    requires Enabled(s, a) && !a.Reader?
    ensures Next(s, a).accepted == s.accepted && Next(s, a).dropped == s.dropped
  {}

  /**
    What was accepted is what was decoded, less what was dropped and what was refused, in order; what was dropped is
    recorded as it was decoded; and a decoded message without a fate is in the hand of the current reader.
   */
  lemma {:induction false} AcceptedIsDecoded(schedule: seq<Action>)
    requires Exec(schedule).Reached?
    ensures Tracks(DecodedBodies(schedule), Fates(schedule), Exec(schedule).state)
  {
    if schedule != [] {
      var n := |schedule| - 1;
      var before, a := Exec(schedule[..n]).state, schedule[n];
      AcceptedIsDecoded(schedule[..n]);
      EveryRunIsSound(schedule[..n]);
      if a.Reader? {
        ReaderKeepsDiscipline(before, a.g, a.r);
        ReaderTracks(DecodedBodies(schedule[..n]), Fates(schedule[..n]), before, a.g, a.r);
      } else {
        OthersKeepHand(before, a);
        OthersAcceptNothing(before, a);
        SameTracks(DecodedBodies(schedule[..n]), Fates(schedule[..n]), before, Next(before, a));
        assert DecodedBodies(schedule[..n]) + [] == DecodedBodies(schedule[..n]);
        assert Fates(schedule[..n]) + [] == Fates(schedule[..n]);
      }
    }
  }

  /** So the answers are to the decodable ones among the decoded and accepted messages, in the order of decoding. */
  lemma AnswersFollowDecoding(schedule: seq<Action>)
    requires Exec(schedule).Reached?
    ensures var s := Exec(schedule).state; var decoded, fates := DecodedBodies(schedule), Fates(schedule);
      && |fates| <= |decoded|
      && DecodableIDs(WithFate(decoded, fates, Accepted)) ==
         ReqIDs(s.answered) + InFlight(s.serve) + DecodableIDs(s.inbox)
  {
    AcceptedIsDecoded(schedule);
    ResponsesMatchRequestsInOrder(Exec(schedule).state);
  }

  // ---- what is sent ----

  /** The body a handler of the current generation is writing is the one taken last, by that generation. */
  ghost predicate WritesTaken(s: State) {
    s.current in s.gens && s.gens[s.current].writePipe.HSend? ==>
      |s.taken| > 0 && s.taken[|s.taken| - 1] == Tagged(s.current, s.gens[s.current].writePipe.body)
  }

  lemma PipeWritesTaken(s: State, g: nat, a: HandlerAction)
    requires WritesTaken(s) && g == s.current && WritePipeEnabled(s, g, a)
    ensures WritesTaken(NextWritePipe(s, g, a))
  {}

  lemma OthersWriteTaken(s: State, a: Action)
    requires Discipline(s) && WritesTaken(s) && Enabled(s, a) && (a.KeepAlive? || a.Serve?)
    ensures WritesTaken(Next(s, a))
  {
    if a.KeepAlive? {
      LoopWritesTaken(s, a.k);
    }
  }

  lemma LoopWritesTaken(s: State, k: KeepAliveAction)
    requires Discipline(s) && WritesTaken(s) && KeepAliveEnabled(s, k)
    ensures WritesTaken(NextKeepAlive(s, k))
  {
    if s.current in s.gens {
      assert GenerationOk(s.closers, s.current, s.gens[s.current]);
    }
    forall g | g in s.gens ensures g < |s.closers| {
      assert GenerationOk(s.closers, g, s.gens[g]);
    }
  }

  lemma ReaderWritesTaken(s: State, g: nat, a: ReaderAction)
    requires WritesTaken(s) && ReaderEnabled(s, g, a)
    ensures WritesTaken(NextReader(s, g, a))
  {
    assert ReaderMove(s.gens[g], a, s.current).writePipe == s.gens[g].writePipe;
  }

  lemma WriterWritesTaken(s: State, g: nat, a: WriterAction)
    requires WritesTaken(s) && WriterEnabled(s, g, a)
    ensures WritesTaken(NextWriter(s, g, a))
  {
    var x := WriterMove(s.gens[g], a, s.current);
    assert x.writePipe == s.gens[g].writePipe || x.writePipe == HLoad;
  }

  lemma StepWritesTaken(s: State, a: Action)
    requires Discipline(s) && WritesTaken(s) && Enabled(s, a)
    ensures WritesTaken(Next(s, a))
  {
    match a
    case Reader(g, r) => ReaderWritesTaken(s, g, r);
    case Writer(g, w) => WriterWritesTaken(s, g, w);
    case ReadPipe(g, h) =>
    case WritePipe(g, h) =>
      WritePipeKeepsDiscipline(s, g, h);
      PipeWritesTaken(s, g, h);
    case _ => OthersWriteTaken(s, a);
  }

  /** What goes over the pipe is what was taken from the queue, so across reconnects the answers in their order. */
  lemma {:induction false} WrittenIsTaken(schedule: seq<Action>)
    requires Exec(schedule).Reached?
    ensures WritesTaken(Exec(schedule).state)
  {
    if schedule != [] {
      var n := |schedule| - 1;
      WrittenIsTaken(schedule[..n]);
      EveryRunIsSound(schedule[..n]);
      StepWritesTaken(Exec(schedule[..n]).state, schedule[n]);
    }
  }

  // ---- what the serve loop answers ----

  function TextBy(a: Action): seq<string> {
    if a.Serve? && a.v.Handle? then [a.v.text] else []
  }

  /** What the handled requests were answered with, in order. */
  function HandledTexts(schedule: seq<Action>): seq<string> {
    if schedule == [] then [] else HandledTexts(schedule[..|schedule| - 1]) + TextBy(schedule[|schedule| - 1])
  }

  function Texts(bs: seq<Body>): seq<string> {
    if bs == [] then [] else Texts(bs[..|bs| - 1]) + [bs[|bs| - 1].text]
  }

  function Answering(v: ServePC): seq<string> {
    if v.SSend? then [v.response.text] else []
  }

  /** The request being handled is the one received last, and the answers are what the handling gave. */
  ghost predicate Serves(s: State, texts: seq<string>) {
    && (s.serve.SHandle? ==> |s.consumed| > 0 && s.serve.request == s.consumed[|s.consumed| - 1])
    && texts == Texts(s.answered) + Answering(s.serve)
  }

  lemma ServeServes(s: State, v: ServeAction, texts: seq<string>)
    requires Serves(s, texts) && ServeEnabled(s, v)
    ensures Serves(NextServe(s, v), texts + TextBy(Serve(v)))
  {
    assert texts + [] == texts && Texts(s.answered) + [] == Texts(s.answered);
    if v.Send? {
      assert (s.answered + [s.serve.response])[..|s.answered|] == s.answered;
    }
  }

  lemma OthersServe(s: State, a: Action)
    requires Enabled(s, a) && !a.Serve?
    ensures var t := Next(s, a); t.serve == s.serve && t.consumed == s.consumed && t.answered == s.answered
  {}

  lemma StepServes(s: State, a: Action, texts: seq<string>)
    requires Serves(s, texts) && Enabled(s, a)
    ensures Serves(Next(s, a), texts + TextBy(a))
  {
    if a.Serve? {
      ServeServes(s, a.v, texts);
    } else {
      OthersServe(s, a);
      assert texts + [] == texts;
    }
  }

  /** In every run the answers carry what the handling of the requests gave, in the order of handling. */
  lemma {:induction false} AnswersAreHandled(schedule: seq<Action>)
    requires Exec(schedule).Reached?
    ensures Serves(Exec(schedule).state, HandledTexts(schedule))
  {
    if schedule != [] {
      var n := |schedule| - 1;
      AnswersAreHandled(schedule[..n]);
      StepServes(Exec(schedule[..n]).state, schedule[n], HandledTexts(schedule[..n]));
    }
  }

  // ---- why goroutines end ----

  ghost predicate ReaderCause(schedule: seq<Action>, g: nat, pc: ReaderPC) {
    && (pc == RFail ==> Reader(g, RequestFails) in schedule)
    && (pc == RCloseGo || ReaderExiting(pc) ==>
          || Reader(g, RequestFails) in schedule || Reader(g, DecodeFails) in schedule || Reader(g, Refuse) in schedule)
  }

  ghost predicate WriterCause(schedule: seq<Action>, g: nat, pc: WriterPC) {
    pc == WCloseGo || WriterExiting(pc) ==> Writer(g, RequestReturns) in schedule
  }

  ghost predicate ReadPipeCause(schedule: seq<Action>, g: nat, pc: HandlerPC) {
    pc == HFinish || pc == HDead ==>
      || ReadPipe(g, SeeCloser) in schedule || ReadPipe(g, SeeGo) in schedule || ReadPipe(g, Timeout) in schedule
  }

  ghost predicate WritePipeCause(schedule: seq<Action>, g: nat, pc: HandlerPC) {
    pc == HFinish || pc == HDead ==>
      || WritePipe(g, SeeCloser) in schedule || WritePipe(g, SeeGo) in schedule
      || WritePipe(g, SendClosedPipe) in schedule
  }

  ghost predicate Cause(schedule: seq<Action>, g: nat, x: Generation) {
    && ReaderCause(schedule, g, x.reader) && WriterCause(schedule, g, x.writer)
    && ReadPipeCause(schedule, g, x.readPipe) && WritePipeCause(schedule, g, x.writePipe)
  }

  /** A closer is closed only by a Close of the reader or the writer. */
  ghost predicate ClosersCause(schedule: seq<Action>, closers: seq<bool>) {
    forall g :: 0 <= g < |closers| && closers[g] ==>
      Reader(g, CloseLoaded) in schedule || Writer(g, CloseWriterLoaded) in schedule
  }

  ghost predicate Causes(schedule: seq<Action>, s: State) {
    && (forall g :: g in s.gens ==> Cause(schedule, g, s.gens[g]))
    && (s.keepAlive == KStopped <==> KeepAlive(ContextDone) in schedule)
  }

  lemma CauseStays(schedule: seq<Action>, a: Action, g: nat, x: Generation)
    requires Cause(schedule, g, x)
    ensures Cause(schedule + [a], g, x)
  {}

  lemma ReaderMoveCause(schedule: seq<Action>, g: nat, x: Generation, a: ReaderAction, current: nat)
    requires Cause(schedule, g, x) && ReaderMay(x.reader, a)
    ensures Cause(schedule + [Reader(g, a)], g, ReaderMove(x, a, current))
  {
    CauseStays(schedule, Reader(g, a), g, x);
    assert Reader(g, a) in schedule + [Reader(g, a)];
  }

  lemma WriterMoveCause(schedule: seq<Action>, g: nat, x: Generation, a: WriterAction, current: nat)
    requires Cause(schedule, g, x) && WriterMay(x.writer, a)
    ensures Cause(schedule + [Writer(g, a)], g, WriterMove(x, a, current))
  {
    CauseStays(schedule, Writer(g, a), g, x);
    assert Writer(g, a) in schedule + [Writer(g, a)];
  }

  lemma ReadPipeMoveCause(schedule: seq<Action>, g: nat, s: State, a: HandlerAction)
    requires g in s.gens && Cause(schedule, g, s.gens[g]) && ReadPipeEnabled(s, g, a)
    ensures Cause(schedule + [ReadPipe(g, a)], g, ReadPipeMove(s.gens[g], a, s.current))
  {
    CauseStays(schedule, ReadPipe(g, a), g, s.gens[g]);
    assert ReadPipe(g, a) in schedule + [ReadPipe(g, a)];
  }

  lemma WritePipeMoveCause(schedule: seq<Action>, g: nat, x: Generation, a: HandlerAction, current: nat, b: Body)
    requires Cause(schedule, g, x) && WritePipeMay(x.writePipe, a)
    ensures Cause(schedule + [WritePipe(g, a)], g, WritePipeMove(x, a, current, b))
  {
    CauseStays(schedule, WritePipe(g, a), g, x);
    assert WritePipe(g, a) in schedule + [WritePipe(g, a)];
  }

  /** A step of one goroutine of generation g. */
  lemma OneMoves(schedule: seq<Action>, s: State, t: State, a: Action, g: nat)
    requires Causes(schedule, s) && g in s.gens && g in t.gens && t.gens == s.gens[g := t.gens[g]]
    requires !a.KeepAlive? && t.keepAlive == s.keepAlive && Cause(schedule + [a], g, t.gens[g])
    ensures Causes(schedule + [a], t)
  {
    forall h | h in t.gens ensures Cause(schedule + [a], h, t.gens[h]) {
      if h != g {
        CauseStays(schedule, a, h, s.gens[h]);
      }
    }
  }

  lemma LoopCause(schedule: seq<Action>, s: State, a: Action)
    requires Causes(schedule, s) && Enabled(s, a) && (a.KeepAlive? || a.Serve?)
    ensures Causes(schedule + [a], Next(s, a))
  {
    var t := Next(s, a);
    assert a in schedule + [a];
    forall h | h in t.gens ensures Cause(schedule + [a], h, t.gens[h]) {
      if h in s.gens && t.gens[h] == s.gens[h] {
        CauseStays(schedule, a, h, s.gens[h]);
      }
    }
  }

  lemma StepHasCause(schedule: seq<Action>, s: State, a: Action)
    requires Causes(schedule, s) && Enabled(s, a)
    ensures Causes(schedule + [a], Next(s, a))
  {
    match a
    case Reader(g, r) =>
      ReaderMoveCause(schedule, g, s.gens[g], r, s.current);
      OneMoves(schedule, s, NextReader(s, g, r), a, g);
    case Writer(g, w) =>
      WriterMoveCause(schedule, g, s.gens[g], w, s.current);
      OneMoves(schedule, s, NextWriter(s, g, w), a, g);
    case ReadPipe(g, h) =>
      ReadPipeMoveCause(schedule, g, s, h);
      OneMoves(schedule, s, NextReadPipe(s, g, h), a, g);
    case WritePipe(g, h) =>
      WritePipeMoveCause(schedule, g, s.gens[g], h, s.current, if h == Take then s.outbox[0] else Body("", false, ""));
      OneMoves(schedule, s, NextWritePipe(s, g, h), a, g);
    case _ => LoopCause(schedule, s, a);
  }

  /**
    No goroutine ends without a reason in the schedule: a reader after a failed request, a failed decoding or a refused
    offer, a writer after its request returned, a handler after a closing, a timeout or a broken pipe, and the reconnect
    loop exactly after its context was done.
   */
  lemma {:induction false} EndsHaveCauses(schedule: seq<Action>)
    requires Exec(schedule).Reached?
    ensures Causes(schedule, Exec(schedule).state)
  {
    if schedule != [] {
      var n := |schedule| - 1;
      var before, a := schedule[..n], schedule[n];
      assert schedule == before + [a];
      EndsHaveCauses(before);
      StepHasCause(before, Exec(before).state, a);
    }
  }

  lemma ReaderCloses(schedule: seq<Action>, s: State, g: nat, a: ReaderAction)
    requires Discipline(s) && ClosersCause(schedule, s.closers) && ReaderEnabled(s, g, a)
    ensures ClosersCause(schedule + [Reader(g, a)], NextReader(s, g, a).closers)
  {
    assert GenerationOk(s.closers, g, s.gens[g]);
    assert Reader(g, a) in schedule + [Reader(g, a)];
  }

  lemma WriterCloses(schedule: seq<Action>, s: State, g: nat, a: WriterAction)
    requires Discipline(s) && ClosersCause(schedule, s.closers) && WriterEnabled(s, g, a)
    ensures ClosersCause(schedule + [Writer(g, a)], NextWriter(s, g, a).closers)
  {
    assert GenerationOk(s.closers, g, s.gens[g]);
    assert Writer(g, a) in schedule + [Writer(g, a)];
  }

  lemma OthersClose(schedule: seq<Action>, s: State, a: Action)
    requires ClosersCause(schedule, s.closers) && Enabled(s, a) && !a.Reader? && !a.Writer?
    ensures ClosersCause(schedule + [a], Next(s, a).closers)
  {}

  /** In every run a generation's closer is closed only by the Close of its own reader or writer. */
  lemma {:induction false} ClosersHaveCauses(schedule: seq<Action>)
    requires Exec(schedule).Reached?
    ensures ClosersCause(schedule, Exec(schedule).state.closers)
  {
    if schedule != [] {
      var n := |schedule| - 1;
      var before, a := schedule[..n], schedule[n];
      var s := Exec(before).state;
      assert schedule == before + [a];
      ClosersHaveCauses(before);
      EveryRunIsSound(before);
      if a.Reader? {
        ReaderCloses(before, s, a.g, a.r);
      } else if a.Writer? {
        WriterCloses(before, s, a.g, a.w);
      } else {
        OthersClose(before, s, a);
      }
    }
  }

  // ---- what can always happen next ----

  /** The serve loop goes on with whatever it has, and answers as long as the writer queue has room. */
  lemma ServeCanStep(s: State, text: string)
    ensures s.serve == SReceive && s.inbox != [] ==> Enabled(s, Serve(Receive))
    ensures s.serve.SHandle? ==> Enabled(s, Serve(Handle(text)))
    ensures s.serve.SSend? ==> (Enabled(s, Serve(Send)) <==> |s.outbox| < 20)
  {}

  /** A waiting writer handler takes an answer whenever there is one; a reader takes whatever the stream delivers. */
  lemma MessagesCanMove(s: State, g: nat, b: Body)
    requires g in s.gens
    ensures s.gens[g].writePipe.HWait? ==> (Enabled(s, WritePipe(g, Take)) <==> s.outbox != [])
    ensures s.gens[g].writePipe.HSend? ==> Enabled(s, WritePipe(g, Sent)) && Enabled(s, WritePipe(g, SendClosedPipe))
    ensures s.gens[g].readPipe.HWait? ==> Enabled(s, ReadPipe(g, Timeout)) && Enabled(s, ReadPipe(g, TickOnly))
    ensures s.gens[g].reader == RRequest ==> Enabled(s, Reader(g, ResponseOk))
    ensures s.gens[g].reader == RDecode ==> Enabled(s, Reader(g, Decoded(b)))
    ensures s.gens[g].reader.RSelect? && |s.inbox| < 20 ==> Enabled(s, Reader(g, Accept))
  {}

  /** A reader that handed a message on, or lost it to a full queue, reads the next. */
  lemma ReaderGoesOn(s: State, g: nat, a: ReaderAction)
    requires ReaderEnabled(s, g, a) && (a.Accept? || a.Drop? || a.ResponseOk?)
    ensures NextReader(s, g, a).gens[g].reader == RDecode
  {}

  /** The reconnect loop probes after every tick, and only a passed probe starts a reader and a writer. */
  lemma LoopGoesRound(s: State, k: KeepAliveAction)
    requires KeepAliveEnabled(s, k)
    ensures var t := NextKeepAlive(s, k);
      && (k == Tick ==> t.keepAlive == KProbe)
      && (k == ProbeFail || k == WriterExited ==> t.keepAlive == KTick && t.gens == s.gens)
      && (k == ProbeOk ==> t.keepAlive == KAwaitReader && t.gens.Keys == s.gens.Keys + {s.current})
      && (k == ReaderExited ==> t.keepAlive == KAwaitWriter)
  {}
}
