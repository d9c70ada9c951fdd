/**
  The fan-in of getEvents, getMetrics and getHealthStates (pkg/session/serve.go) as a step machine: one goroutine
  per requested entry answers through a buffered channel, in any order.
 */
module FanIn {
  /** What a component answered. */
  type Data = nat

  datatype Result = Result(component: string, data: Data)

  /** The goroutine of one entry. */
  datatype Sender = Unborn | Working | Ready(data: Data) | Sent(data: Data)

  datatype Collector = Spawning | Receiving | Closing | Returned

  datatype State = State(senders: seq<Sender>, spawned: nat, buffer: seq<Result>, out: seq<Result>,
    collector: Collector, closed: bool)

  datatype Action =
    | Spawn
    | Answer(i: nat, data: Data)
    | Send(i: nat)
    | Receive
    | Close

  /** The entries to ask: the request's own list, or the session's components if that is empty. */
  function Requested(payload: seq<string>, components: seq<string>): seq<string> {
    if |payload| > 0 then payload else components
  }

  function Init(names: seq<string>): State {
    State(seq(|names|, _ => Unborn), 0, [], [], if names == [] then Receiving else Spawning, false)
  }

  /** A send waits for room; sending on a closed channel is possible here, and panics in Go. */
  predicate Enabled(s: State, names: seq<string>, a: Action)
    requires |s.senders| == |names|
  {
    match a
    case Spawn => s.collector == Spawning && s.spawned < |names|
    case Answer(i, _) => i < |names| && s.senders[i] == Working
    case Send(i) => i < |names| && s.senders[i].Ready? && |s.buffer| < |names|
    case Receive => s.collector == Receiving && s.buffer != []
    case Close => s.collector == Closing
  }

  function Next(s: State, names: seq<string>, a: Action): State
    requires |s.senders| == |names| && Enabled(s, names, a)
  {
    match a
    case Spawn =>
      s.(senders := s.senders[s.spawned := Working], spawned := s.spawned + 1,
         collector := if s.spawned + 1 == |names| then Receiving else Spawning)
    case Answer(i, data) => s.(senders := s.senders[i := Ready(data)])
    case Send(i) =>
      s.(senders := s.senders[i := Sent(s.senders[i].data)], buffer := s.buffer + [Result(names[i], s.senders[i].data)])
    case Receive =>
      s.(out := s.out + [s.buffer[0]], buffer := s.buffer[1..],
         collector := if |s.out| + 1 == |names| then Closing else Receiving)
    case Close => s.(collector := Returned, closed := true)
  }

  datatype Outcome = Blocked | Reached(state: State)

  function Exec(schedule: seq<Action>, names: seq<string>): (o: Outcome)
    ensures o.Reached? ==> |o.state.senders| == |names|
  {
    if schedule == [] then Reached(Init(names)) else
    var before := Exec(schedule[..|schedule| - 1], names);
    var a := schedule[|schedule| - 1];
    if before.Blocked? || !Enabled(before.state, names, a) then Blocked else Reached(Next(before.state, names, a))
  }

  // ---- what every step keeps ----

  /** The results of the entries whose goroutine sent its answer. */
  function Delivered(names: seq<string>, senders: seq<Sender>): multiset<Result>
    requires |names| == |senders|
  {
    if names == [] then multiset{}
    else
      var n := |names| - 1;
      Delivered(names[..n], senders[..n]) + if senders[n].Sent? then multiset{Result(names[n], senders[n].data)}
        else multiset{}
  }

  /** How many steps each goroutine took. */
  function Stage(s: Sender): nat {
    match s
    case Unborn => 0
    case Working => 1
    case Ready(_) => 2
    case Sent(_) => 3
  }

  function Stages(senders: seq<Sender>): nat {
    if senders == [] then 0 else Stages(senders[..|senders| - 1]) + Stage(senders[|senders| - 1])
  }

  lemma {:induction false} StagesUpdate(senders: seq<Sender>, i: nat, x: Sender)
    requires i < |senders|
    ensures Stages(senders[i := x]) + Stage(senders[i]) == Stages(senders) + Stage(x)
  {
    var n := |senders| - 1;
    if i < n {
      StagesUpdate(senders[..n], i, x);
      assert senders[i := x][..n] == senders[..n][i := x];
    } else {
      assert senders[i := x][..n] == senders[..n];
    }
  }

  lemma {:induction false} DeliveredUpdate(names: seq<string>, senders: seq<Sender>, i: nat, x: Sender)
    requires |names| == |senders| && i < |names| && !senders[i].Sent?
    ensures Delivered(names, senders[i := x])
      == Delivered(names, senders) + if x.Sent? then multiset{Result(names[i], x.data)} else multiset{}
  {
    var n := |names| - 1;
    if i < n {
      DeliveredUpdate(names[..n], senders[..n], i, x);
      assert senders[i := x][..n] == senders[..n][i := x];
    } else {
      assert senders[i := x][..n] == senders[..n];
    }
  }

  /** At most one result per entry, and all of them exactly when every goroutine sent. */
  lemma {:induction false} DeliveredCount(names: seq<string>, senders: seq<Sender>)
    requires |names| == |senders|
    ensures |Delivered(names, senders)| <= |names|
    ensures |Delivered(names, senders)| == |names| <==> forall i :: 0 <= i < |names| ==> senders[i].Sent?
  {
    if names != [] {
      var n := |names| - 1;
      DeliveredCount(names[..n], senders[..n]);
      assert forall i :: 0 <= i < n ==> senders[..n][i] == senders[i];
    }
  }

  ghost predicate SpawnedOk(senders: seq<Sender>, spawned: nat) {
    spawned <= |senders| && forall i :: 0 <= i < |senders| ==> (senders[i].Unborn? <==> i >= spawned)
  }

  ghost predicate CollectorOk(c: Collector, closed: bool, n: nat, spawned: nat, received: nat) {
    && (c == Spawning <==> spawned < n) && (c == Spawning ==> received == 0)
    && (c == Receiving ==> n == 0 || received < n) && (c == Closing || c == Returned ==> n > 0 && received == n)
    && (closed <==> c == Returned)
  }

  /** What was received and what is in the channel is what was sent. */
  ghost predicate ResultsOk(names: seq<string>, senders: seq<Sender>, out: seq<Result>, buffer: seq<Result>)
    requires |names| == |senders|
  {
    multiset(out) + multiset(buffer) == Delivered(names, senders)
  }

  ghost predicate Inv(s: State, names: seq<string>) {
    && |s.senders| == |names|
    && SpawnedOk(s.senders, s.spawned)
    && CollectorOk(s.collector, s.closed, |names|, s.spawned, |s.out|)
    && ResultsOk(names, s.senders, s.out, s.buffer)
  }

  lemma {:induction false} NoneDelivered(names: seq<string>, senders: seq<Sender>)
    requires |names| == |senders| && forall i :: 0 <= i < |senders| ==> senders[i].Unborn?
    ensures Delivered(names, senders) == multiset{} && Stages(senders) == 0
  {
    if names != [] {
      NoneDelivered(names[..|names| - 1], senders[..|names| - 1]);
    }
  }

  lemma InitIsSound(names: seq<string>)
    ensures Inv(Init(names), names)
  {
    NoneDelivered(names, Init(names).senders);
  }

  lemma ReceiveKeepsResults(out: seq<Result>, buffer: seq<Result>)
    requires buffer != []
    ensures multiset(out + [buffer[0]]) + multiset(buffer[1..]) == multiset(out) + multiset(buffer)
  {
    assert buffer == [buffer[0]] + buffer[1..];
  }

  lemma AnswerKeepsInv(s: State, names: seq<string>, a: Action)
    requires Inv(s, names) && Enabled(s, names, a) && a.Answer?
    ensures Inv(Next(s, names, a), names)
  {
    DeliveredUpdate(names, s.senders, a.i, Ready(a.data));
  }

  lemma SendKeepsResults(names: seq<string>, senders: seq<Sender>, out: seq<Result>, buffer: seq<Result>, i: nat,
                         data: Data)
    requires |names| == |senders| && i < |names| && !senders[i].Sent? && ResultsOk(names, senders, out, buffer)
    ensures ResultsOk(names, senders[i := Sent(data)], out, buffer + [Result(names[i], data)])
  {
    DeliveredUpdate(names, senders, i, Sent(data));
  }

  lemma SendKeepsInv(s: State, names: seq<string>, a: Action)
    requires Inv(s, names) && Enabled(s, names, a) && a.Send?
    ensures Inv(Next(s, names, a), names)
  {
    SendKeepsResults(names, s.senders, s.out, s.buffer, a.i, s.senders[a.i].data);
  }

  lemma StepKeepsInv(s: State, names: seq<string>, a: Action)
    requires Inv(s, names) && Enabled(s, names, a)
    ensures Inv(Next(s, names, a), names)
  {
    match a
    case Spawn => DeliveredUpdate(names, s.senders, s.spawned, Working);
    case Answer(_, _) => AnswerKeepsInv(s, names, a);
    case Send(_) => SendKeepsInv(s, names, a);
    case Receive => ReceiveKeepsResults(s.out, s.buffer);
    case Close =>
  }

  lemma {:induction false} EveryRunIsSound(schedule: seq<Action>, names: seq<string>)
    requires Exec(schedule, names).Reached?
    ensures Inv(Exec(schedule, names).state, names)
  {
    if schedule == [] {
      InitIsSound(names);
    } else {
      var n := |schedule| - 1;
      EveryRunIsSound(schedule[..n], names);
      StepKeepsInv(Exec(schedule[..n], names).state, names, schedule[n]);
    }
  }

  ghost predicate Reachable(s: State, names: seq<string>) {
    exists schedule :: Exec(schedule, names) == Reached(s)
  }

  lemma ReachableIsSound(s: State, names: seq<string>)
    requires Reachable(s, names)
    ensures Inv(s, names)
  {
    var schedule :| Exec(schedule, names) == Reached(s);
    EveryRunIsSound(schedule, names);
  }

  // ---- main results ----

  function Components(results: seq<Result>): (names: seq<string>)
    ensures |names| == |results| && forall i :: 0 <= i < |names| ==> names[i] == results[i].component
  {
    seq(|results|, i requires 0 <= i < |results| => results[i].component)
  }

  lemma CancelOne<T>(a: multiset<T>, b: multiset<T>, x: T)
    requires a + multiset{x} == b + multiset{x}
    ensures a == b
  {
    assert a == a + multiset{x} - multiset{x};
    assert b == b + multiset{x} - multiset{x};
  }

  /** Taking one result out of a sequence takes its component out of the components. */
  lemma RemoveResult(results: seq<Result>, k: nat)
    requires k < |results|
    ensures var rest := results[..k] + results[k + 1..];
      && multiset(rest) + multiset{results[k]} == multiset(results)
      && multiset(Components(rest)) + multiset{results[k].component} == multiset(Components(results))
  {
    var rest, names := results[..k] + results[k + 1..], Components(results);
    assert results == results[..k] + [results[k]] + results[k + 1..];
    assert names == names[..k] + [names[k]] + names[k + 1..];
    assert Components(rest) == names[..k] + names[k + 1..];
  }

  lemma TakeOut(results: seq<Result>, r: Result, others: multiset<Result>) returns (rest: seq<Result>)
    requires multiset(results) == others + multiset{r}
    ensures multiset(rest) == others
    ensures multiset(Components(rest)) + multiset{r.component} == multiset(Components(results))
  {
    assert r in multiset(results);
    var k :| 0 <= k < |results| && results[k] == r;
    rest := results[..k] + results[k + 1..];
    RemoveResult(results, k);
    CancelOne(multiset(rest), others, r);
  }

  /** Results that are all delivered ones name the entries, each as often as it was asked for. */
  lemma {:induction false} DeliveredNames(results: seq<Result>, names: seq<string>, senders: seq<Sender>)
    requires |names| == |senders| && (forall i :: 0 <= i < |names| ==> senders[i].Sent?)
    requires multiset(results) == Delivered(names, senders)
    ensures multiset(Components(results)) == multiset(names)
    decreases |names|
  {
    if names == [] {
      assert |multiset(results)| == 0;
    } else {
      var n := |names| - 1;
      var r := Result(names[n], senders[n].data);
      var rest := TakeOut(results, r, Delivered(names[..n], senders[..n]));
      DeliveredNames(rest, names[..n], senders[..n]);
      assert names == names[..n] + [names[n]];
    }
  }

  /** A call that returns holds exactly one result per requested entry, and what each goroutine answered. */
  lemma OneResultPerEntry(s: State, names: seq<string>)
    requires Reachable(s, names) && s.collector == Returned
    ensures |s.out| == |names| && s.buffer == []
    ensures multiset(Components(s.out)) == multiset(names)
    ensures multiset(s.out) == Delivered(names, s.senders) && forall i :: 0 <= i < |names| ==> s.senders[i].Sent?
  {
    ReachableIsSound(s, names);
    DeliveredCount(names, s.senders);
    assert |multiset(s.out) + multiset(s.buffer)| == |s.out| + |s.buffer|;
    assert multiset(s.buffer) == multiset{};
    DeliveredNames(s.out, names, s.senders);
  }

  /** Nothing is sent on the closed channel: when it is closed every goroutine has sent. */
  lemma NoSendAfterClose(s: State, names: seq<string>, i: nat)
    requires Reachable(s, names) && i < |names| && s.closed
    ensures |s.senders| == |names| && s.senders[i].Sent? && !Enabled(s, names, Send(i))
  {
    ReachableIsSound(s, names);
    OneResultPerEntry(s, names);
  }

  /** No sender ever waits for room in the channel. */
  lemma NoSenderBlocks(s: State, names: seq<string>, i: nat)
    requires Reachable(s, names) && i < |names| && |s.senders| == |names| && s.senders[i].Ready?
    ensures Enabled(s, names, Send(i))
  {
    ReachableIsSound(s, names);
    DeliveredCount(names, s.senders);
    assert |multiset(s.out) + multiset(s.buffer)| == |s.out| + |s.buffer|;
  }

  // ---- the call returns ----

  function Progress(s: State): nat {
    Stages(s.senders) + |s.out| + if s.closed then 1 else 0
  }

  lemma StepIsProgress(s: State, names: seq<string>, a: Action)
    requires Inv(s, names) && Enabled(s, names, a)
    ensures Progress(Next(s, names, a)) == Progress(s) + 1
  {
    match a
    case Spawn => StagesUpdate(s.senders, s.spawned, Working);
    case Answer(i, data) => StagesUpdate(s.senders, i, Ready(data));
    case Send(i) => StagesUpdate(s.senders, i, Sent(s.senders[i].data));
    case Receive =>
    case Close =>
  }

  lemma {:induction false} StagesBound(senders: seq<Sender>)
    ensures Stages(senders) <= 3 * |senders|
  {
    if senders != [] {
      StagesBound(senders[..|senders| - 1]);
    }
  }

  lemma {:induction false} LengthIsProgress(schedule: seq<Action>, names: seq<string>)
    requires Exec(schedule, names).Reached?
    ensures Progress(Exec(schedule, names).state) == |schedule|
  {
    if schedule == [] {
      NoneDelivered(names, Init(names).senders);
    } else {
      var n := |schedule| - 1;
      LengthIsProgress(schedule[..n], names);
      EveryRunIsSound(schedule[..n], names);
      StepIsProgress(Exec(schedule[..n], names).state, names, schedule[n]);
    }
  }

  /** A step the state allows. */
  ghost predicate CanStep(s: State, names: seq<string>)
    requires |s.senders| == |names|
  {
    exists a :: Enabled(s, names, a)
  }

  lemma SenderCanStep(s: State, names: seq<string>, i: nat)
    requires Inv(s, names) && i < |names| && (s.senders[i].Working? || (s.senders[i].Ready? && |s.buffer| < |names|))
    ensures CanStep(s, names)
  {
    if s.senders[i].Working? {
      assert Enabled(s, names, Answer(i, 0));
    } else {
      assert Enabled(s, names, Send(i));
    }
  }

  /** With entries to ask, a call that has not returned can always go on. */
  lemma NeverStuck(s: State, names: seq<string>)
    requires Inv(s, names) && names != [] && s.collector != Returned
    ensures CanStep(s, names)
  {
    DeliveredCount(names, s.senders);
    assert |multiset(s.out) + multiset(s.buffer)| == |s.out| + |s.buffer|;
    if s.collector == Spawning {
      assert Enabled(s, names, Spawn);
    } else if s.collector == Closing {
      assert Enabled(s, names, Close);
    } else if s.buffer != [] {
      assert Enabled(s, names, Receive);
    } else {
      assert exists i :: 0 <= i < |names| && !s.senders[i].Sent?;
      var i :| 0 <= i < |names| && !s.senders[i].Sent?;
      SenderCanStep(s, names, i);
    }
  }

  /**
    Every run is at most 4n + 1 steps long, and one that can go no further has returned, if there was an entry to
    ask; with none the call waits for ever on its channel.
   */
  lemma ReturnsIffNonEmpty(schedule: seq<Action>, names: seq<string>)
    requires Exec(schedule, names).Reached?
    ensures |schedule| <= 4 * |names| + 1
    ensures var s := Exec(schedule, names).state; !CanStep(s, names) ==> (s.collector == Returned <==> names != [])
  {
    var s := Exec(schedule, names).state;
    EveryRunIsSound(schedule, names);
    LengthIsProgress(schedule, names);
    StagesBound(s.senders);
    DeliveredCount(names, s.senders);
    assert |multiset(s.out) + multiset(s.buffer)| == |s.out| + |s.buffer|;
    if names != [] && s.collector != Returned {
      NeverStuck(s, names);
    }
  }

  /** Without entries no step at all is possible. */
  lemma EmptyListWaitsForever(a: Action)
    ensures !Enabled(Init([]), [], a)
  {}

  /** The list is empty only if both the request and the session name no component. */
  lemma RequestedIsEmpty(payload: seq<string>, components: seq<string>)
    ensures Requested(payload, components) == [] <==> payload == [] && components == []
  {}

  /**
    A request for the components of its payload or, without any, of the session: a run that can go no further has
    returned one result per requested entry, unless neither names a component; then it has not returned.
   */
  lemma RequestIsAnswered(schedule: seq<Action>, payload: seq<string>, components: seq<string>)
    requires Exec(schedule, Requested(payload, components)).Reached?
    requires !CanStep(Exec(schedule, Requested(payload, components)).state, Requested(payload, components))
    ensures var s := Exec(schedule, Requested(payload, components)).state;
            if payload == [] && components == [] then s.collector != Returned
            else s.collector == Returned && multiset(Components(s.out)) == multiset(if payload != []
              then payload else components)
  {
    var names := Requested(payload, components);
    RequestedIsEmpty(payload, components);
    ReturnsIffNonEmpty(schedule, names);
    var s := Exec(schedule, names).state;
    assert Reachable(s, names);
    if s.collector == Returned {
      OneResultPerEntry(s, names);
    }
  }

  // ---- which answers are returned, and in which order ----

  /** What the goroutine of entry i answered. */
  function AnswerOf(schedule: seq<Action>, i: nat): Data {
    if schedule == [] then 0
    else
      var a := schedule[|schedule| - 1];
      if a.Answer? && a.i == i then a.data else AnswerOf(schedule[..|schedule| - 1], i)
  }

  /** The results in the order in which they were sent. */
  function SentInOrder(schedule: seq<Action>, names: seq<string>): seq<Result> {
    if schedule == [] then []
    else
      var before, a := schedule[..|schedule| - 1], schedule[|schedule| - 1];
      SentInOrder(before, names) +
      if a.Send? && a.i < |names| then [Result(names[a.i], AnswerOf(before, a.i))] else []
  }

  ghost predicate Holds(s: Sender, data: Data) {
    (s.Ready? || s.Sent?) ==> s.data == data
  }

  ghost predicate AnswersOk(senders: seq<Sender>, schedule: seq<Action>) {
    forall i :: 0 <= i < |senders| ==> Holds(senders[i], AnswerOf(schedule, i))
  }

  lemma StepKeepsAnswers(schedule: seq<Action>, s: State, names: seq<string>, a: Action)
    requires |s.senders| == |names| && AnswersOk(s.senders, schedule) && Enabled(s, names, a)
    ensures AnswersOk(Next(s, names, a).senders, schedule + [a])
  {
    assert (schedule + [a])[..|schedule|] == schedule;
    forall i | 0 <= i < |names| ensures Holds(Next(s, names, a).senders[i], AnswerOf(schedule + [a], i)) {
      assert Holds(s.senders[i], AnswerOf(schedule, i));
    }
  }

  lemma StepKeepsOrder(schedule: seq<Action>, s: State, names: seq<string>, a: Action)
    requires |s.senders| == |names| && AnswersOk(s.senders, schedule) && Enabled(s, names, a)
    requires s.out + s.buffer == SentInOrder(schedule, names)
    ensures Next(s, names, a).out + Next(s, names, a).buffer == SentInOrder(schedule + [a], names)
  {
    assert (schedule + [a])[..|schedule|] == schedule;
    var t := Next(s, names, a);
    if a.Send? {
      assert Holds(s.senders[a.i], AnswerOf(schedule, a.i));
      assert t.out + t.buffer == s.out + s.buffer + [Result(names[a.i], AnswerOf(schedule, a.i))];
    } else if a.Receive? {
      assert s.buffer == [s.buffer[0]] + s.buffer[1..];
    }
  }

  /** The call collects what the goroutines answered, each result under its entry's name, in the order of sending. */
  lemma {:induction false} ResultsInSendingOrder(schedule: seq<Action>, names: seq<string>)
    requires Exec(schedule, names).Reached?
    ensures AnswersOk(Exec(schedule, names).state.senders, schedule)
    ensures Exec(schedule, names).state.out + Exec(schedule, names).state.buffer == SentInOrder(schedule, names)
  {
    if schedule != [] {
      var n := |schedule| - 1;
      ResultsInSendingOrder(schedule[..n], names);
      StepKeepsAnswers(schedule[..n], Exec(schedule[..n], names).state, names, schedule[n]);
      StepKeepsOrder(schedule[..n], Exec(schedule[..n], names).state, names, schedule[n]);
      assert schedule == schedule[..n] + [schedule[n]];
    }
  }
}
