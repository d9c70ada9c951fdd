/** The kernel-log syncer (pkg/kmsg/syncer.go): match, look up, insert. */
module Syncer {
  import opened Text
  import opened EventStore
  import opened Kmsg

  /** The matched event name, empty for no match, and the event message. */
  type MatchFunc = string -> (string, string)

  function Matched(m: Message, f: MatchFunc): Event {
    Event(m.timestamp, f(m.text).0, "Warning", f(m.text).1, map[])
  }

  /** The rows after handling one event (lines 59-89). */
  ghost function SyncOne(rows: seq<Row>, e: Event): seq<Row> {
    if e.name == "" || Holds(rows, e) then rows else rows + [ToRow(e)]
  }

  ghost function Synced(rows: seq<Row>, ms: seq<Message>, f: MatchFunc): seq<Row> {
    if ms == [] then rows else SyncOne(Synced(rows, ms[..|ms| - 1], f), Matched(ms[|ms| - 1], f))
  }

  /** Whether the store fails on the lookup and on the insertion for one message. */
  datatype Fault = Fault(find: bool, insert: bool)

  /** A failed lookup is logged and counts as a miss; a failed insertion is logged and loses the event. */
  ghost function SyncOneFaulty(rows: seq<Row>, e: Event, fault: Fault): seq<Row> {
    if e.name == "" || (!fault.find && Holds(rows, e)) || fault.insert then rows else rows + [ToRow(e)]
  }

  ghost function SyncedFaulty(rows: seq<Row>, ms: seq<Message>, f: MatchFunc, faults: seq<Fault>): seq<Row>
    requires |faults| == |ms|
  {
    if ms == [] then rows
    else
      var n := |ms| - 1;
      SyncOneFaulty(SyncedFaulty(rows, ms[..n], f, faults[..n]), Matched(ms[n], f), faults[n])
  }

  /** Syncer.sync until its channel is closed; `faults` says where the store fails. */
  method Sync(ms: seq<Message>, f: MatchFunc, faults: seq<Fault>, bucket: Table)
    requires |faults| == |ms|
    modifies bucket
    ensures bucket.rows == SyncedFaulty(old(bucket.rows), ms, f, faults)
  {
    for i := 0 to |ms|
      invariant bucket.rows == SyncedFaulty(old(bucket.rows), ms[..i], f, faults[..i])
    {
      assert ms[..i + 1][..i] == ms[..i] && faults[..i + 1][..i] == faults[..i];
      var event := Matched(ms[i], f);
      if event.name == "" {
        continue;
      }
      var same: Option<Event> := None;
      if !faults[i].find {
        same := bucket.Find(event);
      }
      if same.Some? {
        continue;
      }
      if !faults[i].insert {
        bucket.Insert(event);
      }
    }
    assert ms[..|ms|] == ms && faults[..|ms|] == faults;
  }

  /** A store that does not fail. */
  lemma {:induction false} WithoutFaults(rows: seq<Row>, ms: seq<Message>, f: MatchFunc, faults: seq<Fault>)
    requires |faults| == |ms| && forall i :: 0 <= i < |faults| ==> faults[i] == Fault(false, false)
    ensures SyncedFaulty(rows, ms, f, faults) == Synced(rows, ms, f)
  {
    if ms != [] {
      WithoutFaults(rows, ms[..|ms| - 1], f, faults[..|ms| - 1]);
    }
  }

  /**
    Whatever fails, stored rows stay, and each new one is the row of a matched message; and as long as no insertion
    fails, every matched message is found afterwards, so a failing lookup costs duplicates but no event. If every
    insertion fails nothing is stored.
   */
  lemma {:induction false} FaultsLoseOnlyInsertions(rows: seq<Row>, ms: seq<Message>, f: MatchFunc, faults: seq<Fault>)
    requires |faults| == |ms|
    ensures var after := SyncedFaulty(rows, ms, f, faults);
      && rows <= after
      && (forall r :: r in after[|rows|..] ==> r in Wanted(ms, f))
      && ((forall i :: 0 <= i < |faults| ==> faults[i].insert) ==> after == rows)
      && ((forall i :: 0 <= i < |faults| ==> !faults[i].insert) ==>
            forall i :: 0 <= i < |ms| && Matched(ms[i], f).name != "" ==> Holds(after, Matched(ms[i], f)))
  {
    if ms != [] {
      var n := |ms| - 1;
      var before, e := SyncedFaulty(rows, ms[..n], f, faults[..n]), Matched(ms[n], f);
      FaultsLoseOnlyInsertions(rows, ms[..n], f, faults[..n]);
      FaultyStep(rows, before, e, faults[n]);
      if forall i :: 0 <= i < |faults| ==> !faults[i].insert {
        forall i | 0 <= i < |ms| && Matched(ms[i], f).name != ""
          ensures Holds(SyncOneFaulty(before, e, faults[n]), Matched(ms[i], f))
        {
          if i < n {
            assert ms[..n][i] == ms[i];
            HoldsFaulty(before, e, faults[n], Matched(ms[i], f));
          }
        }
      }
    }
  }

  lemma FaultyStep(rows: seq<Row>, before: seq<Row>, e: Event, fault: Fault)
    requires rows <= before
    ensures var after := SyncOneFaulty(before, e, fault);
      && rows <= after
      && (forall r :: r in after[|rows|..] ==> r in before[|rows|..] || (e.name != "" && r == ToRow(e)))
      && (e.name != "" && !fault.insert ==> Holds(after, e))
  {
    var after := SyncOneFaulty(before, e, fault);
    if after != before {
      assert after[|rows|..] == before[|rows|..] + [ToRow(e)];
      assert Matches(after[|before|], e);
    }
  }

  lemma HoldsFaulty(rows: seq<Row>, e: Event, fault: Fault, d: Event)
    requires Holds(rows, d)
    ensures Holds(SyncOneFaulty(rows, e, fault), d)
  {
    var i :| 0 <= i < |rows| && Matches(rows[i], d);
    assert SyncOneFaulty(rows, e, fault)[i] == rows[i];
  }

  // ---- the deduper is transparent ----

  /** Keeps some of the messages. */
  function Keep(ms: seq<Message>, keep: seq<bool>): seq<Message>
    requires |keep| == |ms|
  {
    if ms == [] then []
    else Keep(ms[..|ms| - 1], keep[..|ms| - 1]) + if keep[|ms| - 1] then [ms[|ms| - 1]] else []
  }

  ghost predicate Repeated(ms: seq<Message>, i: nat)
    requires i < |ms|
  {
    exists j :: 0 <= j < i && SameSecondAndText(ms[j], ms[i])
  }

  /** Only messages whose cache key occurred earlier are left out. */
  ghost predicate DropsRepeats(ms: seq<Message>, keep: seq<bool>) {
    |keep| == |ms| && forall i :: 0 <= i < |ms| && !keep[i] ==> Repeated(ms, i)
  }

  lemma DropsRepeatsPrefix(ms: seq<Message>, keep: seq<bool>, n: nat)
    requires DropsRepeats(ms, keep) && n <= |ms|
    ensures DropsRepeats(ms[..n], keep[..n])
  {
    forall i | 0 <= i < n && !keep[..n][i] ensures Repeated(ms[..n], i) {
      assert Repeated(ms, i);
      var j :| 0 <= j < i && SameSecondAndText(ms[j], ms[i]);
      assert SameSecondAndText(ms[..n][j], ms[..n][i]);
    }
  }

  lemma HoldsLonger(rows: seq<Row>, e: Event, d: Event)
    requires Holds(rows, d)
    ensures Holds(SyncOne(rows, e), d)
  {
    var i :| 0 <= i < |rows| && Matches(rows[i], d);
    assert SyncOne(rows, e)[i] == rows[i];
  }

  lemma {:induction false} HandledIsHeld(rows: seq<Row>, ms: seq<Message>, f: MatchFunc, j: nat)
    requires j < |ms| && Matched(ms[j], f).name != ""
    ensures Holds(Synced(rows, ms, f), Matched(ms[j], f))
  {
    var n := |ms| - 1;
    var before := Synced(rows, ms[..n], f);
    if j < n {
      HandledIsHeld(rows, ms[..n], f, j);
      HoldsLonger(before, Matched(ms[n], f), Matched(ms[j], f));
    } else if !Holds(before, Matched(ms[n], f)) {
      FoundAfterInsert(before, Matched(ms[n], f), []);
      assert before + [ToRow(Matched(ms[n], f))] + [] == before + [ToRow(Matched(ms[n], f))];
    }
  }

  /** Handling a message again, or one with the same key, changes nothing. */
  lemma RepeatIsNoOp(rows: seq<Row>, ms: seq<Message>, f: MatchFunc, j: nat, m: Message)
    requires j < |ms| && SameSecondAndText(ms[j], m)
    ensures SyncOne(Synced(rows, ms, f), Matched(m, f)) == Synced(rows, ms, f)
  {
    if Matched(m, f).name != "" {
      HandledIsHeld(rows, ms, f, j);
      var held := Synced(rows, ms, f);
      var i :| 0 <= i < |held| && Matches(held[i], Matched(ms[j], f));
      assert Matches(held[i], Matched(m, f));
    }
  }

  /** Leaving out repeats in any way, whatever the bucket held before, leads to the same rows. */
  lemma {:induction false} DroppingRepeatsIsTransparent(rows: seq<Row>, ms: seq<Message>, keep: seq<bool>, f: MatchFunc)
    requires DropsRepeats(ms, keep)
    ensures Synced(rows, Keep(ms, keep), f) == Synced(rows, ms, f)
  {
    if ms != [] {
      var n := |ms| - 1;
      DropsRepeatsPrefix(ms, keep, n);
      DroppingRepeatsIsTransparent(rows, ms[..n], keep[..n], f);
      if keep[n] {
        var kept := Keep(ms[..n], keep[..n]);
        assert (kept + [ms[n]])[..|kept|] == kept;
      } else {
        assert Repeated(ms, n);
        var j :| 0 <= j < n && SameSecondAndText(ms[j], ms[n]);
        RepeatIsNoOp(rows, ms[..n], f, j, ms[n]);
        assert Keep(ms, keep) == Keep(ms[..n], keep[..n]);
      }
    }
  }

  lemma {:induction false} AllIsPointwise(ms: seq<Stamped>)
    ensures |All(ms)| == |ms| && forall i :: 0 <= i < |ms| ==> All(ms)[i] == ms[i].message
  {
    if ms != [] {
      AllIsPointwise(ms[..|ms| - 1]);
    }
  }

  lemma NotPassingIsRepeated(ms: seq<Stamped>, expiration: int)
    requires ms != [] && Frequency(Calls(ms), expiration) != 1
    ensures |All(ms)| == |ms| && Repeated(All(ms), |ms| - 1)
  {
    var n := |ms| - 1;
    AllIsPointwise(ms);
    RepeatsIffKeySeen(ms);
    assert Repeats(ms);
    var i :| 0 <= i < n && SameSecondAndText(ms[i].message, ms[n].message);
    assert SameSecondAndText(All(ms)[i], All(ms)[n]);
  }

  lemma DropsRepeatsAppend(ms: seq<Message>, keep: seq<bool>, m: Message, passes: bool)
    requires DropsRepeats(ms, keep) && (!passes ==> Repeated(ms + [m], |ms|))
    ensures DropsRepeats(ms + [m], keep + [passes])
    ensures Keep(ms + [m], keep + [passes]) == Keep(ms, keep) + if passes then [m] else []
  {
    forall i | 0 <= i < |ms| && !keep[i] ensures Repeated(ms + [m], i) {
      assert Repeated(ms, i);
      var j :| 0 <= j < i && SameSecondAndText(ms[j], ms[i]);
      assert SameSecondAndText((ms + [m])[j], (ms + [m])[i]);
    }
    assert (ms + [m])[..|ms|] == ms && (keep + [passes])[..|ms|] == keep;
  }

  /** A deduper's decisions leave out only repeats, for every expiration and every clock. */
  lemma {:induction false} DeduperDropsRepeats(ms: seq<Stamped>, expiration: int) returns (keep: seq<bool>)
    ensures DropsRepeats(All(ms), keep) && Keep(All(ms), keep) == Passing(ms, expiration)
  {
    if ms == [] {
      keep := [];
    } else {
      var n := |ms| - 1;
      var before := DeduperDropsRepeats(ms[..n], expiration);
      var passes := Frequency(Calls(ms), expiration) == 1;
      AllIsPointwise(ms[..n]);
      if !passes {
        NotPassingIsRepeated(ms, expiration);
      }
      DropsRepeatsAppend(All(ms[..n]), before, ms[n].message, passes);
      keep := before + [passes];
    }
  }

  /** The bucket ends up with the same rows with the deduper, for any expiration, as without it. */
  lemma DedupIsTransparent(rows: seq<Row>, ms: seq<Stamped>, expiration: int, f: MatchFunc)
    ensures Synced(rows, Passing(ms, expiration), f) == Synced(rows, All(ms), f)
  {
    var keep := DeduperDropsRepeats(ms, expiration);
    DroppingRepeatsIsTransparent(rows, All(ms), keep, f);
  }

  // ---- one row per distinct second, name and message ----

  /** The rows of the matched events, one per message. */
  function Wanted(ms: seq<Message>, f: MatchFunc): seq<Row> {
    if ms == [] then []
    else
      var e := Matched(ms[|ms| - 1], f);
      Wanted(ms[..|ms| - 1], f) + if e.name == "" then [] else [ToRow(e)]
  }

  /** The row the source's event becomes: the message's second, the matched name and message, type Warning. */
  function RowFor(m: Message, f: MatchFunc): Row {
    var (name, message) := f(m.text);
    Row(m.timestamp / 1_000_000_000, name, "Warning", if message == "" then Null else Value(message), map[])
  }

  /** The rows of the messages that match, one per message, in order. */
  function RowsFor(ms: seq<Message>, f: MatchFunc): seq<Row> {
    if ms == [] then []
    else
      var before, m := RowsFor(ms[..|ms| - 1], f), ms[|ms| - 1];
      if f(m.text).0 == "" then before else before + [RowFor(m, f)]
  }

  lemma {:induction false} WantedAreRows(ms: seq<Message>, f: MatchFunc)
    ensures Wanted(ms, f) == RowsFor(ms, f)
  {
    if ms != [] {
      WantedAreRows(ms[..|ms| - 1], f);
    }
  }

  lemma {:induction false} RowsForExactly(ms: seq<Message>, f: MatchFunc, r: Row)
    ensures r in RowsFor(ms, f) <==> exists i :: 0 <= i < |ms| && f(ms[i].text).0 != "" && r == RowFor(ms[i], f)
  {
    if ms != [] {
      var n := |ms| - 1;
      RowsForExactly(ms[..n], f, r);
      if i :| 0 <= i < n && f(ms[..n][i].text).0 != "" && r == RowFor(ms[..n][i], f) {
        assert ms[i] == ms[..n][i];
      }
      if i :| 0 <= i < |ms| && f(ms[i].text).0 != "" && r == RowFor(ms[i], f) {
        assert i < n ==> ms[..n][i] == ms[i];
      }
    }
  }

  /**
    From an empty bucket, every stored row is that of a message that matches, at the message's second; and every such
    message has a stored row of its second and name, with its own event message unless that is empty.
   */
  lemma RowsAreOfMessages(ms: seq<Message>, f: MatchFunc)
    ensures forall r :: r in Synced([], ms, f) ==>
              exists i :: 0 <= i < |ms| && f(ms[i].text).0 != "" && r == RowFor(ms[i], f)
    ensures forall i :: 0 <= i < |ms| && f(ms[i].text).0 != "" ==> CoveredBy(Synced([], ms, f), RowFor(ms[i], f))
  {
    var es := RowsFor(ms, f);
    SyncedIsUncovered(ms, f);
    WantedAreRows(ms, f);
    forall r | r in Uncovered(es)
      ensures exists i :: 0 <= i < |ms| && f(ms[i].text).0 != "" && r == RowFor(ms[i], f)
    {
      UncoveredCovers(es, r);
      RowsForExactly(ms, f, r);
    }
    forall i | 0 <= i < |ms| && f(ms[i].text).0 != "" ensures CoveredBy(Uncovered(es), RowFor(ms[i], f)) {
      var r := RowFor(ms[i], f);
      RowsForExactly(ms, f, r);
      var j :| 0 <= j < |es| && es[j] == r;
      assert Covers(es[j], r);
      UncoveredCovers(es, r);
    }
  }

  predicate SameSlot(a: Row, b: Row) {
    a.timestamp == b.timestamp && a.name == b.name
  }

  /** A stored row a makes the lookup for b succeed. */
  predicate Covers(a: Row, b: Row) {
    SameSlot(a, b) && (b.message == Null || a.message == b.message)
  }

  ghost predicate CoveredBy(es: seq<Row>, r: Row) {
    exists j :: 0 <= j < |es| && Covers(es[j], r)
  }

  ghost function Uncovered(es: seq<Row>): seq<Row> {
    if es == [] then []
    else Uncovered(es[..|es| - 1]) + if CoveredBy(es[..|es| - 1], es[|es| - 1]) then [] else [es[|es| - 1]]
  }

  /** Each distinct row once, in order of first occurrence. */
  function Distinct(es: seq<Row>): seq<Row> {
    if es == [] then []
    else Distinct(es[..|es| - 1]) + if es[|es| - 1] in es[..|es| - 1] then [] else [es[|es| - 1]]
  }

  /** The rows are those of es, each once. */
  ghost predicate IsSetOf(rows: seq<Row>, es: seq<Row>) {
    && (forall i, j :: 0 <= i < j < |rows| ==> rows[i] != rows[j])
    && (forall r :: r in rows <==> r in es)
  }

  lemma {:induction false} DistinctIsExact(es: seq<Row>)
    ensures IsSetOf(Distinct(es), es)
  {
    if es != [] {
      var n := |es| - 1;
      DistinctIsExact(es[..n]);
      assert es == es[..n] + [es[n]];
    }
  }

  ghost predicate Uniform(es: seq<Row>) {
    forall r :: r in es ==> r.kind == "Warning" && r.extra == map[]
  }

  lemma {:induction false} WantedAreWarnings(ms: seq<Message>, f: MatchFunc)
    ensures Uniform(Wanted(ms, f))
  {
    if ms != [] {
      WantedAreWarnings(ms[..|ms| - 1], f);
    }
  }

  lemma {:induction false} UncoveredCovers(es: seq<Row>, r: Row)
    ensures CoveredBy(Uncovered(es), r) <==> CoveredBy(es, r)
    ensures forall x :: x in Uncovered(es) ==> x in es
  {
    if es != [] {
      var n := |es| - 1;
      var last := es[n];
      UncoveredCovers(es[..n], r);
      UncoveredCovers(es[..n], last);
      var u := Uncovered(es[..n]);
      if CoveredBy(Uncovered(es), r) {
        var j :| 0 <= j < |Uncovered(es)| && Covers(Uncovered(es)[j], r);
        if j < |u| {
          assert Covers(u[j], r);
        }
      }
      if CoveredBy(es, r) {
        var j :| 0 <= j < |es| && Covers(es[j], r);
        if j < n {
          assert Covers(es[..n][j], r);
        } else if CoveredBy(es[..n], last) {
          var k :| 0 <= k < |u| && Covers(u[k], last);
          assert Covers(u[k], r);
        } else {
          assert Uncovered(es)[|u|] == last;
        }
        if CoveredBy(u, r) {
          var k :| 0 <= k < |u| && Covers(u[k], r);
          assert Uncovered(es)[k] == u[k];
        }
      }
    }
  }

  lemma HoldsIsCovered(rows: seq<Row>, e: Event)
    requires e.kind == "Warning" && e.extra == map[]
    requires Uniform(rows)
    ensures Holds(rows, e) <==> CoveredBy(rows, ToRow(e))
  {
    forall i | 0 <= i < |rows| ensures Matches(rows[i], e) <==> Covers(rows[i], ToRow(e)) {
      assert rows[i] in rows;
    }
  }

  lemma SyncOneIsUncovered(es: seq<Row>, e: Event)
    requires e.name != "" && e.kind == "Warning" && e.extra == map[] && Uniform(es)
    ensures SyncOne(Uncovered(es), e) == Uncovered(es + [ToRow(e)])
  {
    UncoveredCovers(es, ToRow(e));
    HoldsIsCovered(Uncovered(es), e);
    assert (es + [ToRow(e)])[..|es|] == es;
  }

  /** From an empty bucket, an event is stored exactly if no earlier event covers it. */
  lemma {:induction false} SyncedIsUncovered(ms: seq<Message>, f: MatchFunc)
    ensures Synced([], ms, f) == Uncovered(Wanted(ms, f))
  {
    if ms != [] {
      var n := |ms| - 1;
      SyncedIsUncovered(ms[..n], f);
      if Matched(ms[n], f).name != "" {
        WantedAreWarnings(ms[..n], f);
        SyncOneIsUncovered(Wanted(ms[..n], f), Matched(ms[n], f));
      } else {
        assert Wanted(ms, f) == Wanted(ms[..n], f);
      }
    }
  }

  /** An event without a message is new, but another event of its second and name came first. */
  ghost predicate Shadowed(es: seq<Row>, i: nat)
    requires i < |es|
  {
    && es[i].message == Null
    && es[i] !in es[..i]
    && exists j :: 0 <= j < i && SameSlot(es[j], es[i])
  }

  ghost function ShadowCount(es: seq<Row>): nat {
    if es == [] then 0 else ShadowCount(es[..|es| - 1]) + if Shadowed(es, |es| - 1) then 1 else 0
  }

  /** The last event is left out for being covered exactly if it is a repeat or shadowed. */
  lemma CoveredExactly(es: seq<Row>)
    requires es != [] && Uniform(es)
    ensures var n := |es| - 1;
            CoveredBy(es[..n], es[n]) <==> es[n] in es[..n] || Shadowed(es, n)
  {
    var n := |es| - 1;
    var before := es[..n];
    if CoveredBy(before, es[n]) && es[n] !in before {
      var j :| 0 <= j < |before| && Covers(before[j], es[n]);
      assert before[j] in es && es[n] in es;
      assert es[n].message == Null;
      assert SameSlot(es[j], es[n]);
    }
    if es[n] in before {
      var j :| 0 <= j < |before| && before[j] == es[n];
      assert Covers(before[j], es[n]);
    }
    if Shadowed(es, n) {
      var j :| 0 <= j < n && SameSlot(es[j], es[n]);
      assert Covers(before[j], es[n]);
    }
  }

  lemma {:induction false} ShadowsAreMissing(es: seq<Row>)
    requires Uniform(es)
    ensures |Uncovered(es)| + ShadowCount(es) == |Distinct(es)|
    ensures ShadowCount(es) == 0 ==> Uncovered(es) == Distinct(es)
  {
    if es != [] {
      ShadowsAreMissing(es[..|es| - 1]);
      CoveredExactly(es);
    }
  }

  lemma {:induction false} ShadowCountIsZero(es: seq<Row>)
    ensures ShadowCount(es) == 0 <==> forall i :: 0 <= i < |es| ==> !Shadowed(es, i)
  {
    if es != [] {
      var n := |es| - 1;
      ShadowCountIsZero(es[..n]);
      forall i | 0 <= i < n ensures Shadowed(es[..n], i) <==> Shadowed(es, i) {
        assert es[..n][..i] == es[..i];
        if Shadowed(es, i) {
          var j :| 0 <= j < i && SameSlot(es[j], es[i]);
          assert SameSlot(es[..n][j], es[..n][i]);
        }
        if Shadowed(es[..n], i) {
          var j :| 0 <= j < i && SameSlot(es[..n][j], es[..n][i]);
          assert SameSlot(es[j], es[i]);
        }
      }
    }
  }

  /**
    From an empty bucket, with or without the deduper, the bucket holds exactly one row per distinct
    (second, name, message) of the matched messages, in order of first occurrence, if and only if no event
    with an empty message arrives after another event of its second and name. Distinct holds each row of the
    matched messages once and nothing else.
   */
  lemma OneRowPerEvent(ms: seq<Stamped>, expiration: int, f: MatchFunc)
    ensures Synced([], Passing(ms, expiration), f) == Distinct(Wanted(All(ms), f)) <==>
            forall i :: 0 <= i < |Wanted(All(ms), f)| ==> !Shadowed(Wanted(All(ms), f), i)
    ensures IsSetOf(Distinct(Wanted(All(ms), f)), RowsFor(All(ms), f))
  {
    var es := Wanted(All(ms), f);
    DistinctIsExact(es);
    WantedAreRows(All(ms), f);
    DedupIsTransparent([], ms, expiration, f);
    SyncedIsUncovered(All(ms), f);
    WantedAreWarnings(All(ms), f);
    ShadowsAreMissing(es);
    ShadowCountIsZero(es);
  }

  /** Two messages of one second and name, of which the second has no event message. */
  ghost predicate Hides(a: Message, b: Message, f: MatchFunc) {
    && Unix(a.timestamp) == Unix(b.timestamp) && f(a.text).0 == f(b.text).0 != ""
    && f(a.text).1 != "" && f(b.text).1 == ""
  }

  lemma WantedOfTwo(a: Message, b: Message, f: MatchFunc)
    requires f(a.text).0 != "" && f(b.text).0 != ""
    ensures Wanted([a, b], f) == [ToRow(Matched(a, f)), ToRow(Matched(b, f))]
  {
    assert [a, b][..1] == [a] && [a][..0] == [];
    assert Wanted([a], f) == [ToRow(Matched(a, f))];
  }

  /** Such a second message is lost: the bucket lacks its row, with the deduper and without. */
  lemma HiddenMessageIsLost(a: Stamped, b: Stamped, expiration: int, f: MatchFunc)
    requires Hides(a.message, b.message, f)
    ensures Synced([], Passing([a, b], expiration), f) != Distinct(Wanted(All([a, b]), f))
  {
    AllIsPointwise([a, b]);
    assert All([a, b]) == [a.message, b.message];
    WantedOfTwo(a.message, b.message, f);
    var es := Wanted(All([a, b]), f);
    assert es[..1] == [es[0]];
    assert SameSlot(es[0], es[1]);
    assert Shadowed(es, 1);
    OneRowPerEvent([a, b], expiration, f);
  }

  /** A match function and two messages of one second for which the bucket lacks a row, whatever the expiration. */
  lemma EmptyMessageIsLost(expiration: int) returns (ms: seq<Stamped>, f: MatchFunc)
    ensures Synced([], Passing(ms, expiration), f) != Distinct(Wanted(All(ms), f))
  {
    f := text => ("error_xid", if text == "1" then "xid 1" else "");
    var a, b := Stamped(Message(0, 0, 0, "1"), 0), Stamped(Message(1, 0, 1, "2"), 1);
    ms := [a, b];
    HiddenMessageIsLost(a, b, expiration, f);
  }
}
