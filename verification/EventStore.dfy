/** The event table (pkg/eventstore/database.go): its rows, and the SQL of each operation as its meaning. */
module EventStore {
  import opened Text

  const SECOND: int := 1_000_000_000

  /** Time is in nanoseconds since the epoch; a nil ExtraInfo behaves as an empty map. */
  datatype Event = Event(time: int, name: string, kind: string, message: string, extra: map<string, string>)

  datatype Column = Null | Value(text: string)

  datatype Row = Row(timestamp: int, name: string, kind: string, message: Column, extra: map<string, string>)

  /** time.Time.Unix rounds towards the past, which is what division does here. */
  function Unix(time: int): int {
    time / SECOND
  }

  /** The INSERT statement; NULLIF stores an empty message as NULL. */
  function ToRow(e: Event): Row {
    Row(Unix(e.time), e.name, e.kind, if e.message == "" then Null else Value(e.message), e.extra)
  }

  /** scanRows. */
  function Scan(r: Row): Event {
    Event(r.timestamp * SECOND, r.name, r.kind, if r.message == Null then "" else r.message.text, r.extra)
  }

  /** The WHERE clause of Find: an empty message puts no condition on the row's message. */
  predicate Selects(r: Row, e: Event) {
    && r.timestamp == Unix(e.time)
    && r.name == e.name
    && r.kind == e.kind
    && (e.message != "" ==> r.message == Value(e.message))
  }

  predicate Matches(r: Row, e: Event) {
    Selects(r, e) && r.extra == e.extra
  }

  ghost predicate Holds(rows: seq<Row>, e: Event) {
    exists i :: 0 <= i < |rows| && Matches(rows[i], e)
  }

  /** What is stored of an event finds that event: Find after Insert succeeds, now and while rows are only added. */
  lemma FoundAfterInsert(rows: seq<Row>, e: Event, more: seq<Row>)
    ensures Holds(rows + [ToRow(e)] + more, e)
  {
    assert (rows + [ToRow(e)] + more)[|rows|] == ToRow(e);
  }

  /** Reading a stored event back gives the event at its whole second. */
  lemma ScanInvertsInsert(e: Event)
    ensures Scan(ToRow(e)) == e.(time := e.time - e.time % 1_000_000_000)
  {
    assert e.time == SECOND * (e.time / SECOND) + e.time % SECOND;
  }

  /**
    A stored event is found by a lookup for another exactly if they share second, name, type, extra and any message
    asked for.
   */
  lemma FindsExactly(stored: Event, e: Event)
    ensures Matches(ToRow(stored), e) <==>
            && stored.time / 1_000_000_000 == e.time / 1_000_000_000
            && stored.name == e.name && stored.kind == e.kind && stored.extra == e.extra
            && (e.message == "" || e.message == stored.message)
  {}

  lemma SubsetOfSameSize<T>(a: set<T>, b: set<T>)
    requires a <= b && |a| == |b|
    ensures a == b
  {
    assert b == a + (b - a);
    assert |b| == |a| + |b - a|;
  }

  /** compareEvent: its one-way loop together with the size test decides equality of the two maps. */
  method CompareEvent(a: Event, b: Event) returns (same: bool)
    ensures same <==> a.extra == b.extra
  {
    if |a.extra| != |b.extra| {
      return false;
    }
    var keys := a.extra.Keys;
    while keys != {}
      invariant keys <= a.extra.Keys
      invariant forall k :: k in a.extra && k !in keys ==> k in b.extra && b.extra[k] == a.extra[k]
      decreases |keys|
    {
      var k :| k in keys;
      if k !in b.extra || b.extra[k] != a.extra[k] {
        return false;
      }
      keys := keys - {k};
    }
    SubsetOfSameSize(a.extra.Keys, b.extra.Keys);
    return true;
  }

  // ---- selection and order ----

  /** Rows later than `since`, in table order. */
  function Later(rows: seq<Row>, since: int): seq<Row> {
    if rows == [] then []
    else if rows[0].timestamp > since then [rows[0]] + Later(rows[1..], since)
    else Later(rows[1..], since)
  }

  /** Rows that the DELETE statement of Purge leaves. */
  function Kept(rows: seq<Row>, before: int): seq<Row> {
    if rows == [] then []
    else if rows[0].timestamp >= before then [rows[0]] + Kept(rows[1..], before)
    else Kept(rows[1..], before)
  }

  function InsertDescending(r: Row, rows: seq<Row>): seq<Row> {
    if rows == [] || rows[0].timestamp < r.timestamp then [r] + rows
    else [rows[0]] + InsertDescending(r, rows[1..])
  }

  /** ORDER BY timestamp DESC; rows of one second keep their table order. */
  function Descending(rows: seq<Row>): seq<Row> {
    if rows == [] then [] else InsertDescending(rows[|rows| - 1], Descending(rows[..|rows| - 1]))
  }

  predicate IsDescending(rows: seq<Row>) {
    forall i, j :: 0 <= i < j < |rows| ==> rows[i].timestamp >= rows[j].timestamp
  }

  lemma SnocCounts<T>(xs: seq<T>)
    requires xs != []
    ensures multiset(xs) == multiset(xs[..|xs| - 1]) + multiset{xs[|xs| - 1]}
  {
    assert xs == xs[..|xs| - 1] + [xs[|xs| - 1]];
  }

  lemma ConsCounts<T>(x: T, xs: seq<T>)
    ensures multiset([x] + xs) == multiset(xs) + multiset{x}
  {}

  lemma {:induction false} InsertDescendingCounts(r: Row, rows: seq<Row>)
    ensures multiset(InsertDescending(r, rows)) == multiset(rows) + multiset{r}
  {
    if rows == [] || rows[0].timestamp < r.timestamp {
      ConsCounts(r, rows);
    } else {
      InsertDescendingCounts(r, rows[1..]);
      ConsCounts(rows[0], InsertDescending(r, rows[1..]));
      ConsCounts(rows[0], rows[1..]);
      assert rows == [rows[0]] + rows[1..];
    }
  }

  lemma {:induction false} InsertDescendingAdds(r: Row, rows: seq<Row>)
    ensures forall x :: x in InsertDescending(r, rows) ==> x == r || x in rows
  {
    if rows != [] && rows[0].timestamp >= r.timestamp {
      InsertDescendingAdds(r, rows[1..]);
    }
  }

  lemma {:induction false} InsertDescendingSorted(r: Row, rows: seq<Row>)
    requires IsDescending(rows)
    ensures IsDescending(InsertDescending(r, rows))
  {
    if rows != [] && rows[0].timestamp >= r.timestamp {
      InsertDescendingSorted(r, rows[1..]);
      InsertDescendingAdds(r, rows[1..]);
      var rest := InsertDescending(r, rows[1..]);
      forall i | 0 <= i < |rest| ensures rows[0].timestamp >= rest[i].timestamp {
        assert rest[i] in rest;
      }
    }
  }

  /** Descending only reorders, and leaves the latest first. */
  lemma DescendingSorts(rows: seq<Row>)
    ensures IsDescending(Descending(rows)) && multiset(Descending(rows)) == multiset(rows)
  {
    DescendingIsSorted(rows);
    DescendingReorders(rows);
  }

  lemma {:induction false} DescendingIsSorted(rows: seq<Row>)
    ensures IsDescending(Descending(rows))
  {
    if rows != [] {
      var n := |rows| - 1;
      DescendingIsSorted(rows[..n]);
      InsertDescendingSorted(rows[n], Descending(rows[..n]));
    }
  }

  lemma {:induction false} DescendingReorders(rows: seq<Row>)
    ensures multiset(Descending(rows)) == multiset(rows)
  {
    if rows != [] {
      var n := |rows| - 1;
      DescendingReorders(rows[..n]);
      InsertDescendingCounts(rows[n], Descending(rows[..n]));
      SnocCounts(rows);
    }
  }

  lemma {:induction false} LaterSelects(rows: seq<Row>, since: int, r: Row)
    ensures multiset(Later(rows, since))[r] == if r.timestamp > since then multiset(rows)[r] else 0
  {
    if rows != [] {
      LaterSelects(rows[1..], since, r);
      assert rows == [rows[0]] + rows[1..];
    }
  }

  /**
    Get(since) holds exactly the rows later than since, each as often as it is stored, latest first.
   */
  lemma GetIsExact(rows: seq<Row>, since: int, r: Row)
    ensures IsDescending(Descending(Later(rows, since)))
    ensures multiset(Descending(Later(rows, since)))[r] == if r.timestamp > since then multiset(rows)[r] else 0
  {
    DescendingSorts(Later(rows, since));
    LaterSelects(rows, since, r);
  }

  /** Purge keeps each row from the bound on as often as it is stored, and no other. */
  lemma {:induction false} PurgeIsExact(rows: seq<Row>, before: int, r: Row)
    ensures multiset(Kept(rows, before))[r] == if r.timestamp >= before then multiset(rows)[r] else 0
  {
    if rows != [] {
      PurgeIsExact(rows[1..], before, r);
      assert rows == [rows[0]] + rows[1..];
    }
  }

  /** Purging before b does not change what Get returns for any since >= b - 1 ... */
  lemma {:induction false} PurgeKeepsLaterReads(rows: seq<Row>, before: int, since: int)
    requires since >= before - 1
    ensures Later(Kept(rows, before), since) == Later(rows, since)
  {
    if rows != [] {
      PurgeKeepsLaterReads(rows[1..], before, since);
      if rows[0].timestamp >= before {
        assert Kept(rows, before)[1..] == Kept(rows[1..], before);
      }
    }
  }

  /** ... and for an earlier since it does exactly when a row between the two was purged. */
  lemma {:induction false} PurgeChangesEarlierReads(rows: seq<Row>, before: int, since: int)
    ensures |Later(Kept(rows, before), since)| <= |Later(rows, since)|
    ensures Later(Kept(rows, before), since) == Later(rows, since) <==>
            !exists i :: 0 <= i < |rows| && since < rows[i].timestamp < before
  {
    if rows != [] {
      var rest := rows[1..];
      PurgeChangesEarlierReads(rest, before, since);
      if rows[0].timestamp >= before {
        assert Kept(rows, before)[1..] == Kept(rest, before);
      }
      if rows[0].timestamp > since {
        assert Later(rows, since)[1..] == Later(rest, since);
        if rows[0].timestamp >= before {
          assert Later(Kept(rows, before), since)[1..] == Later(Kept(rest, before), since);
        }
      }
      assert forall i :: 0 <= i < |rest| ==> rest[i] == rows[i + 1];
      assert forall i :: 1 <= i < |rows| ==> rows[i] == rest[i - 1];
      if exists i :: 0 <= i < |rows| && since < rows[i].timestamp < before {
        var i :| 0 <= i < |rows| && since < rows[i].timestamp < before;
        if i > 0 {
          assert since < rest[i - 1].timestamp < before;
        }
      } else {
        assert !exists i :: 0 <= i < |rest| && since < rest[i].timestamp < before;
      }
    }
  }

  function Scans(rows: seq<Row>): seq<Event> {
    seq(|rows|, i requires 0 <= i < |rows| => Scan(rows[i]))
  }

  // ---- the table ----

  class Table {
    var rows: seq<Row>

    constructor ()
      ensures rows == []
    {
      rows := [];
    }

    method Insert(e: Event)
      modifies this
      ensures rows == old(rows) + [ToRow(e)]
    {
      rows := rows + [ToRow(e)];
    }

    /** The first stored row that matches, if any does. */
    method Find(e: Event) returns (found: Option<Event>)
      ensures found.Some? <==> Holds(rows, e)
      ensures found.Some? ==> exists i :: 0 <= i < |rows| && Matches(rows[i], e) && found.value == Scan(rows[i])
    {
      for i := 0 to |rows|
        invariant forall j :: 0 <= j < i ==> !Matches(rows[j], e)
      {
        if Selects(rows[i], e) {
          var same := CompareEvent(Scan(rows[i]), e);
          if same {
            return Some(Scan(rows[i]));
          }
        }
      }
      return None;
    }

    method Get(since: int) returns (events: seq<Event>)
      ensures events == Scans(Descending(Later(rows, Unix(since))))
    {
      var selected: seq<Row> := [];
      var sorted: seq<Row> := [];
      for i := 0 to |rows|
        invariant selected == Later(rows[..i], Unix(since))
        invariant sorted == Descending(selected)
      {
        LaterAppend(rows[..i], rows[i], Unix(since));
        assert rows[..i + 1] == rows[..i] + [rows[i]];
        if rows[i].timestamp > Unix(since) {
          assert (selected + [rows[i]])[..|selected|] == selected;
          selected := selected + [rows[i]];
          sorted := InsertDescending(rows[i], sorted);
        }
      }
      assert rows[..|rows|] == rows;
      return Scans(sorted);
    }

    /** A row of the greatest timestamp; which one, when several share it, is left to the database. */
    method Latest() returns (latest: Option<Event>)
      ensures latest.None? <==> rows == []
      ensures latest.Some? ==>
        && (exists i :: 0 <= i < |rows| && latest.value == Scan(rows[i]))
        && (forall i :: 0 <= i < |rows| ==> rows[i].timestamp * SECOND <= latest.value.time)
    {
      if rows == [] {
        return None;
      }
      var best := 0;
      for i := 1 to |rows|
        invariant 0 <= best < |rows|
        invariant forall j :: 0 <= j < i ==> rows[j].timestamp <= rows[best].timestamp
      {
        if rows[i].timestamp > rows[best].timestamp {
          best := i;
        }
      }
      return Some(Scan(rows[best]));
    }

    method Purge(before: int) returns (purged: nat)
      modifies this
      ensures rows == Kept(old(rows), before)
      ensures purged == |old(rows)| - |rows|
    {
      var kept: seq<Row> := [];
      purged := 0;
      for i := 0 to |rows|
        invariant rows == old(rows)
        invariant kept == Kept(rows[..i], before)
        invariant purged + |kept| == i
      {
        KeptAppend(rows[..i], rows[i], before);
        assert rows[..i + 1] == rows[..i] + [rows[i]];
        if rows[i].timestamp >= before {
          kept := kept + [rows[i]];
        } else {
          purged := purged + 1;
        }
      }
      assert rows[..|rows|] == rows;
      rows := kept;
    }
  }

  lemma {:induction false} LaterAppend(rows: seq<Row>, r: Row, since: int)
    ensures Later(rows + [r], since) == Later(rows, since) + if r.timestamp > since then [r] else []
  {
    if rows != [] {
      LaterAppend(rows[1..], r, since);
      assert (rows + [r])[1..] == rows[1..] + [r];
    }
  }

  lemma {:induction false} KeptAppend(rows: seq<Row>, r: Row, before: int)
    ensures Kept(rows + [r], before) == Kept(rows, before) + if r.timestamp >= before then [r] else []
  {
    if rows != [] {
      KeptAppend(rows[1..], r, before);
      assert (rows + [r])[1..] == rows[1..] + [r];
    }
  }
}
