/** The reboot recorder (pkg/host/event.go) on top of the event table. */
module RebootEvents {
  import opened Text
  import opened EventStore

  const MINUTE: int := 60 * SECOND
  const RETENTION: int := 3 * 24 * 60 * MINUTE

  /** The instant for which time.Time.IsZero holds: 1 January of year 1. */
  const ZERO_TIME: int := -62_135_596_800 * SECOND

  /** time.Time.Sub: the difference, saturated to 64 bits. */
  function Sub(t: int, u: int): int {
    if t - u > INT64_MAX then INT64_MAX else if t - u < INT64_MIN then INT64_MIN else t - u
  }

  /** `describe` is fmt's rendering of the boot time; boot times are whole seconds (LastRebootHelper). */
  function RebootEvent(boot: int, describe: int -> string): Event {
    Event(boot * SECOND, "reboot", "Warning", "system reboot detected " + describe(boot), map[])
  }

  function LatestTime(rows: seq<Row>): int
    requires rows != []
  {
    if |rows| == 1 then rows[0].timestamp
    else
      var m := LatestTime(rows[..|rows| - 1]);
      if rows[|rows| - 1].timestamp > m then rows[|rows| - 1].timestamp else m
  }

  lemma {:induction false} LatestTimeIsMaximum(rows: seq<Row>, t: int)
    requires rows != []
    requires forall i :: 0 <= i < |rows| ==> rows[i].timestamp <= t
    requires exists i :: 0 <= i < |rows| && rows[i].timestamp == t
    ensures LatestTime(rows) == t
  {
    var n := |rows| - 1;
    var i :| 0 <= i < |rows| && rows[i].timestamp == t;
    if n > 0 {
      if i < n {
        assert rows[..n][i].timestamp == t;
        LatestTimeIsMaximum(rows[..n], t);
      } else {
        LatestTimeBounds(rows[..n]);
      }
    }
  }

  lemma {:induction false} LatestTimeBounds(rows: seq<Row>)
    requires rows != []
    ensures forall r :: r in rows ==> r.timestamp <= LatestTime(rows)
    ensures exists r :: r in rows && r.timestamp == LatestTime(rows)
  {
    var n := |rows| - 1;
    if n > 0 {
      LatestTimeBounds(rows[..n]);
      assert rows == rows[..n] + [rows[n]];
      assert rows[n] in rows;
    } else {
      assert rows[0] in rows;
    }
  }

  /** The rows after one call, for a boot time that could be read. */
  ghost function Recorded(rows: seq<Row>, boot: int, now: int, describe: int -> string): seq<Row> {
    var e := RebootEvent(boot, describe);
    if Sub(now, e.time) >= RETENTION || Holds(rows, e) then rows
    else if rows == [] then [ToRow(e)]
    else
      var latest := LatestTime(rows) * SECOND;
      if latest != ZERO_TIME && latest > e.time then rows
      else if 0 < Sub(e.time, latest) < MINUTE then rows
      else rows + [ToRow(e)]
  }

  datatype BootTime = Unknown | Boot(seconds: int)

  /** Which calls of the store fail. */
  datatype Faults = Faults(open: bool, find: bool, latest: bool, insert: bool)

  /** The call meets a failure: it gets to a call of the store that fails. */
  ghost predicate Meets(faults: Faults, rows: seq<Row>, boot: int, now: int, describe: int -> string) {
    var e := RebootEvent(boot, describe);
    && Sub(now, e.time) < RETENTION
    && (faults.open || faults.find
        || (!Holds(rows, e) && (faults.latest || (faults.insert && Recorded(rows, boot, now, describe) != rows))))
  }

  /**
    recordEvent: it returns an error exactly if the boot time is unknown or the store fails it, and changes nothing
    then.
   */
  method RecordEvent(bucket: Table, faults: Faults, now: int, boot: BootTime, describe: int -> string)
    returns (ok: bool)
    modifies bucket
    ensures ok <==> boot.Boot? && !Meets(faults, old(bucket.rows), boot.seconds, now, describe)
    ensures bucket.rows == if ok then Recorded(old(bucket.rows), boot.seconds, now, describe) else old(bucket.rows)
  {
    if boot.Unknown? {
      return false;
    }
    var current := RebootEvent(boot.seconds, describe);
    if Sub(now, current.time) >= RETENTION {
      return true;
    }
    if faults.open || faults.find {
      return false;
    }
    var existing := bucket.Find(current);
    if existing.Some? {
      return true;
    }
    if faults.latest {
      return false;
    }
    var previous := bucket.Latest();
    if previous.None? {
      ok := TryInsert(bucket, faults, current);
      return;
    }
    LatestTimeIsMaximum(bucket.rows, Unix(previous.value.time));
    if previous.value.time != ZERO_TIME && previous.value.time > current.time {
      return true;
    }
    var elapsed := Sub(current.time, previous.value.time);
    if 0 < elapsed < MINUTE {
      return true;
    }
    ok := TryInsert(bucket, faults, current);
  }

  method TryInsert(bucket: Table, faults: Faults, e: Event) returns (ok: bool)
    modifies bucket
    ensures ok == !faults.insert
    ensures bucket.rows == if ok then old(bucket.rows) + [ToRow(e)] else old(bucket.rows)
  {
    if !faults.insert {
      bucket.Insert(e);
    }
    return !faults.insert;
  }

  // ---- any sequence of operations on the bucket ----

  /** `ok` tells whether recordEvent succeeded; a call that fails changes nothing. */
  datatype Operation =
    | Record(boot: int, now: int, ok: bool)
    | Other(event: Event)
    | Purge(before: int)

  ghost function Step(rows: seq<Row>, op: Operation, describe: int -> string): seq<Row> {
    match op
    case Record(boot, now, ok) => if ok then Recorded(rows, boot, now, describe) else rows
    case Other(e) => rows + [ToRow(e)]
    case Purge(b) => Kept(rows, b)
  }

  ghost function Run(ops: seq<Operation>, describe: int -> string): seq<Row> {
    if ops == [] then [] else Step(Run(ops[..|ops| - 1], describe), ops[|ops| - 1], describe)
  }

  /** Every clock reading is later than the first three days of year 1, and no one else writes reboot rows. */
  ghost predicate PlausibleStep(op: Operation) {
    && (op.Record? ==> op.now >= ZERO_TIME + RETENTION)
    && (op.Other? ==> op.event.name != "reboot")
  }

  ghost predicate Plausible(ops: seq<Operation>) {
    forall i :: 0 <= i < |ops| ==> PlausibleStep(ops[i])
  }

  ghost predicate IsReboot(r: Row) {
    r.name == "reboot"
  }

  /** Reboot rows are what a recorder wrote, so a second recording of the same boot finds them. */
  ghost predicate OnlyRecorded(rows: seq<Row>, describe: int -> string) {
    forall r :: r in rows && IsReboot(r) ==> r == ToRow(RebootEvent(r.timestamp, describe))
  }

  /** Each reboot row is later by at least `gap` seconds than every reboot row before it. */
  ghost predicate Ascending(rows: seq<Row>, gap: nat) {
    rows == [] ||
    var n := |rows| - 1;
    && Ascending(rows[..n], gap)
    && (IsReboot(rows[n]) ==> forall r :: r in rows[..n] && IsReboot(r) ==> r.timestamp + gap <= rows[n].timestamp)
  }

  lemma {:induction false} KeptSelects(rows: seq<Row>, before: int, r: Row)
    ensures r in Kept(rows, before) ==> r in rows
  {
    if rows != [] {
      KeptSelects(rows[1..], before, r);
    }
  }

  lemma {:induction false} PurgeKeepsAscending(rows: seq<Row>, before: int, gap: nat)
    requires Ascending(rows, gap)
    ensures Ascending(Kept(rows, before), gap)
  {
    if rows != [] {
      var n := |rows| - 1;
      PurgeKeepsAscending(rows[..n], before, gap);
      KeptAppend(rows[..n], rows[n], before);
      assert rows == rows[..n] + [rows[n]];
      var kept := Kept(rows[..n], before);
      assert Kept(rows, before) == if rows[n].timestamp >= before then kept + [rows[n]] else kept;
      if rows[n].timestamp >= before {
        assert (kept + [rows[n]])[..|kept|] == kept;
        forall r | r in kept ensures r in rows[..n] {
          KeptSelects(rows[..n], before, r);
        }
      }
    }
  }

  lemma RecordedIsFound(rows: seq<Row>, describe: int -> string, r: Row)
    requires OnlyRecorded(rows, describe) && r in rows && IsReboot(r)
    ensures Holds(rows, RebootEvent(r.timestamp, describe))
  {
    var i :| 0 <= i < |rows| && rows[i] == r;
    assert Matches(rows[i], RebootEvent(r.timestamp, describe));
  }

  /** A recorded row is later than every reboot row, and a minute later if nothing else is in the bucket. */
  lemma RecordedRowIsLatest(rows: seq<Row>, boot: int, now: int, describe: int -> string, r: Row)
    requires OnlyRecorded(rows, describe) && now >= ZERO_TIME + RETENTION
    requires Recorded(rows, boot, now, describe) != rows
    requires r in rows && IsReboot(r)
    ensures Recorded(rows, boot, now, describe) == rows + [ToRow(RebootEvent(boot, describe))]
    ensures r.timestamp < boot
    ensures (forall x :: x in rows ==> IsReboot(x)) ==> r.timestamp + 60 <= boot
  {
    var e := RebootEvent(boot, describe);
    LatestTimeBounds(rows);
    assert Unix(e.time) == boot;
    assert LatestTime(rows) <= boot;
    RecordedIsFound(rows, describe, r);
    if forall x :: x in rows ==> IsReboot(x) {
      var m :| m in rows && m.timestamp == LatestTime(rows);
      RecordedIsFound(rows, describe, m);
    }
  }

  lemma RecordKeepsAscending(rows: seq<Row>, boot: int, now: int, describe: int -> string, gap: nat)
    requires OnlyRecorded(rows, describe) && now >= ZERO_TIME + RETENTION && Ascending(rows, gap)
    requires gap <= 1 || (gap <= 60 && forall r :: r in rows ==> IsReboot(r))
    ensures Ascending(Recorded(rows, boot, now, describe), gap)
  {
    var after := Recorded(rows, boot, now, describe);
    if after != rows {
      var row := ToRow(RebootEvent(boot, describe));
      assert after == rows + [row];
      assert after[..|after| - 1] == rows;
      assert row.timestamp == boot;
      forall r | r in rows && IsReboot(r) ensures r.timestamp + gap <= boot {
        RecordedRowIsLatest(rows, boot, now, describe, r);
      }
    }
  }

  lemma StepKeepsRecorded(rows: seq<Row>, op: Operation, describe: int -> string)
    requires OnlyRecorded(rows, describe) && PlausibleStep(op)
    ensures OnlyRecorded(Step(rows, op, describe), describe)
    ensures !op.Other? && (forall r :: r in rows ==> IsReboot(r)) ==>
              forall r :: r in Step(rows, op, describe) ==> IsReboot(r)
  {
    match op
    case Record(boot, now, _) =>
      assert Unix(RebootEvent(boot, describe).time) == boot;
    case Other(e) =>
    case Purge(b) =>
      forall r | r in Kept(rows, b) ensures r in rows {
        KeptSelects(rows, b, r);
      }
  }

  lemma StepKeepsAscending(rows: seq<Row>, op: Operation, describe: int -> string, gap: nat)
    requires OnlyRecorded(rows, describe) && Ascending(rows, gap) && PlausibleStep(op)
    requires gap <= 1 || (gap <= 60 && forall r :: r in rows ==> IsReboot(r))
    ensures Ascending(Step(rows, op, describe), gap)
  {
    match op
    case Record(boot, now, _) =>
      RecordKeepsAscending(rows, boot, now, describe, gap);
    case Other(e) =>
      assert (rows + [ToRow(e)])[..|rows|] == rows;
    case Purge(b) =>
      PurgeKeepsAscending(rows, b, gap);
  }

  lemma {:induction false} RunIsAscending(ops: seq<Operation>, describe: int -> string, gap: nat)
    requires Plausible(ops)
    requires gap <= 1 || (gap <= 60 && forall i :: 0 <= i < |ops| ==> !ops[i].Other?)
    ensures OnlyRecorded(Run(ops, describe), describe)
    ensures Ascending(Run(ops, describe), gap)
    ensures gap > 1 ==> forall r :: r in Run(ops, describe) ==> IsReboot(r)
  {
    if ops != [] {
      var n := |ops| - 1;
      RunIsAscending(ops[..n], describe, gap);
      StepKeepsRecorded(Run(ops[..n], describe), ops[n], describe);
      StepKeepsAscending(Run(ops[..n], describe), ops[n], describe, gap);
    }
  }

  lemma {:induction false} AscendingPairs(rows: seq<Row>, gap: nat, i: nat, j: nat)
    requires Ascending(rows, gap) && i < j < |rows| && IsReboot(rows[i]) && IsReboot(rows[j])
    ensures rows[i].timestamp + gap <= rows[j].timestamp
  {
    var n := |rows| - 1;
    if j < n {
      AscendingPairs(rows[..n], gap, i, j);
    } else {
      assert rows[..n][i] in rows[..n];
    }
  }

  /** In every history, reboot rows have strictly increasing timestamps in insertion order. */
  lemma RebootsStrictlyIncrease(ops: seq<Operation>, describe: int -> string, i: nat, j: nat)
    requires Plausible(ops) && i < j < |Run(ops, describe)|
    requires IsReboot(Run(ops, describe)[i]) && IsReboot(Run(ops, describe)[j])
    ensures Run(ops, describe)[i].timestamp < Run(ops, describe)[j].timestamp
  {
    RunIsAscending(ops, describe, 1);
    AscendingPairs(Run(ops, describe), 1, i, j);
  }

  /** What is recorded of a boot. */
  lemma RecordedRow(rows: seq<Row>, boot: int, now: int, describe: int -> string)
    ensures var after := Recorded(rows, boot, now, describe);
      after != rows ==>
        after == rows + [Row(boot, "reboot", "Warning", Value("system reboot detected " + describe(boot)), map[])]
  {}

  /** Every row is at least a minute before the boot, or some row carries its second and none is later. */
  ghost predicate Spaced(rows: seq<Row>, boot: int) {
    || (forall r :: r in rows ==> r.timestamp + 60 <= boot)
    || ((exists r :: r in rows && r.timestamp == boot) && forall r :: r in rows ==> r.timestamp <= boot)
  }

  lemma SpacedByLatest(rows: seq<Row>, boot: int)
    requires rows != []
    ensures Spaced(rows, boot) <==> LatestTime(rows) + 60 <= boot || LatestTime(rows) == boot
  {
    LatestTimeBounds(rows);
  }

  /**
    A boot is recorded exactly if it is less than three days old, not recorded yet, and every row is at least a minute
    older or the latest row carries its very second.
   */
  lemma RecordedExactly(rows: seq<Row>, boot: int, now: int, describe: int -> string)
    requires now >= ZERO_TIME + RETENTION
    ensures |Recorded(rows, boot, now, describe)| == |rows| + 1 <==>
            && Sub(now, boot * 1_000_000_000) < 259_200 * 1_000_000_000
            && !Holds(rows, RebootEvent(boot, describe))
            && Spaced(rows, boot)
    ensures |Recorded(rows, boot, now, describe)| == |rows| || |Recorded(rows, boot, now, describe)| == |rows| + 1
  {
    if rows != [] {
      SpacedByLatest(rows, boot);
    }
  }

  /** If only the recorder writes to the bucket, any two of its rows are at least a minute apart. */
  lemma RebootsAreAMinuteApart(ops: seq<Operation>, describe: int -> string, i: nat, j: nat)
    requires Plausible(ops) && (forall k :: 0 <= k < |ops| ==> !ops[k].Other?) && i < j < |Run(ops, describe)|
    ensures Run(ops, describe)[i].timestamp + 60 <= Run(ops, describe)[j].timestamp
  {
    RunIsAscending(ops, describe, 60);
    AscendingPairs(Run(ops, describe), 60, i, j);
  }

  /**
    When other events share the bucket, a reboot less than a minute after a recorded one is recorded
    exactly if some other event carries the very second of the new boot and nothing is later.
   */
  lemma MinuteBrokenExactly(rows: seq<Row>, boot: int, now: int, describe: int -> string, r: Row)
    requires OnlyRecorded(rows, describe) && ZERO_TIME + RETENTION <= now && Sub(now, boot * SECOND) < RETENTION
    requires r in rows && IsReboot(r) && boot - 60 < r.timestamp < boot
    ensures Recorded(rows, boot, now, describe) != rows <==>
            LatestTime(rows) == boot && !Holds(rows, RebootEvent(boot, describe))
  {
    LatestTimeBounds(rows);
    var e := RebootEvent(boot, describe);
    assert Recorded(rows, boot, now, describe) == rows || Recorded(rows, boot, now, describe) == rows + [ToRow(e)];
  }

  /** Another writer breaks the minute: its row at the new boot's own second hides the earlier reboot. */
  lemma OtherEventsBreakTheMinute(describe: int -> string) returns (ops: seq<Operation>)
    ensures Plausible(ops) && |Run(ops, describe)| == 3
    ensures IsReboot(Run(ops, describe)[0]) && IsReboot(Run(ops, describe)[2])
    ensures Run(ops, describe)[2].timestamp - Run(ops, describe)[0].timestamp < 60
  {
    var other := Event(10 * SECOND, "x", "Info", "", map[]);
    var first, second := ToRow(RebootEvent(0, describe)), ToRow(RebootEvent(10, describe));
    ops := [Record(0, 0, true), Other(other), Record(10, 10 * SECOND, true)];
    assert ops[..2][..1] == [Record(0, 0, true)] && ops[..1] == [Record(0, 0, true)]
        && ops[..2] == [Record(0, 0, true), Other(other)];
    assert [Record(0, 0, true)][..0] == [];
    assert Run([Record(0, 0, true)], describe) == [first];
    assert Run(ops[..2], describe) == [first, ToRow(other)];
    assert [first, ToRow(other)][..1] == [first];
    assert LatestTime([first, ToRow(other)]) == 10;
    assert !Holds([first, ToRow(other)], RebootEvent(10, describe));
    assert Run(ops, describe) == [first, ToRow(other), second];
  }
}
