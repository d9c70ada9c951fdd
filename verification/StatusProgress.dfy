/** The total progress shown by `gpud status` (cmd/gpud/status/command.go), in 64-bit arithmetic. */
module StatusProgress {
  import opened Text
  import PackageController

  /** A package's TotalTime in nanoseconds and its Progress. */
  datatype Status = Status(totalTime: int, progress: int)

  /** Go's division on integers, which truncates toward zero. */
  function Quotient(a: int, b: int): int
    requires b != 0
  {
    var x: int := if a < 0 then 0 - a else a;
    var y: int := if b < 0 then 0 - b else b;
    if (a < 0) == (b < 0) then x / y else 0 - x / y
  }

  /** Duration.Milliseconds. */
  function Millis(d: int): int {
    Quotient(d, 1_000_000)
  }

  /** The values an int64 field can hold. */
  predicate Representable(packages: seq<Status>) {
    forall i :: 0 <= i < |packages| ==> FitsInt64(packages[i].totalTime) && FitsInt64(packages[i].progress)
  }

  /** The code's sum of times, in wrapped arithmetic. */
  function TotalTime(packages: seq<Status>): int {
    if packages == [] then 0
    else
      var n := |packages| - 1;
      AddTime(TotalTime(packages[..n]), packages[n])
  }

  function AddTime(sum: int, p: Status): int {
    Wrap64(sum + Millis(p.totalTime))
  }

  function AddShare(sum: int, p: Status): int {
    Wrap64(sum + Quotient(Wrap64(Millis(p.totalTime) * p.progress), 100))
  }

  /** The code's sum of finished times, in wrapped arithmetic. */
  function Finished(packages: seq<Status>): int {
    if packages == [] then 0
    else
      var n := |packages| - 1;
      AddShare(Finished(packages[..n]), packages[n])
  }

  method SumUp(packages: seq<Status>) returns (totalTime: int, progress: int)
    requires Representable(packages)
    ensures totalTime == TotalTime(packages) && progress == Finished(packages)
  {
    totalTime, progress := 0, 0;
    for i := 0 to |packages|
      invariant totalTime == TotalTime(packages[..i]) && progress == Finished(packages[..i])
    {
      assert packages[..i + 1][..i] == packages[..i];
      totalTime := AddTime(totalTime, packages[i]);
      progress := AddShare(progress, packages[i]);
    }
    assert packages[..|packages|] == packages;
  }

  /** The loop and the division: the percentage, and the time left in nanoseconds. */
  method Summarize(packages: seq<Status>) returns (percent: int, left: int)
    requires Representable(packages)
    ensures percent == Percent(packages) && left == Left(packages)
  {
    var totalTime, progress := SumUp(packages);
    percent := 0;
    if totalTime != 0 {
      percent := Wrap64(Quotient(Wrap64(progress * 100), totalTime));
    }
    left := Wrap64(Wrap64(totalTime - progress) * 1_000_000);
  }

  function Percent(packages: seq<Status>): int {
    var t := TotalTime(packages);
    if t == 0 then 0 else Wrap64(Quotient(Wrap64(Finished(packages) * 100), t))
  }

  function Left(packages: seq<Status>): int {
    Wrap64(Wrap64(TotalTime(packages) - Finished(packages)) * 1_000_000)
  }

  // ---- the exact weighted average ----

  /** What the controller keeps true of its packages: no negative time, progress a percentage. */
  predicate Sane(packages: seq<Status>) {
    forall i :: 0 <= i < |packages| ==> 0 <= packages[i].totalTime <= INT64_MAX && 0 <= packages[i].progress <= 100
  }

  /** The sum of the times, unbounded. */
  function Time(packages: seq<Status>): int {
    if packages == [] then 0
    else Time(packages[..|packages| - 1]) + Millis(packages[|packages| - 1].totalTime)
  }

  /** The time a package has behind it, in whole milliseconds. */
  function Share(p: Status): int {
    Quotient(Millis(p.totalTime) * p.progress, 100)
  }

  /** The sum of the shares, unbounded. */
  function Done(packages: seq<Status>): int {
    if packages == [] then 0 else Done(packages[..|packages| - 1]) + Share(packages[|packages| - 1])
  }

  /** The sum of time times progress, unbounded: the weighted average is this over Time. */
  function Weighted(packages: seq<Status>): int {
    if packages == [] then 0
    else
      var n := |packages| - 1;
      Weighted(packages[..n]) + Millis(packages[n].totalTime) * packages[n].progress
  }

  /** A package that takes time is finished. */
  predicate AllFinished(packages: seq<Status>) {
    forall i :: 0 <= i < |packages| ==> Millis(packages[i].totalTime) > 0 ==> packages[i].progress == 100
  }

  const MAX_MILLIS := 9_223_372_036_854

  lemma MillisBounds(d: int)
    requires 0 <= d <= INT64_MAX
    ensures 0 <= Millis(d) <= MAX_MILLIS
  {}

  lemma ProductGrows(a: int, b: int, c: int)
    requires a <= b && c >= 0
    ensures a * c <= b * c
  {}

  lemma ShareBounds(t: int, p: int)
    requires 0 <= t <= MAX_MILLIS && 0 <= p <= 100
    ensures 0 <= t * p <= t * 100 <= 922_337_203_685_400
    ensures var share := Quotient(t * p, 100);
      0 <= share <= t && 100 * share <= t * p <= 100 * share + 99 && (share == t <==> t == 0 || p == 100)
  {
    ProductGrows(0, p, t);
    ProductGrows(p, 100, t);
    if p < 100 {
      ProductGrows(p, 99, t);
    }
    HundredthBounds(t, t * p);
  }

  lemma HundredthBounds(t: int, x: int)
    requires 0 <= x <= t * 100
    ensures var share := Quotient(x, 100);
      && 0 <= share <= t && 100 * share <= x <= 100 * share + 99
      && (x <= t * 99 ==> share == t ==> t == 0) && (x == t * 100 ==> share == t)
  {}

  /** How the unbounded sums relate. */
  lemma {:induction false} SumBounds(packages: seq<Status>)
    requires Sane(packages)
    ensures 0 <= Done(packages) <= Time(packages)
    ensures 100 * Done(packages) <= Weighted(packages) <= 100 * Done(packages) + 99 * |packages|
    ensures Done(packages) == Time(packages) <==> AllFinished(packages)
  {
    if packages != [] {
      var n := |packages| - 1;
      var rest, last := packages[..n], packages[n];
      SumBounds(rest);
      MillisBounds(last.totalTime);
      ShareBounds(Millis(last.totalTime), last.progress);
      assert AllFinished(packages) <==> AllFinished(rest) && (Millis(last.totalTime) > 0 ==> last.progress == 100);
    }
  }

  /** As long as the total time fits 64 bits the loop's sums are exact. */
  lemma {:induction false} SumsAreExact(packages: seq<Status>)
    requires Sane(packages) && Time(packages) <= INT64_MAX
    ensures TotalTime(packages) == Time(packages) && Finished(packages) == Done(packages)
  {
    if packages != [] {
      var n := |packages| - 1;
      var rest, last := packages[..n], packages[n];
      MillisBounds(last.totalTime);
      ShareBounds(Millis(last.totalTime), last.progress);
      SumsAreExact(rest);
      SumBounds(rest);
    }
  }

  lemma LessByProduct(x: int, y: int, t: int)
    requires t > 0 && x * t < y * t
    ensures x < y
  {}

  lemma DivisionBounds(a: int, t: int)
    requires 0 <= a <= t && t > 0
    ensures var q := 100 * a / t; 0 <= q <= 100 && q * t <= 100 * a < (q + 1) * t && (q == 100 <==> a == t)
  {
    var q := 100 * a / t;
    assert q * t <= 100 * a < (q + 1) * t;
    LessByProduct(q, 101, t);
    LessByProduct(0, q + 1, t);
    if a == t {
      LessByProduct(100, q + 1, t);
    } else {
      LessByProduct(q, 100, t);
    }
  }

  /** Dividing a number that lost a multiple of 2^64 by one below 2^63 gives something else. */
  lemma WrappedQuotientDiffers(a: int, t: int)
    requires a > INT64_MAX && 0 < t <= INT64_MAX
    ensures Quotient(Wrap64(a), t) < a / t
  {
    var w := Wrap64(a);
    assert w <= a - 0x1_0000_0000_0000_0000 by {
      assert w < a;
    }
    assert w + t < a;
    var q := a / t;
    assert a < (q + 1) * t;
    if w < 0 {
      assert Quotient(w, t) <= 0;
      LessByProduct(0, q, t);
    } else {
      assert (w / t) * t <= w;
      LessByProduct(w / t, q, t);
    }
  }

  lemma DividedIsSmaller(x: int, t: int)
    requires x >= 0 && t > 0
    ensures 0 <= x / t <= x
  {
    var q := x / t;
    assert q * t <= x < (q + 1) * t;
    FactorBounds(q, x, t);
  }

  lemma FactorBounds(q: int, x: int, t: int)
    requires x >= 0 && t > 0 && q * t <= x < (q + 1) * t
    ensures 0 <= q <= x
  {
    LessByProduct(0, q + 1, t);
    ProductGrows(1, t, q);
  }

  lemma QuotientFits(w: int, t: int)
    requires FitsInt64(w) && t > 0
    ensures FitsInt64(Quotient(w, t))
  {
    DividedIsSmaller(if w < 0 then 0 - w else w, t);
  }

  lemma DivisionIsExact(a: int, t: int)
    requires 0 <= a <= t && 0 < t <= INT64_MAX
    ensures Wrap64(Quotient(Wrap64(a * 100), t)) == 100 * a / t <==> 100 * a <= INT64_MAX
  {
    QuotientFits(Wrap64(a * 100), t);
    if 100 * a > INT64_MAX {
      WrappedQuotientDiffers(100 * a, t);
    }
  }

  /** The shown percentage is the floored one exactly when a hundred times the finished time fits 64 bits. */
  lemma PercentIsExact(packages: seq<Status>)
    requires Sane(packages) && 0 < Time(packages) <= INT64_MAX
    ensures Percent(packages) == 100 * Done(packages) / Time(packages) <==> 100 * Done(packages) <= INT64_MAX
  {
    SumsAreExact(packages);
    SumBounds(packages);
    DivisionIsExact(Done(packages), Time(packages));
  }

  /**
    The shown percentage is between 0 and 100, never above the exact weighted average, below it by less than
    1 + 100 n / T, and 100 exactly when every package that takes time is finished.
   */
  lemma PercentIsFloored(packages: seq<Status>)
    requires Sane(packages) && Time(packages) <= INT64_MAX && 100 * Done(packages) <= INT64_MAX
    ensures 0 <= Percent(packages) <= 100
    ensures Time(packages) > 0 ==>
      var exact := Weighted(packages) as real / Time(packages) as real;
      var slack := 1.0 + 100.0 * |packages| as real / Time(packages) as real;
      Percent(packages) as real <= exact < Percent(packages) as real + slack
    ensures Time(packages) > 0 ==> (Percent(packages) == 100 <==> AllFinished(packages))
    ensures Time(packages) == 0 ==> Percent(packages) == 0
  {
    if Time(packages) > 0 {
      PercentBounds(packages);
      RealBounds(Percent(packages), Weighted(packages), Time(packages), |packages|);
    } else {
      SumsAreExact(packages);
      SumBounds(packages);
    }
  }

  lemma PercentBounds(packages: seq<Status>)
    requires Sane(packages) && 0 < Time(packages) <= INT64_MAX && 100 * Done(packages) <= INT64_MAX
    ensures 0 <= Percent(packages) <= 100 && (Percent(packages) == 100 <==> AllFinished(packages))
    ensures Percent(packages) * Time(packages) <= Weighted(packages)
    ensures Weighted(packages) < (Percent(packages) + 1) * Time(packages) + 100 * |packages|
  {
    SumBounds(packages);
    PercentIsExact(packages);
    DivisionBounds(Done(packages), Time(packages));
  }

  lemma QuotientLess(a: real, b: real, t: real)
    requires t > 0.0
    ensures a * t <= b ==> a <= b / t
    ensures b < a * t ==> b / t < a
  {
    assert (b / t) * t == b;
  }

  lemma RealBounds(q: int, w: int, t: int, n: nat)
    requires t > 0 && q * t <= w < (q + 1) * t + 100 * n
    ensures q as real <= w as real / t as real < q as real + 1.0 + 100.0 * n as real / t as real
  {
    var q', w', t', n' := q as real, w as real, t as real, 100.0 * n as real;
    assert (q * t) as real == q' * t' <= w';
    QuotientLess(q', w', t');
    assert ((q + 1) * t) as real == (q' + 1.0) * t';
    var y := n' / t';
    assert y * t' == n';
    assert (q' + 1.0 + y) * t' == (q' + 1.0) * t' + y * t';
    QuotientLess(q' + 1.0 + y, w', t');
  }

  /** The time left is never negative and exact, exactly as long as it fits a Duration. */
  lemma TimeLeftIsExact(packages: seq<Status>)
    requires Sane(packages) && Time(packages) <= INT64_MAX
    ensures var left := Time(packages) - Done(packages);
      && left >= 0 && (left == 0 <==> AllFinished(packages))
      && (Left(packages) == left * 1_000_000 <==> left <= MAX_MILLIS)
      && (left <= MAX_MILLIS ==> Left(packages) >= 0)
  {
    SumsAreExact(packages);
    SumBounds(packages);
  }

  /** The packages' own times, in nanoseconds. */
  function Nanos(packages: seq<Status>): int {
    if packages == [] then 0 else Nanos(packages[..|packages| - 1]) + packages[|packages| - 1].totalTime
  }

  /** The summed milliseconds are the packages' times, less than a millisecond per package short. */
  lemma {:induction false} TimeIsInMillis(packages: seq<Status>)
    requires Sane(packages)
    ensures Time(packages) * 1_000_000 <= Nanos(packages) <= Time(packages) * 1_000_000 + |packages| * 999_999
  {
    if packages != [] {
      var n := |packages| - 1;
      TimeIsInMillis(packages[..n]);
      MillisOfNanos(packages[n].totalTime);
    }
  }

  lemma MillisOfNanos(d: int)
    requires d >= 0
    ensures Millis(d) * 1_000_000 <= d <= Millis(d) * 1_000_000 + 999_999
  {}

  /** Nothing has progressed. */
  predicate NothingDone(packages: seq<Status>) {
    forall i :: 0 <= i < |packages| ==> packages[i].progress == 0
  }

  lemma {:induction false} NothingIsZero(packages: seq<Status>)
    requires Sane(packages) && NothingDone(packages)
    ensures Done(packages) == 0
  {
    if packages != [] {
      NothingIsZero(packages[..|packages| - 1]);
    }
  }

  /**
    The time left is at most the packages' own times; before any progress it is those times, less than a millisecond per
    package short.
   */
  lemma TimeLeftInNanos(packages: seq<Status>)
    requires Sane(packages) && Nanos(packages) <= INT64_MAX
    ensures 0 <= Left(packages) <= Nanos(packages)
    ensures NothingDone(packages) ==> Nanos(packages) - |packages| * 999_999 <= Left(packages)
  {
    TimeIsInMillis(packages);
    SumBounds(packages);
    TimeLeftIsExact(packages);
    if NothingDone(packages) {
      NothingIsZero(packages);
    }
  }

  // ---- what the command shows of a controller ----

  /** What the status endpoint reports of the named packages. */
  function Reported(pkgs: PackageController.Packages, names: seq<string>): (r: seq<Status>)
    requires forall i :: 0 <= i < |names| ==> names[i] in pkgs
    ensures |r| == |names|
    ensures forall i :: 0 <= i < |r| ==> r[i] == Status(pkgs[names[i]].totalTime, pkgs[names[i]].progress)
  {
    seq(|names|, i requires 0 <= i < |names| => Status(pkgs[names[i]].totalTime, pkgs[names[i]].progress))
  }

  /**
    In every reachable state of a controller with positive install times, whichever of its packages are reported, the
    shown total is a percentage and the time left is not negative, as long as the sums fit.
   */
  lemma ControllerTotalInRange(schedule: seq<PackageController.Action>, names: seq<string>)
    requires PackageController.PositiveTimes(schedule) && PackageController.Exec(schedule).Reached?
    requires forall i :: 0 <= i < |names| ==> names[i] in PackageController.Exec(schedule).state.pkgs
    ensures var reported := Reported(PackageController.Exec(schedule).state.pkgs, names);
            Time(reported) <= INT64_MAX ==>
              && (100 * Done(reported) <= INT64_MAX ==> 0 <= Percent(reported) <= 100)
              && (Time(reported) - Done(reported) <= MAX_MILLIS ==> Left(reported) >= 0)
  {
    var pkgs := PackageController.Exec(schedule).state.pkgs;
    var reported := Reported(pkgs, names);
    PackageController.ProgressIsPercentage(schedule);
    SaneReports(pkgs, names);
    if Time(reported) <= INT64_MAX {
      TimeLeftIsExact(reported);
      if 100 * Done(reported) <= INT64_MAX {
        PercentIsFloored(reported);
      }
    }
  }

  lemma SaneReports(pkgs: PackageController.Packages, names: seq<string>)
    requires PackageController.PackagePercentages(pkgs) && forall i :: 0 <= i < |names| ==> names[i] in pkgs
    ensures Sane(Reported(pkgs, names))
  {}
}
