/**
 * `create_summary_metrics` of utils/plotting.py: the race's fastest lap,
 * the driver with the lowest mean lap time and the driver whose lap times
 * vary least, or the empty result when there is nothing to summarise.
 *
 * Rows without a lap time are those `dropna(subset=['LapTimeSeconds'])`
 * removes; every aggregate below skips them, which is what computing it on
 * the filtered frame amounts to (the filtered frame keeps the row labels,
 * so `idxmin` still names an original row).
 */
module SummaryMetrics {
  import opened Common
  import opened Aggregates

  /** One lap as the summary reads it: `Driver`, `LapNumber`, `LapTimeSeconds`. */
  datatype SummaryRow = SummaryRow(driver: DriverId, lapNumber: int, lapTime: Option<real>)

  /** The lap table handed to the summary, and whether it has a `LapTimeSeconds` column. */
  datatype SummaryInput = SummaryInput(rows: seq<SummaryRow>, hasLapTimeSeconds: bool)

  /** `metrics['fastest_lap']`: who set the fastest lap, its time and its lap number. */
  datatype FastestLap = FastestLap(driver: DriverId, time: real, lap: int)

  /**
   * The summary: the fastest lap, the lowest per-driver mean, and the lowest
   * per-driver sample variance when at least one driver has two timed laps
   * (otherwise the dashboard shows "N/A").
   */
  datatype Metrics = Metrics(fastestLap: FastestLap, fastestAverage: Stat, mostConsistent: Option<Stat>)

  /** Some row has a lap time. */
  predicate HasTime(rows: seq<SummaryRow>)
  {
    exists j :: 0 <= j < |rows| && rows[j].lapTime.Some?
  }

  /**
   * `valid_laps['LapTimeSeconds'].idxmin()`: the first row whose time is
   * no greater than any other row's.
   */
  function FastestRow(rows: seq<SummaryRow>): (i: nat)
    requires HasTime(rows)
    ensures i < |rows| && rows[i].lapTime.Some?
    ensures forall j :: 0 <= j < |rows| && rows[j].lapTime.Some? ==> rows[i].lapTime.value <= rows[j].lapTime.value
    ensures forall j :: 0 <= j < i && rows[j].lapTime.Some? ==> rows[j].lapTime.value > rows[i].lapTime.value
  {
    var front := rows[..|rows| - 1];
    var last := rows[|rows| - 1];
    if HasTime(front) then
      var k := FastestRow(front);
      if last.lapTime.Some? && last.lapTime.value < front[k].lapTime.value then |rows| - 1 else k
    else
      assert forall j :: 0 <= j < |front| ==> front[j] == rows[j];
      |rows| - 1
  }

  /** The lap times of driver `d`, in row order. */
  function TimesOf(rows: seq<SummaryRow>, d: DriverId): (ts: seq<real>)
    ensures |ts| <= |rows|
  {
    if rows == [] then []
    else
      var last := rows[|rows| - 1];
      TimesOf(rows[..|rows| - 1], d) + (if last.driver == d && last.lapTime.Some? then [last.lapTime.value] else [])
  }

  /** Every row of `d` with a time contributes to `TimesOf(rows, d)`. */
  lemma {:induction false} TimesOfNonEmpty(rows: seq<SummaryRow>, d: DriverId, j: nat)
    requires j < |rows| && rows[j].driver == d && rows[j].lapTime.Some?
    ensures TimesOf(rows, d) != []
  {
    if j < |rows| - 1 {
      TimesOfNonEmpty(rows[..|rows| - 1], d, j);
    }
  }

  /** The drivers of the rows with a time, with repeats, in row order. */
  function TimedDrivers(rows: seq<SummaryRow>): (ds: seq<DriverId>)
    ensures forall d :: d in ds <==> TimesOf(rows, d) != []
  {
    if rows == [] then []
    else
      var front := rows[..|rows| - 1];
      var last := rows[|rows| - 1];
      var ds := TimedDrivers(front) + (if last.lapTime.Some? then [last.driver] else []);
      assert forall d :: TimesOf(rows, d) != [] <==> TimesOf(front, d) != [] || (last.lapTime.Some? && last.driver == d);
      ds
  }

  /** The keys of `valid_laps.groupby('Driver')`: each driver with a timed lap, once. */
  function Groups(rows: seq<SummaryRow>): (ds: seq<DriverId>)
    ensures forall d :: d in ds <==> TimesOf(rows, d) != []
    ensures forall i, j :: 0 <= i < j < |ds| ==> ds[i] != ds[j]
  {
    Unique(TimedDrivers(rows))
  }

  /** `groupby('Driver')['LapTimeSeconds'].mean()`. */
  function Means(rows: seq<SummaryRow>, ds: seq<DriverId>): (stats: seq<Stat>)
    requires forall d :: d in ds ==> TimesOf(rows, d) != []
    ensures |stats| == |ds|
    ensures forall s :: s in stats <==> s.driver in ds && s.value == Mean(TimesOf(rows, s.driver))
  {
    var stats := seq(|ds|, k requires 0 <= k < |ds| => Stat(ds[k], Mean(TimesOf(rows, ds[k]))));
    assert forall s: Stat :: s.driver in ds && s.value == Mean(TimesOf(rows, s.driver)) ==> s in stats by {
      forall s: Stat | s.driver in ds && s.value == Mean(TimesOf(rows, s.driver))
        ensures s in stats
      {
        var k :| 0 <= k < |ds| && ds[k] == s.driver;
        assert stats[k] == s;
      }
    }
    stats
  }

  /**
   * `groupby('Driver')['LapTimeSeconds'].std()` without the entries of
   * drivers with a single timed lap, which are NaN and which `idxmin` and
   * `min` skip. The variance stands for the deviation: the square root is
   * increasing, so both have the same minimiser.
   */
  function Spreads(rows: seq<SummaryRow>, ds: seq<DriverId>): (stats: seq<Stat>)
    ensures forall s :: s in stats <==>
      (s.driver in ds && |TimesOf(rows, s.driver)| >= 2 && s.value == SampleVariance(TimesOf(rows, s.driver)))
  {
    if ds == [] then []
    else
      var d := ds[|ds| - 1];
      var front := Spreads(rows, ds[..|ds| - 1]);
      assert forall e :: e in ds <==> e in ds[..|ds| - 1] || e == d;
      if |TimesOf(rows, d)| >= 2 then front + [Stat(d, SampleVariance(TimesOf(rows, d)))] else front
  }

  /** `metrics['fastest_lap']`: the driver, time and lap number of the `idxmin` row. */
  function FastestLapOf(rows: seq<SummaryRow>): (f: FastestLap)
    requires HasTime(rows)
    ensures exists i :: (0 <= i < |rows| && rows[i] == SummaryRow(f.driver, f.lap, Some(f.time)) &&
      forall j :: 0 <= j < i && rows[j].lapTime.Some? ==> rows[j].lapTime.value > f.time)
    ensures forall j :: 0 <= j < |rows| && rows[j].lapTime.Some? ==> f.time <= rows[j].lapTime.value
  {
    var i := FastestRow(rows);
    var f := FastestLap(rows[i].driver, rows[i].lapTime.value, rows[i].lapNumber);
    assert rows[i] == SummaryRow(f.driver, f.lap, Some(f.time));
    f
  }

  /** `metrics['fastest_average']`: the `idxmin` of the per-driver means. */
  function FastestAverage(rows: seq<SummaryRow>): (a: Stat)
    requires HasTime(rows)
    ensures TimesOf(rows, a.driver) != [] && a.value == Mean(TimesOf(rows, a.driver))
  {
    var i :| 0 <= i < |rows| && rows[i].lapTime.Some?;
    TimesOfNonEmpty(rows, rows[i].driver, i);
    var groups := Groups(rows);
    assert rows[i].driver in groups;
    IdxMin(Means(rows, groups))
  }

  /** `metrics['most_consistent']`: the `idxmin` of the defined per-driver spreads, if any. */
  function MostConsistent(rows: seq<SummaryRow>): (c: Option<Stat>)
    ensures c.Some? ==> |TimesOf(rows, c.value.driver)| >= 2 && c.value.value == SampleVariance(TimesOf(rows, c.value.driver))
  {
    var spreads := Spreads(rows, Groups(rows));
    if spreads == [] then None else Some(IdxMin(spreads))
  }

  /**
   * `create_summary_metrics`: the empty result for an empty table, a
   * table without `LapTimeSeconds` or one without a single lap time;
   * otherwise the fastest lap, the fastest average and the most consistent
   * driver.
   */
  function CreateSummaryMetrics(input: SummaryInput): (m: Option<Metrics>)
    ensures m.None? <==> input.rows == [] || !input.hasLapTimeSeconds || !HasTime(input.rows)
  {
    var rows := input.rows;
    if rows == [] || !input.hasLapTimeSeconds || !HasTime(rows) then None
    else Some(Metrics(FastestLapOf(rows), FastestAverage(rows), MostConsistent(rows)))
  }

  /**
   * The fastest lap is a timed row of the input: its time is no greater
   * than any lap time, every earlier timed row is strictly slower, and it
   * reports that row's driver and lap number.
   */
  lemma FastestLapIsFirstMinimum(input: SummaryInput)
    requires CreateSummaryMetrics(input).Some?
    ensures var f := CreateSummaryMetrics(input).value.fastestLap;
      && (exists i :: 0 <= i < |input.rows| && input.rows[i] == SummaryRow(f.driver, f.lap, Some(f.time)) &&
           forall j :: 0 <= j < i && input.rows[j].lapTime.Some? ==> input.rows[j].lapTime.value > f.time)
      && forall j :: 0 <= j < |input.rows| && input.rows[j].lapTime.Some? ==> f.time <= input.rows[j].lapTime.value
  {
    assert CreateSummaryMetrics(input).value.fastestLap == FastestLapOf(input.rows);
  }

  /**
   * The fastest average belongs to a driver with a timed lap, is that
   * driver's mean, and is no greater than any other such driver's mean; a
   * tie goes to the driver whose code sorts first.
   */
  lemma FastestAverageIsMinimal(input: SummaryInput)
    requires CreateSummaryMetrics(input).Some?
    ensures var a := CreateSummaryMetrics(input).value.fastestAverage;
      && TimesOf(input.rows, a.driver) != []
      && a.value == Mean(TimesOf(input.rows, a.driver))
      && forall d :: TimesOf(input.rows, d) != [] ==>
           a.value < Mean(TimesOf(input.rows, d)) || (a.value == Mean(TimesOf(input.rows, d)) && !LexLess(d, a.driver))
  {
    var rows := input.rows;
    var a := FastestAverage(rows);
    assert CreateSummaryMetrics(input).value.fastestAverage == a;
    var groups := Groups(rows);
    var means := Means(rows, groups);
    assert a == IdxMin(means);
    forall d | TimesOf(rows, d) != []
      ensures a.value < Mean(TimesOf(rows, d)) || (a.value == Mean(TimesOf(rows, d)) && !LexLess(d, a.driver))
    {
      assert Stat(d, Mean(TimesOf(rows, d))) in means;
    }
  }

  /** The most consistent driver is missing ("N/A") exactly when no driver has two timed laps. */
  lemma MostConsistentMissingIff(input: SummaryInput)
    requires CreateSummaryMetrics(input).Some?
    ensures CreateSummaryMetrics(input).value.mostConsistent.None? <==> forall d :: |TimesOf(input.rows, d)| < 2
  {
    var rows := input.rows;
    assert CreateSummaryMetrics(input).value.mostConsistent == MostConsistent(rows);
    var spreads := Spreads(rows, Groups(rows));
    if spreads == [] {
      forall d | |TimesOf(rows, d)| >= 2
        ensures Stat(d, SampleVariance(TimesOf(rows, d))) in spreads
      {
      }
    } else {
      assert spreads[0] in spreads;
      assert |TimesOf(rows, spreads[0].driver)| >= 2;
    }
  }

  /**
   * A most consistent driver has at least two timed laps, its value is its
   * sample variance, and no driver with two timed laps varies less; a tie
   * goes to the driver whose code sorts first.
   */
  lemma MostConsistentIsMinimal(input: SummaryInput)
    requires CreateSummaryMetrics(input).Some? && CreateSummaryMetrics(input).value.mostConsistent.Some?
    ensures var c := CreateSummaryMetrics(input).value.mostConsistent.value;
      && |TimesOf(input.rows, c.driver)| >= 2
      && c.value == SampleVariance(TimesOf(input.rows, c.driver))
      && forall d :: |TimesOf(input.rows, d)| >= 2 ==>
           c.value < SampleVariance(TimesOf(input.rows, d)) ||
           (c.value == SampleVariance(TimesOf(input.rows, d)) && !LexLess(d, c.driver))
  {
    var rows := input.rows;
    assert CreateSummaryMetrics(input).value.mostConsistent == MostConsistent(rows);
    var spreads := Spreads(rows, Groups(rows));
    var c := IdxMin(spreads);
    forall d | |TimesOf(rows, d)| >= 2
      ensures c.value < SampleVariance(TimesOf(rows, d)) ||
        (c.value == SampleVariance(TimesOf(rows, d)) && !LexLess(d, c.driver))
    {
      assert Stat(d, SampleVariance(TimesOf(rows, d))) in spreads;
    }
  }
}
