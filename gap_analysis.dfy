/**
 * The numeric part of `plot_gap_analysis` in utils/plotting.py: the choice
 * of a reference driver, and for every other driver the cumulative gap to
 * that reference over the laps both drove, kept when it has at least two
 * points.
 */
module GapAnalysis {
  import opened Common
  import opened Aggregates
  import opened DataLoading
  import Colors

  /**
   * The table handed to the analyser (the lap normaliser's output) and
   * whether it has the `Position` and `Team` columns.
   */
  datatype LapFrame = LapFrame(rows: seq<LapRecord>, hasPosition: bool, hasTeam: bool)

  /** `lap_data['Driver'].unique()`: the drivers in order of first appearance. */
  function Available(rows: seq<LapRecord>): (ds: seq<DriverId>)
    ensures forall d :: d in ds <==> exists j :: 0 <= j < |rows| && rows[j].driver == d
    ensures forall i, j :: 0 <= i < j < |ds| ==> ds[i] != ds[j]
    ensures rows != [] ==> ds != [] && ds[0] == rows[0].driver
  {
    var ds := Unique(DriverColumn(rows));
    assert forall d :: d in DriverColumn(rows) <==> exists j :: 0 <= j < |rows| && rows[j].driver == d by {
      forall d
        ensures d in DriverColumn(rows) <==> exists j :: 0 <= j < |rows| && rows[j].driver == d
      {
        if d in DriverColumn(rows) {
          var j :| 0 <= j < |rows| && DriverColumn(rows)[j] == d;
        }
      }
    }
    if rows != [] then
      UniqueStartsWithFirst(DriverColumn(rows));
      ds
    else ds
  }

  lemma {:induction false} UniqueStartsWithFirst<T(!new)>(xs: seq<T>)
    requires xs != []
    ensures Unique(xs) != [] && Unique(xs)[0] == xs[0]
  {
    if |xs| > 1 {
      UniqueStartsWithFirst(xs[..|xs| - 1]);
    }
  }

  // ---------------------------------------------------------------------
  // Reference driver
  // ---------------------------------------------------------------------

  /** How often `d` occurs in `xs`. */
  function Count(xs: seq<DriverId>, d: DriverId): nat
  {
    if xs == [] then 0 else Count(xs[..|xs| - 1], d) + (if xs[|xs| - 1] == d then 1 else 0)
  }

  lemma {:induction false} CountPositive(xs: seq<DriverId>, d: DriverId)
    requires d in xs
    ensures Count(xs, d) > 0
  {
    if xs[|xs| - 1] != d {
      CountPositive(xs[..|xs| - 1], d);
    }
  }

  /**
   * `value_counts().index[0]` over the candidates: a candidate with the
   * largest count. pandas does not fix the order of equal counts; this
   * model takes the earliest candidate.
   */
  function MostFrequent(cands: seq<DriverId>, xs: seq<DriverId>): (r: DriverId)
    requires cands != []
    ensures r in cands
    ensures forall c :: c in cands ==> Count(xs, c) <= Count(xs, r)
  {
    if |cands| == 1 then cands[0]
    else
      var front := cands[..|cands| - 1];
      var best := MostFrequent(front, xs);
      var last := cands[|cands| - 1];
      assert forall c :: c in cands ==> c in front || c == last;
      if Count(xs, last) > Count(xs, best) then last else best
  }

  /** The drivers of the rows with `Position == 1`, in row order. */
  function LeaderColumn(rows: seq<LapRecord>): (ds: seq<DriverId>)
    ensures forall d :: d in ds <==> exists j :: 0 <= j < |rows| && rows[j].driver == d && rows[j].position == Some(1)
  {
    if rows == [] then []
    else
      var earlier := LeaderColumn(rows[..|rows| - 1]);
      var x := rows[|rows| - 1];
      assert forall j :: 0 <= j < |rows| - 1 ==> rows[..|rows| - 1][j] == rows[j];
      if x.position == Some(1) then earlier + [x.driver] else earlier
  }

  /** The drivers come in the order of their first row in the table. */
  lemma AvailableInFirstAppearanceOrder(rows: seq<LapRecord>)
    ensures var ds := Available(rows);
      forall i, j :: 0 <= i < j < |ds| ==>
        && ds[i] in DriverColumn(rows) && ds[j] in DriverColumn(rows)
        && FirstIndex(DriverColumn(rows), ds[i]) < FirstIndex(DriverColumn(rows), ds[j])
  {
    UniqueInFirstAppearanceOrder(DriverColumn(rows));
  }

  /** Every driver in the data has at least one lap time. */
  lemma AvailableHaveTimes(rows: seq<LapRecord>)
    ensures forall d :: d in Available(rows) ==> DriverTimes(rows, d) != []
  {
    forall d | d in Available(rows)
      ensures DriverTimes(rows, d) != []
    {
      var j :| 0 <= j < |rows| && rows[j].driver == d;
      assert rows[j].lapTimeSeconds in DriverTimes(rows, d);
    }
  }

  /** The mean lap time of a driver who has rows. */
  function DriverMean(rows: seq<LapRecord>, d: DriverId): real
    requires DriverTimes(rows, d) != []
  {
    Mean(DriverTimes(rows, d))
  }

  /** `groupby('Driver')[time].mean()` for the drivers `ds`. */
  function MeanStats(rows: seq<LapRecord>, ds: seq<DriverId>): (stats: seq<Stat>)
    requires forall d :: d in ds ==> DriverTimes(rows, d) != []
    ensures |stats| == |ds|
    ensures forall i :: 0 <= i < |ds| ==> stats[i] == Stat(ds[i], DriverMean(rows, ds[i]))
  {
    seq(|ds|, i requires 0 <= i < |ds| => assert ds[i] in ds; Stat(ds[i], DriverMean(rows, ds[i])))
  }

  /** `xs[0]`, or `fallback` for an empty sequence. */
  function FirstOr(xs: seq<DriverId>, fallback: DriverId): DriverId
  {
    if xs == [] then fallback else xs[0]
  }

  /**
   * The reference driver: the requested one when it is in the data;
   * otherwise, with a `Position` column, the driver with the most laps in
   * first place (the first available driver when no lap has position 1),
   * and without one the driver with the lowest mean lap time; and the
   * first available driver should that choice not be in the data.
   */
  function ResolveReference(frame: LapFrame, requested: Option<DriverId>): (r: DriverId)
    requires frame.rows != []
    ensures r in Available(frame.rows)
    ensures requested.Some? && requested.value in Available(frame.rows) ==> r == requested.value
  {
    var rows := frame.rows;
    var available := Available(rows);
    if requested.Some? && requested.value in available then requested.value
    else
      AvailableHaveTimes(rows);
      var chosen :=
        if frame.hasPosition then
          var leaders := LeaderColumn(rows);
          if leaders == [] then available[0] else MostFrequent(Unique(leaders), leaders)
        else
          IdxMin(MeanStats(rows, available)).driver;
      if chosen in available then chosen else FirstOr(available, chosen)
  }

  /**
   * With a `Position` column and no usable request: the driver with the
   * most laps at position 1, or the first driver when no lap has it.
   */
  lemma ReferenceByLeadLaps(frame: LapFrame, requested: Option<DriverId>)
    requires frame.rows != [] && frame.hasPosition
    requires !(requested.Some? && requested.value in Available(frame.rows))
    ensures var r := ResolveReference(frame, requested);
      var leaders := LeaderColumn(frame.rows);
      && (leaders == [] ==> r == frame.rows[0].driver)
      && (leaders != [] ==> Count(leaders, r) > 0 && forall d :: Count(leaders, d) <= Count(leaders, r))
  {
    var leaders := LeaderColumn(frame.rows);
    if leaders != [] {
      var best := MostFrequent(Unique(leaders), leaders);
      assert best in leaders;
      CountPositive(leaders, best);
      forall d
        ensures Count(leaders, d) <= Count(leaders, best)
      {
        if d !in leaders {
          CountZero(leaders, d);
        }
      }
      assert best in Available(frame.rows);
    }
  }

  /**
   * Without a `Position` column and no usable request: a driver with the
   * lowest mean lap time, the first in driver order among equal means.
   */
  lemma ReferenceByMean(frame: LapFrame, requested: Option<DriverId>)
    requires frame.rows != [] && !frame.hasPosition
    requires !(requested.Some? && requested.value in Available(frame.rows))
    ensures forall d :: d in Available(frame.rows) ==> DriverTimes(frame.rows, d) != []
    ensures ResolveReference(frame, requested) in Available(frame.rows)
    ensures var r := ResolveReference(frame, requested);
      forall d :: d in Available(frame.rows) ==>
        DriverMean(frame.rows, r) < DriverMean(frame.rows, d) ||
        (DriverMean(frame.rows, r) == DriverMean(frame.rows, d) && !LexLess(d, r))
  {
    var rows := frame.rows;
    var available := Available(rows);
    AvailableHaveTimes(rows);
    var stats := MeanStats(rows, available);
    var best := IdxMin(stats);
    var k :| 0 <= k < |stats| && stats[k] == best;
    assert best.driver == available[k] && best.driver in available;
    assert ResolveReference(frame, requested) == best.driver;
    forall d | d in available
      ensures DriverMean(rows, best.driver) < DriverMean(rows, d) ||
        (DriverMean(rows, best.driver) == DriverMean(rows, d) && !LexLess(d, best.driver))
    {
      var i :| 0 <= i < |available| && available[i] == d;
      assert stats[i] in stats;
    }
  }

  lemma {:induction false} CountZero(xs: seq<DriverId>, d: DriverId)
    requires d !in xs
    ensures Count(xs, d) == 0
  {
    if xs != [] {
      CountZero(xs[..|xs| - 1], d);
    }
  }

  // ---------------------------------------------------------------------
  // Cumulative gap of one driver
  // ---------------------------------------------------------------------

  ghost predicate StrictlyIncreasing(s: seq<int>)
  {
    forall i, j :: 0 <= i < j < |s| ==> s[i] < s[j]
  }

  /** Adds `x` to a strictly increasing sequence, keeping it strictly increasing. */
  function Insert(s: seq<int>, x: int): (r: seq<int>)
    requires StrictlyIncreasing(s)
    ensures StrictlyIncreasing(r)
    ensures forall y :: y in r <==> y in s || y == x
  {
    if s == [] then [x]
    else if x < s[0] then [x] + s
    else if x == s[0] then s
    else
      var rest := Insert(s[1..], x);
      HeadBelowTail(s);
      ConsIncreasing(s[0], rest);
      [s[0]] + rest
  }

  /** In a strictly increasing sequence the head is below every later element. */
  lemma HeadBelowTail(s: seq<int>)
    requires StrictlyIncreasing(s) && s != []
    ensures forall y :: y in s[1..] ==> s[0] < y
    ensures forall y :: y in s <==> y == s[0] || y in s[1..]
  {
    forall y | y in s[1..]
      ensures s[0] < y
    {
      var k :| 0 <= k < |s[1..]| && s[1..][k] == y;
      assert s[k + 1] == y;
    }
  }

  /** Putting a value below every element in front keeps a sequence strictly increasing. */
  lemma ConsIncreasing(h: int, rest: seq<int>)
    requires StrictlyIncreasing(rest)
    requires forall y :: y in rest ==> h < y
    ensures StrictlyIncreasing([h] + rest)
  {
    var r := [h] + rest;
    forall i, j | 0 <= i < j < |r|
      ensures r[i] < r[j]
    {
      assert r[j] == rest[j - 1] && rest[j - 1] in rest;
      if i > 0 {
        assert r[i] == rest[i - 1];
      }
    }
  }

  /** `sorted(xs.unique())`. */
  function SortedDistinct(xs: seq<int>): (s: seq<int>)
    ensures StrictlyIncreasing(s)
    ensures forall y :: y in s <==> y in xs
  {
    if xs == [] then []
    else
      assert forall y :: y in xs <==> y in xs[..|xs| - 1] || y == xs[|xs| - 1];
      Insert(SortedDistinct(xs[..|xs| - 1]), xs[|xs| - 1])
  }

  /** The `LapNumber` column. */
  function LapColumn(rows: seq<LapRecord>): (ls: seq<int>)
    ensures |ls| == |rows| && forall j :: 0 <= j < |rows| ==> ls[j] == rows[j].lapNumber
  {
    seq(|rows|, j requires 0 <= j < |rows| => rows[j].lapNumber)
  }

  /**
   * `rows[rows['LapNumber'] == lap][time].iloc[0]`: the time of the first
   * row with that lap number, or None when there is none.
   */
  function FirstTimeAt(rows: seq<LapRecord>, lap: int): Option<real>
  {
    if rows == [] then None
    else if rows[0].lapNumber == lap then Some(rows[0].lapTimeSeconds)
    else FirstTimeAt(rows[1..], lap)
  }

  /**
   * A time is found exactly when some row has the lap number, and it is
   * the time of the first such row (duplicates after it are ignored).
   */
  lemma {:induction false} FirstTimeAtFirstRow(rows: seq<LapRecord>, lap: int)
    ensures FirstTimeAt(rows, lap).Some? <==> exists j :: 0 <= j < |rows| && rows[j].lapNumber == lap
    ensures FirstTimeAt(rows, lap).Some? ==>
      exists j :: (0 <= j < |rows| && rows[j].lapNumber == lap && rows[j].lapTimeSeconds == FirstTimeAt(rows, lap).value &&
        forall i :: 0 <= i < j ==> rows[i].lapNumber != lap)
  {
    if rows != [] && rows[0].lapNumber != lap {
      FirstTimeAtFirstRow(rows[1..], lap);
      assert forall j :: 1 <= j < |rows| ==> rows[1..][j - 1] == rows[j];
      if FirstTimeAt(rows, lap).Some? {
        var t := FirstTimeAt(rows, lap).value;
        var j :| 0 <= j < |rows[1..]| && rows[1..][j].lapNumber == lap && rows[1..][j].lapTimeSeconds == t &&
          forall i :: 0 <= i < j ==> rows[1..][i].lapNumber != lap;
        assert rows[j + 1] == rows[1..][j];
        forall i | 0 <= i < j + 1
          ensures rows[i].lapNumber != lap
        {
          if i > 0 {
            assert rows[i] == rows[1..][i - 1];
          }
        }
      }
    }
  }

  /** The laps of `laps` at which both the driver and the reference have a row, in order. */
  function Matched(laps: seq<int>, driverRows: seq<LapRecord>, refRows: seq<LapRecord>): seq<int>
  {
    if laps == [] then []
    else
      var earlier := Matched(laps[..|laps| - 1], driverRows, refRows);
      var lap := laps[|laps| - 1];
      if FirstTimeAt(driverRows, lap).Some? && FirstTimeAt(refRows, lap).Some? then earlier + [lap] else earlier
  }

  /** A lap is matched exactly when it is one of `laps` and both sides have a row for it. */
  lemma {:induction false} MatchedMembers(laps: seq<int>, driverRows: seq<LapRecord>, refRows: seq<LapRecord>)
    ensures forall x :: x in Matched(laps, driverRows, refRows) <==>
      x in laps && FirstTimeAt(driverRows, x).Some? && FirstTimeAt(refRows, x).Some?
  {
    if laps != [] {
      MatchedMembers(laps[..|laps| - 1], driverRows, refRows);
      assert forall y :: y in laps <==> y in laps[..|laps| - 1] || y == laps[|laps| - 1];
    }
  }

  lemma {:induction false} MatchedIncreasing(laps: seq<int>, driverRows: seq<LapRecord>, refRows: seq<LapRecord>)
    requires StrictlyIncreasing(laps)
    ensures StrictlyIncreasing(Matched(laps, driverRows, refRows))
  {
    if laps != [] {
      var front := laps[..|laps| - 1];
      MatchedIncreasing(front, driverRows, refRows);
      MatchedMembers(front, driverRows, refRows);
      var earlier := Matched(front, driverRows, refRows);
      var m := Matched(laps, driverRows, refRows);
      if m != earlier {
        assert m == earlier + [laps[|laps| - 1]];
        forall i, j | 0 <= i < j < |m|
          ensures m[i] < m[j]
        {
          if j == |m| - 1 {
            assert m[i] in earlier;
            var k :| 0 <= k < |front| && front[k] == m[i];
          }
        }
      }
    }
  }

  /** Every lap of `laps` has a row on both sides. */
  ghost predicate OnBothSides(laps: seq<int>, driverRows: seq<LapRecord>, refRows: seq<LapRecord>)
  {
    forall x :: x in laps ==> FirstTimeAt(driverRows, x).Some? && FirstTimeAt(refRows, x).Some?
  }

  /** `driver_lap[time].iloc[0] - ref_lap[time].iloc[0]` at each lap. */
  function Deltas(laps: seq<int>, driverRows: seq<LapRecord>, refRows: seq<LapRecord>): (ds: seq<real>)
    requires OnBothSides(laps, driverRows, refRows)
    ensures |ds| == |laps|
    ensures forall k :: 0 <= k < |laps| ==>
      ds[k] == FirstTimeAt(driverRows, laps[k]).value - FirstTimeAt(refRows, laps[k]).value
  {
    seq(|laps|, k requires 0 <= k < |laps| =>
      assert laps[k] in laps;
      FirstTimeAt(driverRows, laps[k]).value - FirstTimeAt(refRows, laps[k]).value)
  }

  /** The running totals of `ds`, starting from 0. */
  function RunningSums(ds: seq<real>): (cs: seq<real>)
    ensures |cs| == |ds|
  {
    if ds == [] then []
    else
      var earlier := RunningSums(ds[..|ds| - 1]);
      earlier + [(if earlier == [] then 0.0 else earlier[|earlier| - 1]) + ds[|ds| - 1]]
  }

  /**
   * The running totals start at the first difference, grow by each next
   * difference, and end at the sum of all differences.
   */
  lemma {:induction false} RunningSumsSteps(ds: seq<real>)
    ensures var cs := RunningSums(ds);
      && (ds != [] ==> cs[0] == ds[0] && cs[|cs| - 1] == Sum(ds))
      && forall k :: 0 < k < |ds| ==> cs[k] == cs[k - 1] + ds[k]
  {
    if ds != [] {
      var front := ds[..|ds| - 1];
      RunningSumsSteps(front);
      var cs := RunningSums(ds);
      assert cs[..|front|] == RunningSums(front);
      assert forall k :: 0 <= k < |front| ==> front[k] == ds[k];
    }
  }

  /** The series of one driver: matched laps and their cumulative gaps. */
  function GapLaps(driverRows: seq<LapRecord>, refRows: seq<LapRecord>): seq<int>
  {
    Matched(SortedDistinct(LapColumn(driverRows)), driverRows, refRows)
  }

  function CumulativeGaps(driverRows: seq<LapRecord>, refRows: seq<LapRecord>): seq<real>
  {
    var laps := GapLaps(driverRows, refRows);
    MatchedMembers(SortedDistinct(LapColumn(driverRows)), driverRows, refRows);
    RunningSums(Deltas(laps, driverRows, refRows))
  }

  /**
   * The lap loop of `plot_gap_analysis` for one driver: over the driver's
   * distinct lap numbers in ascending order, a lap where both sides have a
   * row adds the time difference to the running gap and is emitted.
   */
  method CumulativeGap(driverRows: seq<LapRecord>, refRows: seq<LapRecord>) returns (lapNumbers: seq<int>, gaps: seq<real>)
    ensures lapNumbers == GapLaps(driverRows, refRows)
    ensures gaps == CumulativeGaps(driverRows, refRows)
  {
    var sortedLaps := SortedDistinct(LapColumn(driverRows));
    lapNumbers := [];
    gaps := [];
    var cumulativeGap: real := 0.0;
    for i := 0 to |sortedLaps|
      invariant LoopState(sortedLaps[..i], driverRows, refRows, lapNumbers, gaps, cumulativeGap)
    {
      var lapNum := sortedLaps[i];
      var driverLap := FirstTimeAt(driverRows, lapNum);
      var refLap := FirstTimeAt(refRows, lapNum);
      if driverLap.Some? && refLap.Some? {
        LoopStepMatched(sortedLaps, i, driverRows, refRows, lapNumbers, gaps, cumulativeGap);
        var lapGap := driverLap.value - refLap.value;
        cumulativeGap := cumulativeGap + lapGap;
        lapNumbers := lapNumbers + [lapNum];
        gaps := gaps + [cumulativeGap];
      } else {
        LoopStepSkipped(sortedLaps, i, driverRows, refRows, lapNumbers, gaps, cumulativeGap);
      }
    }
    assert sortedLaps[..|sortedLaps|] == sortedLaps;
  }

  /** The state of the lap loop after the laps `seen`. */
  ghost predicate LoopState(seen: seq<int>, driverRows: seq<LapRecord>, refRows: seq<LapRecord>,
                            lapNumbers: seq<int>, gaps: seq<real>, cumulativeGap: real)
  {
    && lapNumbers == Matched(seen, driverRows, refRows)
    && OnBothSides(lapNumbers, driverRows, refRows)
    && gaps == RunningSums(Deltas(lapNumbers, driverRows, refRows))
    && cumulativeGap == if gaps == [] then 0.0 else gaps[|gaps| - 1]
  }

  /** A lap both sides have is emitted with the running gap grown by its difference. */
  lemma LoopStepMatched(laps: seq<int>, i: nat, driverRows: seq<LapRecord>, refRows: seq<LapRecord>,
                        lapNumbers: seq<int>, gaps: seq<real>, cumulativeGap: real)
    requires i < |laps|
    requires LoopState(laps[..i], driverRows, refRows, lapNumbers, gaps, cumulativeGap)
    requires FirstTimeAt(driverRows, laps[i]).Some? && FirstTimeAt(refRows, laps[i]).Some?
    ensures var next := cumulativeGap + (FirstTimeAt(driverRows, laps[i]).value - FirstTimeAt(refRows, laps[i]).value);
      LoopState(laps[..i + 1], driverRows, refRows, lapNumbers + [laps[i]], gaps + [next], next)
  {
    var lap := laps[i];
    var delta := FirstTimeAt(driverRows, lap).value - FirstTimeAt(refRows, lap).value;
    var lapNumbers' := lapNumbers + [lap];
    var gaps' := gaps + [cumulativeGap + delta];
    MatchedStep(laps, i, driverRows, refRows);
    DeltasStep(lapNumbers, lap, driverRows, refRows);
    RunningSumsStep(Deltas(lapNumbers, driverRows, refRows), delta);
    assert gaps' == RunningSums(Deltas(lapNumbers', driverRows, refRows));
  }

  /** A lap missing on either side leaves the loop's state as it was. */
  lemma LoopStepSkipped(laps: seq<int>, i: nat, driverRows: seq<LapRecord>, refRows: seq<LapRecord>,
                        lapNumbers: seq<int>, gaps: seq<real>, cumulativeGap: real)
    requires i < |laps|
    requires LoopState(laps[..i], driverRows, refRows, lapNumbers, gaps, cumulativeGap)
    requires !(FirstTimeAt(driverRows, laps[i]).Some? && FirstTimeAt(refRows, laps[i]).Some?)
    ensures LoopState(laps[..i + 1], driverRows, refRows, lapNumbers, gaps, cumulativeGap)
  {
    MatchedStep(laps, i, driverRows, refRows);
    assert lapNumbers + [] == lapNumbers;
  }

  lemma MatchedStep(laps: seq<int>, i: nat, driverRows: seq<LapRecord>, refRows: seq<LapRecord>)
    requires i < |laps|
    ensures Matched(laps[..i + 1], driverRows, refRows) ==
      Matched(laps[..i], driverRows, refRows) +
      (if FirstTimeAt(driverRows, laps[i]).Some? && FirstTimeAt(refRows, laps[i]).Some? then [laps[i]] else [])
  {
    assert laps[..i + 1][..i] == laps[..i];
  }

  lemma DeltasStep(laps: seq<int>, lap: int, driverRows: seq<LapRecord>, refRows: seq<LapRecord>)
    requires OnBothSides(laps, driverRows, refRows)
    requires FirstTimeAt(driverRows, lap).Some? && FirstTimeAt(refRows, lap).Some?
    ensures OnBothSides(laps + [lap], driverRows, refRows)
    ensures Deltas(laps + [lap], driverRows, refRows) ==
      Deltas(laps, driverRows, refRows) + [FirstTimeAt(driverRows, lap).value - FirstTimeAt(refRows, lap).value]
  {
  }

  lemma {:induction false} RunningSumsStep(ds: seq<real>, d: real)
    ensures RunningSums(ds + [d]) ==
      RunningSums(ds) + [(if ds == [] then 0.0 else RunningSums(ds)[|ds| - 1]) + d]
  {
    var e := ds + [d];
    assert e[..|e| - 1] == ds;
    var earlier := RunningSums(ds);
    assert |earlier| == |ds|;
    assert RunningSums(e) == earlier + [(if earlier == [] then 0.0 else earlier[|earlier| - 1]) + d];
  }

  /**
   * The emitted laps are strictly ascending; a lap is emitted exactly when
   * both the driver and the reference have a row for it (a lap missing on
   * either side is skipped, not filled with 0); each point is the
   * previous one plus the difference of the first rows at that lap, the
   * first point being that difference alone, so the last point is the
   * sum of all differences.
   */
  lemma CumulativeGapProperties(driverRows: seq<LapRecord>, refRows: seq<LapRecord>)
    ensures StrictlyIncreasing(GapLaps(driverRows, refRows))
    ensures OnBothSides(GapLaps(driverRows, refRows), driverRows, refRows)
    ensures forall lap :: lap in GapLaps(driverRows, refRows) <==>
      (exists j :: 0 <= j < |driverRows| && driverRows[j].lapNumber == lap) &&
      (exists j :: 0 <= j < |refRows| && refRows[j].lapNumber == lap)
    ensures var laps := GapLaps(driverRows, refRows);
      var gaps := CumulativeGaps(driverRows, refRows);
      && |gaps| == |laps|
      && (laps != [] ==> gaps[0] == FirstTimeAt(driverRows, laps[0]).value - FirstTimeAt(refRows, laps[0]).value)
      && (forall k :: 0 < k < |laps| ==>
           gaps[k] == gaps[k - 1] + (FirstTimeAt(driverRows, laps[k]).value - FirstTimeAt(refRows, laps[k]).value))
      && (laps != [] ==> gaps[|gaps| - 1] == Sum(Deltas(laps, driverRows, refRows)))
  {
    var sortedLaps := SortedDistinct(LapColumn(driverRows));
    MatchedIncreasing(sortedLaps, driverRows, refRows);
    MatchedMembers(sortedLaps, driverRows, refRows);
    forall lap
      ensures lap in GapLaps(driverRows, refRows) <==>
        (exists j :: 0 <= j < |driverRows| && driverRows[j].lapNumber == lap) &&
        (exists j :: 0 <= j < |refRows| && refRows[j].lapNumber == lap)
    {
      FirstTimeAtFirstRow(driverRows, lap);
      FirstTimeAtFirstRow(refRows, lap);
      if exists j :: 0 <= j < |driverRows| && driverRows[j].lapNumber == lap {
        var j :| 0 <= j < |driverRows| && driverRows[j].lapNumber == lap;
        assert LapColumn(driverRows)[j] == lap;
      }
    }
    RunningSumsSteps(Deltas(GapLaps(driverRows, refRows), driverRows, refRows));
  }

  // ---------------------------------------------------------------------
  // The driver loop
  // ---------------------------------------------------------------------

  /** The points of one driver's line: lap numbers and cumulative gaps. */
  datatype Points = Points(laps: seq<int>, gaps: seq<real>)

  /** One plotted line: driver, team, the teammate index and colour, and the points. */
  datatype GapSeries = GapSeries(driver: DriverId, team: string, colorIndex: nat, color: string, laps: seq<int>, gaps: seq<real>)

  /**
   * What the analyser draws: nothing for an empty table, the no-data
   * annotation when no driver has a line, or the lines against the
   * reference.
   */
  datatype GapChart = NoLapData | NoGapData(reference: DriverId) | Chart(reference: DriverId, series: seq<GapSeries>)

  /**
   * The points of driver `d` against `reference`, when `d` is not the
   * reference, both have rows, and the series has more than one point.
   */
  function DriverPoints(rows: seq<LapRecord>, reference: DriverId, d: DriverId): (p: Option<Points>)
    ensures p.Some? ==> d != reference && OfDriver(rows, d) != [] && OfDriver(rows, reference) != []
  {
    if d == reference then None
    else
      var driverRows := OfDriver(rows, d);
      var refRows := OfDriver(rows, reference);
      if driverRows == [] || refRows == [] then None
      else
        var gaps := CumulativeGaps(driverRows, refRows);
        if |gaps| > 1 then Some(Points(GapLaps(driverRows, refRows), gaps)) else None
  }

  /** The team of a driver's line: the first row's team, or "Unknown" without a `Team` column. */
  function TeamOf(frame: LapFrame, driverRows: seq<LapRecord>): string
    requires driverRows != []
  {
    if frame.hasTeam then driverRows[0].team else "Unknown"
  }

  /** How many lines of `team` are in `series`. */
  function TeamCount(series: seq<GapSeries>, team: string): nat
  {
    if series == [] then 0
    else TeamCount(series[..|series| - 1], team) + (if series[|series| - 1].team == team then 1 else 0)
  }

  /**
   * The lines after driver `d` is considered: unchanged when `d` has no
   * points, otherwise one more line, numbered after the earlier lines of
   * its team and coloured by that number.
   */
  function Extend(frame: LapFrame, reference: DriverId, earlier: seq<GapSeries>, d: DriverId, hashOf: string -> int): seq<GapSeries>
  {
    match DriverPoints(frame.rows, reference, d)
    case None => earlier
    case Some(p) =>
      var team := TeamOf(frame, OfDriver(frame.rows, d));
      var index := TeamCount(earlier, team);
      earlier + [GapSeries(d, team, index, Colors.DriverColor(team, index, hashOf(team)), p.laps, p.gaps)]
  }

  /** The lines drawn for the drivers `ds`, considered in order. */
  function Emitted(frame: LapFrame, reference: DriverId, ds: seq<DriverId>, hashOf: string -> int): seq<GapSeries>
  {
    if ds == [] then []
    else Extend(frame, reference, Emitted(frame, reference, ds[..|ds| - 1], hashOf), ds[|ds| - 1], hashOf)
  }

  lemma EmittedPrefixStep(frame: LapFrame, reference: DriverId, ds: seq<DriverId>, k: nat, hashOf: string -> int)
    requires k < |ds|
    ensures Emitted(frame, reference, ds[..k + 1], hashOf) ==
      Extend(frame, reference, Emitted(frame, reference, ds[..k], hashOf), ds[k], hashOf)
  {
    assert ds[..k + 1][..k] == ds[..k];
  }

  /** A driver without a line against the reference leaves the lines as they are. */
  lemma ExtendSkips(frame: LapFrame, reference: DriverId, earlier: seq<GapSeries>, d: DriverId, hashOf: string -> int)
    requires d == reference || OfDriver(frame.rows, d) == [] || OfDriver(frame.rows, reference) == [] ||
             |CumulativeGaps(OfDriver(frame.rows, d), OfDriver(frame.rows, reference))| <= 1
    ensures Extend(frame, reference, earlier, d, hashOf) == earlier
  {
  }

  /** A driver with more than one matched lap adds its line, numbered within its team. */
  lemma ExtendAdds(frame: LapFrame, reference: DriverId, earlier: seq<GapSeries>, d: DriverId, hashOf: string -> int)
    requires d != reference && OfDriver(frame.rows, d) != [] && OfDriver(frame.rows, reference) != []
    requires |CumulativeGaps(OfDriver(frame.rows, d), OfDriver(frame.rows, reference))| > 1
    ensures var driverRows := OfDriver(frame.rows, d);
      var refRows := OfDriver(frame.rows, reference);
      var team := TeamOf(frame, driverRows);
      var index := TeamCount(earlier, team);
      Extend(frame, reference, earlier, d, hashOf) ==
        earlier + [GapSeries(d, team, index, Colors.DriverColor(team, index, hashOf(team)),
                             GapLaps(driverRows, refRows), CumulativeGaps(driverRows, refRows))]
  {
  }

  /** `team_driver_count` agrees with the lines drawn so far. */
  ghost predicate CounterMatches(counter: map<string, nat>, series: seq<GapSeries>)
  {
    forall t :: CountOf(counter, series, t)
  }

  /** The count `counter` holds for `team` is the number of its lines in `series`. */
  ghost predicate CountOf(counter: map<string, nat>, series: seq<GapSeries>, team: string)
  {
    TeamCount(series, team) == if team in counter then counter[team] else 0
  }

  lemma CounterStep(counter: map<string, nat>, series: seq<GapSeries>, s: GapSeries)
    requires CounterMatches(counter, series)
    requires s.colorIndex == TeamCount(series, s.team)
    ensures CounterMatches(counter[s.team := s.colorIndex + 1], series + [s])
  {
    var after := series + [s];
    var updated := counter[s.team := s.colorIndex + 1];
    assert after[..|series|] == series;
    forall t
      ensures CountOf(updated, after, t)
    {
      assert CountOf(counter, series, t);
    }
  }

  /**
   * `plot_gap_analysis`: an empty table draws nothing; otherwise the
   * reference is resolved and every other available driver, in order of
   * first appearance, gets a line when it has more than one matched lap.
   * `team_driver_count` numbers the lines of each team so teammates get
   * different shades. The team-name hash is a parameter.
   */
  method PlotGapAnalysis(frame: LapFrame, requested: Option<DriverId>, hashOf: string -> int) returns (chart: GapChart)
    ensures frame.rows == [] <==> chart == NoLapData
    ensures frame.rows != [] ==>
      var reference := ResolveReference(frame, requested);
      var series := Emitted(frame, reference, Available(frame.rows), hashOf);
      (series == [] ==> chart == NoGapData(reference)) && (series != [] ==> chart == Chart(reference, series))
  {
    if frame.rows == [] {
      return NoLapData;
    }
    var reference := ResolveReference(frame, requested);
    chart := DrawLines(frame, reference, hashOf);
  }

  /**
   * The driver loop against a resolved reference: every available driver,
   * in order of first appearance, is offered a line, and the chart shows
   * the no-data annotation when none was drawn.
   */
  method DrawLines(frame: LapFrame, reference: DriverId, hashOf: string -> int) returns (chart: GapChart)
    ensures var series := Emitted(frame, reference, Available(frame.rows), hashOf);
      (series == [] ==> chart == NoGapData(reference)) && (series != [] ==> chart == Chart(reference, series))
  {
    var available := Available(frame.rows);
    var teamDriverCount: map<string, nat> := map[];
    var series: seq<GapSeries> := [];
    for k := 0 to |available|
      invariant series == Emitted(frame, reference, available[..k], hashOf)
      invariant CounterMatches(teamDriverCount, series)
    {
      EmittedPrefixStep(frame, reference, available, k, hashOf);
      teamDriverCount, series := DriverLine(frame, reference, available[k], hashOf, teamDriverCount, series);
    }
    assert available[..|available|] == available;
    if series == [] {
      return NoGapData(reference);
    }
    return Chart(reference, series);
  }

  /**
   * One pass of the driver loop: a driver other than the reference, with
   * rows on both sides and more than one matched lap, gets its line,
   * numbered and coloured by the count of its team's earlier lines, and
   * the count goes up by one.
   */
  method DriverLine(frame: LapFrame, reference: DriverId, driver: DriverId, hashOf: string -> int,
                    teamDriverCount: map<string, nat>, series: seq<GapSeries>)
    returns (counter: map<string, nat>, lines: seq<GapSeries>)
    requires CounterMatches(teamDriverCount, series)
    ensures lines == Extend(frame, reference, series, driver, hashOf)
    ensures CounterMatches(counter, lines)
  {
    counter, lines := teamDriverCount, series;
    if driver != reference {
      var driverLaps := OfDriver(frame.rows, driver);
      var refLaps := OfDriver(frame.rows, reference);
      if driverLaps != [] && refLaps != [] {
        var lapNumbers, gaps := CumulativeGap(driverLaps, refLaps);
        if |gaps| > 1 {
          var team := if frame.hasTeam then driverLaps[0].team else "Unknown";
          var driverIdx := if team in teamDriverCount then teamDriverCount[team] else 0;
          assert CountOf(teamDriverCount, series, team);
          var color := Colors.DriverColor(team, driverIdx, hashOf(team));
          var line := GapSeries(driver, team, driverIdx, color, lapNumbers, gaps);
          ExtendAdds(frame, reference, series, driver, hashOf);
          CounterStep(teamDriverCount, series, line);
          counter := teamDriverCount[line.team := line.colorIndex + 1];
          lines := series + [line];
          return;
        }
      }
    }
    ExtendSkips(frame, reference, series, driver, hashOf);
  }

  /** A line as the analyser computes it for its driver against the reference. */
  ghost predicate LineOf(frame: LapFrame, reference: DriverId, s: GapSeries)
  {
    && s.driver != reference
    && OfDriver(frame.rows, s.driver) != [] && OfDriver(frame.rows, reference) != []
    && s.team == TeamOf(frame, OfDriver(frame.rows, s.driver))
    && s.laps == GapLaps(OfDriver(frame.rows, s.driver), OfDriver(frame.rows, reference))
    && s.gaps == CumulativeGaps(OfDriver(frame.rows, s.driver), OfDriver(frame.rows, reference))
    && |s.gaps| >= 2
  }

  /** The teammate index of line `i` counts the earlier lines of its team and picks its colour. */
  ghost predicate Numbered(series: seq<GapSeries>, i: nat, hashOf: string -> int)
    requires i < |series|
  {
    && series[i].colorIndex == TeamCount(series[..i], series[i].team)
    && series[i].color == Colors.DriverColor(series[i].team, series[i].colorIndex, hashOf(series[i].team))
  }

  /**
   * Every drawn line belongs to one of `ds` and is that driver's
   * cumulative gap series against the reference, with at least two points;
   * it is never the reference's own line.
   */
  lemma {:induction false} EmittedLines(frame: LapFrame, reference: DriverId, ds: seq<DriverId>, hashOf: string -> int)
    ensures forall s :: s in Emitted(frame, reference, ds, hashOf) ==> s.driver in ds && LineOf(frame, reference, s)
  {
    if ds != [] {
      var front := ds[..|ds| - 1];
      EmittedLines(frame, reference, front, hashOf);
      assert forall e :: e in front ==> e in ds;
    }
  }

  ghost predicate AllNumbered(series: seq<GapSeries>, hashOf: string -> int)
  {
    forall i :: 0 <= i < |series| ==> Numbered(series, i, hashOf)
  }

  lemma ExtendNumbered(frame: LapFrame, reference: DriverId, earlier: seq<GapSeries>, d: DriverId, hashOf: string -> int)
    requires AllNumbered(earlier, hashOf)
    ensures AllNumbered(Extend(frame, reference, earlier, d, hashOf), hashOf)
  {
    var series := Extend(frame, reference, earlier, d, hashOf);
    if series != earlier {
      assert series[..|earlier|] == earlier;
      forall i | 0 <= i < |earlier|
        ensures Numbered(series, i, hashOf)
      {
        assert series[..i] == earlier[..i];
        assert Numbered(earlier, i, hashOf);
      }
    }
  }

  /** Every line's teammate index counts the earlier lines of its team, and picks its colour. */
  lemma {:induction false} EmittedNumbering(frame: LapFrame, reference: DriverId, ds: seq<DriverId>, hashOf: string -> int)
    ensures AllNumbered(Emitted(frame, reference, ds, hashOf), hashOf)
  {
    if ds != [] {
      EmittedNumbering(frame, reference, ds[..|ds| - 1], hashOf);
      ExtendNumbered(frame, reference, Emitted(frame, reference, ds[..|ds| - 1], hashOf), ds[|ds| - 1], hashOf);
    }
  }

  /** Every driver of `ds` whose series against the reference has points gets a line. */
  lemma {:induction false} EmittedComplete(frame: LapFrame, reference: DriverId, ds: seq<DriverId>, hashOf: string -> int, d: DriverId)
    requires d in ds && DriverPoints(frame.rows, reference, d).Some?
    ensures exists s :: s in Emitted(frame, reference, ds, hashOf) && s.driver == d
  {
    var front := ds[..|ds| - 1];
    var earlier := Emitted(frame, reference, front, hashOf);
    var series := Emitted(frame, reference, ds, hashOf);
    assert forall s :: s in earlier ==> s in series;
    if d == ds[|ds| - 1] {
      assert series[|series| - 1].driver == d;
    } else {
      assert d in front;
      EmittedComplete(frame, reference, front, hashOf, d);
    }
  }

  /**
   * The chart's lines: the reference never gets one, every other
   * available driver with more than one matched lap does, and every line
   * has strictly increasing lap numbers, each with rows for both drivers.
   */
  lemma ChartLines(frame: LapFrame, requested: Option<DriverId>, hashOf: string -> int)
    requires frame.rows != []
    ensures var reference := ResolveReference(frame, requested);
      forall s :: s in Emitted(frame, reference, Available(frame.rows), hashOf) ==>
        && s.driver != reference && s.driver in Available(frame.rows)
        && |s.laps| == |s.gaps| >= 2 && StrictlyIncreasing(s.laps)
        && OnBothSides(s.laps, OfDriver(frame.rows, s.driver), OfDriver(frame.rows, reference))
  {
    var reference := ResolveReference(frame, requested);
    var series := Emitted(frame, reference, Available(frame.rows), hashOf);
    EmittedLines(frame, reference, Available(frame.rows), hashOf);
    forall s | s in series
      ensures && s.driver != reference && s.driver in Available(frame.rows)
        && |s.laps| == |s.gaps| >= 2 && StrictlyIncreasing(s.laps)
        && OnBothSides(s.laps, OfDriver(frame.rows, s.driver), OfDriver(frame.rows, reference))
    {
      CumulativeGapProperties(OfDriver(frame.rows, s.driver), OfDriver(frame.rows, reference));
    }
  }

  /**
   * The analyser shows its no-data annotation exactly when no available
   * driver other than the reference has more than one lap in common with it.
   */
  lemma NoGapDataIff(frame: LapFrame, requested: Option<DriverId>, hashOf: string -> int)
    requires frame.rows != []
    ensures var reference := ResolveReference(frame, requested);
      Emitted(frame, reference, Available(frame.rows), hashOf) == [] <==>
        forall d :: d in Available(frame.rows) ==> DriverPoints(frame.rows, reference, d).None?
  {
    var reference := ResolveReference(frame, requested);
    var ds := Available(frame.rows);
    var series := Emitted(frame, reference, ds, hashOf);
    if series != [] {
      EmittedLines(frame, reference, ds, hashOf);
      assert series[0] in series;
      assert DriverPoints(frame.rows, reference, series[0].driver).Some?;
    }
    forall d | d in ds && DriverPoints(frame.rows, reference, d).Some?
      ensures series != []
    {
      EmittedComplete(frame, reference, ds, hashOf, d);
    }
  }
}
