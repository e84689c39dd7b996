/**
 * The tyre-strategy simulator of app.py: one feature row per lap of the
 * stint, the model's predicted lap times scaled by the driver profile, and
 * what the dashboard derives from them (fresh and end-of-stint times,
 * degradation, the performance cliff, the delta to the fresh-tyre lap, the
 * cumulative time lost and the confidence band).
 *
 * The preprocessor and the trained model are not part of this model: the
 * prediction is a parameter that maps the feature rows to a vector of lap
 * times or fails.
 */
module Simulator {
  import opened Common
  import opened Aggregates

  /** The race lap the simulated stint starts after (`base_lap_number`). */
  const BaseLapNumber: int := 10

  /** One row of `sim_df`: the features the model is asked about. */
  datatype FeatureRow = FeatureRow(
    tyreAge: int, lapNumber: int, compound: Compound, trackId: string, driverId: string, teamId: string)

  /** The driver profiles the simulator offers. */
  datatype Profile = AverageDriver | ChampionshipContender | Rookie

  /**
   * The feature row of stint lap `stintLap`: tyres that old, on race lap
   * `base_lap_number + stintLap`, for an average driver of a midfield team.
   */
  function RowForLap(stintLap: int, compound: Compound, circuit: string): FeatureRow
  {
    FeatureRow(stintLap, BaseLapNumber + stintLap, compound, circuit, "Average", "Midfield")
  }

  /**
   * The loop that fills `sim_data`: exactly `stintLength` rows, the i-th
   * (from 1) with tyre age i and race lap 10 + i.
   */
  method BuildFeatureRows(stintLength: nat, compound: Compound, circuit: string) returns (rows: seq<FeatureRow>)
    ensures |rows| == stintLength
    ensures forall i :: 0 <= i < |rows| ==>
      rows[i].tyreAge == i + 1 && rows[i].lapNumber == BaseLapNumber + i + 1 && rows[i] == RowForLap(i + 1, compound, circuit)
  {
    rows := [];
    for stintLap := 1 to stintLength + 1
      invariant |rows| == stintLap - 1
      invariant forall i :: 0 <= i < |rows| ==> rows[i] == RowForLap(i + 1, compound, circuit)
    {
      rows := rows + [RowForLap(stintLap, compound, circuit)];
    }
  }

  /** The multiplier the profile applies to every prediction. */
  function SkillFactor(profile: Profile): (f: real)
    ensures f > 0.0
  {
    match profile
    case ChampionshipContender => 0.995
    case Rookie => 1.005
    case AverageDriver => 1.0
  }

  /**
   * The skill adjustment: the contender's times scaled by 0.995, the
   * rookie's by 1.005, an average driver's left as predicted.
   */
  function ApplySkill(predictions: seq<real>, profile: Profile): (adjusted: seq<real>)
    ensures |adjusted| == |predictions|
    ensures profile == AverageDriver ==> adjusted == predictions
  {
    match profile
    case AverageDriver => predictions
    case _ => seq(|predictions|, i requires 0 <= i < |predictions| => predictions[i] * SkillFactor(profile))
  }

  /**
   * Every adjusted time is the prediction times the profile's factor, so the
   * adjustment keeps the order of any two laps.
   */
  lemma SkillScalesUniformly(predictions: seq<real>, profile: Profile)
    ensures var adjusted := ApplySkill(predictions, profile);
      forall i :: 0 <= i < |predictions| ==> adjusted[i] == predictions[i] * SkillFactor(profile)
    ensures var adjusted := ApplySkill(predictions, profile);
      forall i, j :: 0 <= i < |predictions| && 0 <= j < |predictions| ==>
        (adjusted[i] <= adjusted[j] <==> predictions[i] <= predictions[j])
  {
    var adjusted := ApplySkill(predictions, profile);
    var f := SkillFactor(profile);
    forall i, j | 0 <= i < |predictions| && 0 <= j < |predictions|
      ensures adjusted[i] <= adjusted[j] <==> predictions[i] <= predictions[j]
    {
      assert adjusted[i] == predictions[i] * f && adjusted[j] == predictions[j] * f;
      assert adjusted[j] - adjusted[i] == (predictions[j] - predictions[i]) * f;
    }
  }

  /** "Total Degradation": the last predicted lap minus the first. */
  function TotalDegradation(p: seq<real>): real
    requires p != []
  {
    p[|p| - 1] - p[0]
  }

  /** The lap-to-lap changes of the predicted times. */
  function LapToLap(p: seq<real>): (d: seq<real>)
    ensures |d| == if p == [] then 0 else |p| - 1
  {
    if |p| <= 1 then [] else seq(|p| - 1, i requires 0 <= i < |p| - 1 => p[i + 1] - p[i])
  }

  /** The total degradation is the sum of the lap-to-lap changes over the stint. */
  lemma {:induction false} TotalDegradationTelescopes(p: seq<real>)
    requires p != []
    ensures TotalDegradation(p) == Sum(LapToLap(p))
  {
    if |p| > 1 {
      var front := p[..|p| - 1];
      TotalDegradationTelescopes(front);
      var d := LapToLap(p);
      assert d[..|d| - 1] == LapToLap(front);
    }
  }

  /** `np.where(p > p[0] + 1.0)[0]`: the first index, if any, whose time exceeds `threshold`. */
  function FirstAbove(p: seq<real>, threshold: real): (r: Option<nat>)
    ensures r.Some? ==> r.value < |p| && p[r.value] > threshold
    ensures r.Some? ==> forall j :: 0 <= j < r.value ==> p[j] <= threshold
    ensures r.None? ==> forall j :: 0 <= j < |p| ==> p[j] <= threshold
  {
    if p == [] then None
    else
      match FirstAbove(p[..|p| - 1], threshold)
      case Some(i) => Some(i)
      case None => if p[|p| - 1] > threshold then Some(|p| - 1) else None
  }

  /**
   * "Performance Cliff": the 1-based stint lap of the first prediction
   * more than a second slower than the fresh-tyre lap, or none ("Beyond
   * stint"). The first lap can never qualify, so a cliff lies in 2..n.
   */
  function CliffLap(p: seq<real>): (lap: Option<nat>)
    requires p != []
    ensures lap.Some? ==>
      && 2 <= lap.value <= |p|
      && p[lap.value - 1] > p[0] + 1.0
      && forall j :: 0 <= j < lap.value - 1 ==> p[j] <= p[0] + 1.0
    ensures lap.None? <==> forall j :: 0 <= j < |p| ==> p[j] <= p[0] + 1.0
  {
    match FirstAbove(p, p[0] + 1.0)
    case None => None
    case Some(i) => Some(i + 1)
  }

  /**
   * "Delta to Fresh": each predicted lap minus the first. It is 0 on the
   * first lap, ends at the total degradation, and orders the laps as their
   * predicted times do.
   */
  function DeltaToFresh(p: seq<real>): (d: seq<real>)
    requires p != []
    ensures |d| == |p|
    ensures d[0] == 0.0 && d[|p| - 1] == TotalDegradation(p)
  {
    seq(|p|, i requires 0 <= i < |p| => p[i] - p[0])
  }

  /** The deltas order the laps as their predicted times do. */
  lemma DeltaToFreshOrder(p: seq<real>)
    requires p != []
    ensures var d := DeltaToFresh(p);
      forall i, j :: 0 <= i < |p| && 0 <= j < |p| ==> (d[i] <= d[j] <==> p[i] <= p[j])
  {
    var d := DeltaToFresh(p);
    forall i, j | 0 <= i < |p| && 0 <= j < |p|
      ensures d[i] <= d[j] <==> p[i] <= p[j]
    {
      assert d[i] == p[i] - p[0] && d[j] == p[j] - p[0];
    }
  }

  /**
   * "Time Lost (Cumulative)": the sum of the deltas up to and including
   * each lap, so 0 on the first lap and the previous lap's value plus this
   * lap's delta on every later one.
   */
  function TimeLost(p: seq<real>): (c: seq<real>)
    requires p != []
    ensures |c| == |p|
    ensures c[0] == 0.0
    ensures forall i :: 0 < i < |p| ==> c[i] == c[i - 1] + DeltaToFresh(p)[i]
  {
    var d := DeltaToFresh(p);
    PrefixSumsStep(d);
    seq(|p|, i requires 0 <= i < |p| => Sum(d[..i + 1]))
  }

  /** The sum of a prefix one longer is the shorter sum plus the next element. */
  lemma PrefixSumsStep(d: seq<real>)
    requires d != []
    ensures Sum(d[..1]) == d[0]
    ensures forall i :: 0 < i < |d| ==> Sum(d[..i + 1]) == Sum(d[..i]) + d[i]
  {
    assert d[..1] == [d[0]];
    assert Sum(d[..1]) == Sum([]) + d[0];
    forall i | 0 < i < |d|
      ensures Sum(d[..i + 1]) == Sum(d[..i]) + d[i]
    {
      assert d[..i + 1] == d[..i] + [d[i]];
      SumAppend(d[..i], d[i]);
    }
  }

  /**
   * On a curve that never gets faster than the fresh-tyre lap, every delta
   * is non-negative and the time lost never decreases.
   */
  lemma TimeLostNeverDecreases(p: seq<real>)
    requires p != []
    requires forall i :: 0 <= i < |p| ==> p[i] >= p[0]
    ensures forall i :: 0 <= i < |p| ==> DeltaToFresh(p)[i] >= 0.0
    ensures forall i :: 0 < i < |p| ==> TimeLost(p)[i - 1] <= TimeLost(p)[i]
  {
    var d := DeltaToFresh(p);
    DeltaToFreshOrder(p);
    forall i | 0 <= i < |p|
      ensures d[i] >= 0.0
    {
      assert d[0] <= d[i];
    }
  }

  /** The figures the dashboard shows for a simulated stint. */
  datatype SimulationStats = SimulationStats(
    freshTyre: real, endOfStint: real, totalDegradation: real, averageDegradation: real,
    optimalWindowEnd: int, cliff: Option<nat>, deltaToFresh: seq<real>, timeLost: seq<real>)

  /**
   * The statistics of an adjusted prediction vector: the average divides
   * the total degradation by the chosen stint length; the optimal window
   * ends at lap `min(15, stint_length)`.
   */
  function Statistics(p: seq<real>, stintLength: nat): (s: SimulationStats)
    requires p != [] && stintLength > 0
    ensures s.freshTyre == p[0] && s.endOfStint == p[|p| - 1]
    ensures s.totalDegradation == s.endOfStint - s.freshTyre
    ensures s.averageDegradation * stintLength as real == s.totalDegradation
    ensures s.optimalWindowEnd <= 15 && s.optimalWindowEnd <= stintLength
    ensures s.optimalWindowEnd == 15 || s.optimalWindowEnd == stintLength
  {
    SimulationStats(
      p[0], p[|p| - 1], TotalDegradation(p), TotalDegradation(p) / stintLength as real,
      if stintLength < 15 then stintLength else 15, CliffLap(p), DeltaToFresh(p), TimeLost(p))
  }

  /**
   * A flat curve shows no degradation, no cliff, and no delta or time lost
   * on any lap.
   */
  lemma FlatCurve(p: seq<real>, stintLength: nat, c: real)
    requires p != [] && stintLength > 0
    requires forall i :: 0 <= i < |p| ==> p[i] == c
    ensures var s := Statistics(p, stintLength);
      && s.totalDegradation == 0.0 && s.averageDegradation == 0.0 && s.cliff.None?
      && (forall i :: 0 <= i < |p| ==> s.deltaToFresh[i] == 0.0 && s.timeLost[i] == 0.0)
  {
    var d := DeltaToFresh(p);
    forall i | 0 <= i < |p|
      ensures TimeLost(p)[i] == 0.0
    {
      SumConstant(d[..i + 1], 0.0);
    }
  }

  /**
   * The confidence band around the adjusted predictions: one width,
   * a tenth of their deviation `std`, above and below every lap.
   */
  datatype Band = Band(upper: seq<real>, lower: seq<real>)

  function ConfidenceBand(p: seq<real>, std: real): (b: Band)
    requires std >= 0.0
    ensures |b.upper| == |p| && |b.lower| == |p|
    ensures forall i :: 0 <= i < |p| ==> b.lower[i] <= p[i] <= b.upper[i]
    ensures forall i, j :: 0 <= i < |p| && 0 <= j < |p| ==> b.upper[i] - p[i] == p[j] - b.lower[j]
  {
    var w := std * 0.1;
    Band(seq(|p|, i requires 0 <= i < |p| => p[i] + w), seq(|p|, i requires 0 <= i < |p| => p[i] - w))
  }

  /**
   * A larger deviation gives a band that contains the narrower one, and a
   * curve without spread (deviation 0) has a band of no width.
   */
  lemma BandGrowsWithDeviation(p: seq<real>, narrow: real, wide: real)
    requires 0.0 <= narrow <= wide
    ensures var n := ConfidenceBand(p, narrow);
      var w := ConfidenceBand(p, wide);
      forall i :: 0 <= i < |p| ==> w.lower[i] <= n.lower[i] && n.upper[i] <= w.upper[i]
    ensures ConfidenceBand(p, 0.0).upper == p == ConfidenceBand(p, 0.0).lower
  {
    var b := ConfidenceBand(p, 0.0);
    assert forall i :: 0 <= i < |p| ==> b.upper[i] == p[i] == b.lower[i];
  }

  /**
   * "Run Simulation": build the feature rows for the stint, ask the model,
   * adjust for the profile and derive the statistics. A failing model gives
   * its error message; so does a prediction vector whose first element the
   * dashboard cannot read (an empty one), or whose length differs from the
   * stint's, which the lap-by-lap table cannot be built from. The stint
   * length comes from a slider between 5 and 50 laps.
   */
  method RunSimulation(
    compound: Compound, circuit: string, profile: Profile, stintLength: nat,
    predict: seq<FeatureRow> -> Result<seq<real>, string>)
    returns (outcome: Result<SimulationStats, string>)
    requires 5 <= stintLength <= 50
    ensures var rows := seq(stintLength, i requires 0 <= i < stintLength => RowForLap(i + 1, compound, circuit));
      match predict(rows)
      case Err(e) => outcome == Err(e)
      case Ok(raw) =>
        && (|raw| != stintLength ==> outcome.Err?)
        && (|raw| == stintLength ==> outcome == Ok(Statistics(ApplySkill(raw, profile), stintLength)))
    ensures outcome.Ok? ==>
      |outcome.value.deltaToFresh| == stintLength && |outcome.value.timeLost| == stintLength
  {
    var rows := BuildFeatureRows(stintLength, compound, circuit);
    assert rows == seq(stintLength, i requires 0 <= i < stintLength => RowForLap(i + 1, compound, circuit));
    match predict(rows)
    case Err(e) =>
      outcome := Err(e);
    case Ok(raw) =>
      if raw == [] {
        outcome := Err("index 0 is out of bounds for axis 0 with size 0");
      } else if |raw| != stintLength {
        outcome := Err("All arrays must be of the same length");
      } else {
        var predictions := ApplySkill(raw, profile);
        outcome := Ok(Statistics(predictions, stintLength));
      }
  }
}
