/**
 * The lap normaliser of utils/data_loading.py: `get_lap_data` (rows of the
 * selected drivers, rows without a lap time dropped, personal-best flag,
 * gap to the fastest lap, tyre age), the tyre-age loop of
 * `get_strategy_data`, and `format_lap_time`.
 */
module DataLoading {
  import opened Common
  import opened Aggregates

  /** One row of the timing provider's lap table. */
  datatype RawLap = RawLap(
    driver: DriverId,
    lapNumber: int,
    lapTime: Option<real>,       // seconds; None when the provider has no time
    compound: Option<Compound>,  // None when the compound is unknown
    position: Option<int>)

  /**
   * A loaded race session: its lap table and its roster, which maps each
   * driver the session knows to that driver's team name.
   */
  datatype Session = Session(laps: seq<RawLap>, roster: map<DriverId, string>)

  /** A raw lap with the `Team` column that `get_lap_data` adds. */
  datatype TeamLap = TeamLap(lap: RawLap, team: string)

  /** One row of the table `get_lap_data` returns. */
  datatype LapRecord = LapRecord(
    driver: DriverId,
    team: string,
    lapNumber: int,
    lapTimeSeconds: real,
    compound: Option<Compound>,
    position: Option<int>,
    isPersonalBest: bool,
    gapToFastest: real,
    tyreAge: nat)

  // ---------------------------------------------------------------------
  // Tyre age
  // ---------------------------------------------------------------------

  /**
   * Tyre age at row `i` of one driver's rows in the normaliser: 1 on the
   * first row, on a missing compound and on any change of compound
   * (a return to an earlier compound included); otherwise one more than
   * the row before.
   */
  function TyreAgeAt(cs: seq<Option<Compound>>, i: nat): (age: nat)
    requires i < |cs|
    ensures 1 <= age <= i + 1
  {
    if i == 0 || cs[i].None? || cs[i - 1] != cs[i] then 1 else TyreAgeAt(cs, i - 1) + 1
  }

  /**
   * Tyre age at row `i` in the copy of the loop inside `get_strategy_data`,
   * which resets only when the compound differs from the previous row's,
   * so a run of missing compounds keeps counting.
   */
  function StrategyTyreAgeAt(cs: seq<Option<Compound>>, i: nat): (age: nat)
    requires i < |cs|
    ensures 1 <= age <= i + 1
  {
    if i == 0 || cs[i - 1] != cs[i] then 1 else StrategyTyreAgeAt(cs, i - 1) + 1
  }

  /**
   * The age is the length of the current stint: with `s` the row where
   * the age last reset, every row from `s` to `i` has the compound of
   * row `s`, none of the rows after `s` has a missing compound, and row
   * `s` is a stint start (first row, missing compound or compound change).
   */
  lemma {:induction false} TyreAgeCountsStint(cs: seq<Option<Compound>>, i: nat)
    requires i < |cs|
    ensures var s := i + 1 - TyreAgeAt(cs, i);
      && (s == 0 || cs[s].None? || cs[s - 1] != cs[s])
      && (forall j :: s < j <= i ==> cs[j] == cs[s] && cs[j].Some?)
  {
    if !(i == 0 || cs[i].None? || cs[i - 1] != cs[i]) {
      TyreAgeCountsStint(cs, i - 1);
    }
  }

  /** The two copies agree wherever the compound is known. */
  lemma {:induction false} TyreAgeCopiesAgreeOnKnownCompound(cs: seq<Option<Compound>>, i: nat)
    requires i < |cs| && cs[i].Some?
    ensures StrategyTyreAgeAt(cs, i) == TyreAgeAt(cs, i)
  {
    if i > 0 && cs[i - 1] == cs[i] {
      TyreAgeCopiesAgreeOnKnownCompound(cs, i - 1);
    }
  }

  /**
   * Where the two copies differ: exactly at a missing compound that
   * follows another missing compound, where the normaliser restarts at 1
   * and the strategy copy keeps counting.
   */
  lemma TyreAgeCopiesDiffer(cs: seq<Option<Compound>>, i: nat)
    requires i < |cs|
    ensures StrategyTyreAgeAt(cs, i) != TyreAgeAt(cs, i) <==> i > 0 && cs[i].None? && cs[i - 1].None?
  {
    if cs[i].Some? {
      TyreAgeCopiesAgreeOnKnownCompound(cs, i);
    }
  }

  function Compounds(rows: seq<LapRecord>): (cs: seq<Option<Compound>>)
    ensures |cs| == |rows| && forall i :: 0 <= i < |rows| ==> cs[i] == rows[i].compound
  {
    seq(|rows|, i requires 0 <= i < |rows| => rows[i].compound)
  }

  /** The rows of one driver with the `TyreAge` column filled in. */
  function WithTyreAge(rows: seq<LapRecord>): (aged: seq<LapRecord>)
    ensures |aged| == |rows|
  {
    seq(|rows|, i requires 0 <= i < |rows| => rows[i].(tyreAge := TyreAgeAt(Compounds(rows), i)))
  }

  /**
   * `calculate_tyre_age`: walks one driver's rows in order, keeping the
   * current age and the previous compound, and writes the age into each
   * row of a copy whose `TyreAge` column starts at 0.
   */
  method CalculateTyreAge(driverData: seq<LapRecord>) returns (aged: seq<LapRecord>)
    ensures |aged| == |driverData|
    ensures forall i :: 0 <= i < |aged| ==>
      aged[i] == driverData[i].(tyreAge := TyreAgeAt(Compounds(driverData), i))
    ensures aged == WithTyreAge(driverData)
  {
    ghost var cs := Compounds(driverData);
    aged := seq(|driverData|, i requires 0 <= i < |driverData| => driverData[i].(tyreAge := 0));
    var currentAge: nat := 0;
    var previousCompound: Option<Compound> := None;
    for idx := 0 to |driverData|
      invariant |aged| == |driverData|
      invariant forall i :: 0 <= i < idx ==> aged[i] == driverData[i].(tyreAge := TyreAgeAt(cs, i))
      invariant forall i :: idx <= i < |aged| ==> aged[i] == driverData[i].(tyreAge := 0)
      invariant idx == 0 ==> currentAge == 0 && previousCompound.None?
      invariant idx > 0 ==> currentAge == TyreAgeAt(cs, idx - 1) && previousCompound == cs[idx - 1]
    {
      var row := driverData[idx];
      assert cs[idx] == row.compound;
      if row.compound.None? || previousCompound != row.compound {
        currentAge := 1;
      } else {
        currentAge := currentAge + 1;
      }
      assert currentAge == TyreAgeAt(cs, idx);
      aged := aged[idx := row.(tyreAge := currentAge)];
      previousCompound := row.compound;
    }
    assert aged == WithTyreAge(driverData);
  }

  // ---------------------------------------------------------------------
  // get_lap_data
  // ---------------------------------------------------------------------

  /** `session.laps.pick_drivers(d)`: the rows of driver `d`, in session order. */
  function PickDriver(laps: seq<RawLap>, d: DriverId): (picked: seq<RawLap>)
    ensures forall x :: x in picked ==> x in laps && x.driver == d
    ensures forall x :: x in laps && x.driver == d ==> x in picked
  {
    if laps == [] then []
    else
      var earlier := PickDriver(laps[..|laps| - 1], d);
      assert forall x :: x in laps ==> x in laps[..|laps| - 1] || x == laps[|laps| - 1];
      if laps[|laps| - 1].driver == d then earlier + [laps[|laps| - 1]] else earlier
  }

  /** The rows of one driver with the `Team` column added. */
  function WithTeam(picked: seq<RawLap>, team: string): (rows: seq<TeamLap>)
    ensures |rows| == |picked|
    ensures forall i :: 0 <= i < |rows| ==> rows[i] == TeamLap(picked[i], team)
  {
    seq(|picked|, i requires 0 <= i < |picked| => TeamLap(picked[i], team))
  }

  /**
   * The per-driver frames `get_lap_data` concatenates, for the first
   * `|drivers|` selected drivers; None once the roster lookup of a driver
   * with laps has raised (the whole call then returns an empty table).
   */
  function Collected(s: Session, drivers: seq<DriverId>): (c: Option<seq<TeamLap>>)
    ensures c.Some? ==> forall x :: x in c.value ==>
      x.lap in s.laps && x.lap.driver in drivers && x.lap.driver in s.roster && x.team == s.roster[x.lap.driver]
  {
    if drivers == [] then Some([])
    else
      var front := drivers[..|drivers| - 1];
      var earlier := Collected(s, front);
      var d := drivers[|drivers| - 1];
      var picked := PickDriver(s.laps, d);
      assert forall e :: e in front ==> e in drivers;
      if earlier.None? then None
      else if picked == [] then earlier
      else if d !in s.roster then None
      else Some(earlier.value + WithTeam(picked, s.roster[d]))
  }

  lemma {:induction false} CollectedStaysFailed(s: Session, drivers: seq<DriverId>, i: nat)
    requires i <= |drivers| && Collected(s, drivers[..i]).None?
    ensures Collected(s, drivers).None?
    decreases |drivers| - i
  {
    if i < |drivers| {
      assert drivers[..i + 1][..i] == drivers[..i];
      CollectedStaysFailed(s, drivers, i + 1);
    } else {
      assert drivers[..i] == drivers;
    }
  }

  /** Every row of a selected driver is collected. */
  lemma {:induction false} CollectedRowsAreComplete(s: Session, drivers: seq<DriverId>)
    requires Collected(s, drivers).Some?
    ensures forall x :: x in s.laps && x.driver in drivers ==>
      x.driver in s.roster && TeamLap(x, s.roster[x.driver]) in Collected(s, drivers).value
  {
    if drivers != [] {
      var front := drivers[..|drivers| - 1];
      var d := drivers[|drivers| - 1];
      CollectedRowsAreComplete(s, front);
      forall x | x in s.laps && x.driver in drivers
        ensures x.driver in s.roster && TeamLap(x, s.roster[x.driver]) in Collected(s, drivers).value
      {
        if x.driver !in front {
          assert x.driver == d;
          assert x in PickDriver(s.laps, d);
          var picked := PickDriver(s.laps, d);
          var k :| 0 <= k < |picked| && picked[k] == x;
          assert WithTeam(picked, s.roster[d])[k] == TeamLap(x, s.roster[d]);
        }
      }
    }
  }

  /**
   * `dropna(subset=['LapTime'])` followed by the `LapTimeSeconds` column:
   * the rows that have a lap time, in order, as records whose derived
   * columns are not yet filled in.
   */
  function DropMissingTimes(rows: seq<TeamLap>): (records: seq<LapRecord>)
    ensures |records| <= |rows|
    ensures forall r :: r in records ==> Untimed(r) in rows && Timed(Untimed(r)) == r
    ensures forall x :: x in rows && x.lap.lapTime.Some? ==> Timed(x) in records
    ensures forall i :: 0 <= i < |records| ==>
      records[i].tyreAge == 0 && !records[i].isPersonalBest && records[i].gapToFastest == 0.0
  {
    if rows == [] then []
    else
      var earlier := DropMissingTimes(rows[..|rows| - 1]);
      var x := rows[|rows| - 1];
      assert forall y :: y in rows ==> y in rows[..|rows| - 1] || y == x;
      if x.lap.lapTime.Some? then earlier + [Timed(x)] else earlier
  }

  /** The record of a row that has a lap time. */
  function Timed(x: TeamLap): LapRecord
    requires x.lap.lapTime.Some?
  {
    LapRecord(x.lap.driver, x.team, x.lap.lapNumber, x.lap.lapTime.value,
              x.lap.compound, x.lap.position, false, 0.0, 0)
  }

  /** The raw row, with its team, that a record was made from. */
  function Untimed(r: LapRecord): (x: TeamLap)
    ensures x.lap.lapTime.Some?
  {
    TeamLap(RawLap(r.driver, r.lapNumber, Some(r.lapTimeSeconds), r.compound, r.position), r.team)
  }

  /** The lap times of driver `d` in `rows`. */
  function DriverTimes(rows: seq<LapRecord>, d: DriverId): (ts: seq<real>)
    ensures forall j :: 0 <= j < |rows| && rows[j].driver == d ==> rows[j].lapTimeSeconds in ts
    ensures forall t :: t in ts ==> exists j :: 0 <= j < |rows| && rows[j].driver == d && rows[j].lapTimeSeconds == t
  {
    if rows == [] then []
    else
      var earlier := DriverTimes(rows[..|rows| - 1], d);
      var x := rows[|rows| - 1];
      assert forall j :: 0 <= j < |rows| - 1 ==> rows[..|rows| - 1][j] == rows[j];
      if x.driver == d then earlier + [x.lapTimeSeconds] else earlier
  }

  /** The lap times of all rows. */
  function AllTimes(rows: seq<LapRecord>): (ts: seq<real>)
    ensures |ts| == |rows| && forall j :: 0 <= j < |rows| ==> ts[j] == rows[j].lapTimeSeconds
  {
    seq(|rows|, j requires 0 <= j < |rows| => rows[j].lapTimeSeconds)
  }

  /**
   * The `IsPersonalBest` column (groupby driver, time equals the group's
   * minimum): true exactly on the rows no other row of the same driver beats.
   */
  function MarkPersonalBests(rows: seq<LapRecord>): (marked: seq<LapRecord>)
    ensures |marked| == |rows|
    ensures forall k :: 0 <= k < |rows| ==> marked[k] == rows[k].(isPersonalBest := marked[k].isPersonalBest)
    ensures forall k :: 0 <= k < |rows| ==> (marked[k].isPersonalBest <==> FastestOfDriver(rows, k))
  {
    var marked := seq(|rows|, k requires 0 <= k < |rows| =>
      var ts := DriverTimes(rows, rows[k].driver);
      rows[k].(isPersonalBest := rows[k].lapTimeSeconds == MinReal(ts)));
    forall k | 0 <= k < |rows|
      ensures marked[k].isPersonalBest <==> FastestOfDriver(rows, k)
    {
      var ts := DriverTimes(rows, rows[k].driver);
      var m := MinReal(ts);
      var j0 :| 0 <= j0 < |rows| && rows[j0].driver == rows[k].driver && rows[j0].lapTimeSeconds == m;
      assert rows[k].lapTimeSeconds in ts;
      forall j | 0 <= j < |rows| && rows[j].driver == rows[k].driver
        ensures m <= rows[j].lapTimeSeconds
      {
        assert rows[j].lapTimeSeconds in ts;
      }
    }
    marked
  }

  /** No lap of the same driver is faster than row `k`. */
  ghost predicate FastestOfDriver(t: seq<LapRecord>, k: nat)
    requires k < |t|
  {
    forall j :: 0 <= j < |t| && t[j].driver == t[k].driver ==> t[k].lapTimeSeconds <= t[j].lapTimeSeconds
  }

  /**
   * The `GapToFastest` column: each time minus the smallest time of the
   * whole table (all selected drivers).
   */
  function AddGapToFastest(rows: seq<LapRecord>): (withGap: seq<LapRecord>)
    ensures |withGap| == |rows|
    ensures forall k :: 0 <= k < |rows| ==> withGap[k] == rows[k].(gapToFastest := withGap[k].gapToFastest)
    ensures GapRule(withGap)
  {
    if rows == [] then []
    else
      var fastest := MinReal(AllTimes(rows));
      var withGap := seq(|rows|, k requires 0 <= k < |rows| => rows[k].(gapToFastest := rows[k].lapTimeSeconds - fastest));
      assert forall k :: 0 <= k < |rows| ==> withGap[k].lapTimeSeconds - withGap[k].gapToFastest == fastest;
      var j :| 0 <= j < |rows| && AllTimes(rows)[j] == fastest;
      assert withGap[j].gapToFastest == 0.0;
      withGap
  }

  /**
   * The gap rule of the `GapToFastest` column: every lap time minus its gap
   * is one common value, no lap is faster than it, and some lap's gap is 0.
   */
  ghost predicate GapRule(t: seq<LapRecord>)
  {
    && (forall i, j :: 0 <= i < |t| && 0 <= j < |t| ==>
         t[i].lapTimeSeconds - t[i].gapToFastest == t[j].lapTimeSeconds - t[j].gapToFastest)
    && (forall i, j :: 0 <= i < |t| && 0 <= j < |t| ==>
         t[i].lapTimeSeconds - t[i].gapToFastest <= t[j].lapTimeSeconds)
    && (t != [] ==> exists j :: 0 <= j < |t| && t[j].gapToFastest == 0.0)
  }

  /**
   * The table before the tyre-age step: the rows that have a lap time, in
   * order, with the personal-best and gap columns filled in and nothing
   * else changed.
   */
  function Annotated(rows: seq<TeamLap>): (a: seq<LapRecord>)
    ensures |a| == |DropMissingTimes(rows)|
    ensures forall i :: 0 <= i < |a| ==>
      a[i].(isPersonalBest := false, gapToFastest := 0.0) == DropMissingTimes(rows)[i]
    ensures PersonalBestRule(a) && GapRule(a)
  {
    var timed := DropMissingTimes(rows);
    MarkedRule(timed);
    GapKeepsRule(MarkPersonalBests(timed));
    AddGapToFastest(MarkPersonalBests(timed))
  }

  // Grouping by driver (`groupby('Driver', group_keys=False).apply(...)`)

  /** The rows of driver `d`, in order. */
  function OfDriver(rows: seq<LapRecord>, d: DriverId): (r: seq<LapRecord>)
    ensures forall x :: x in r ==> x in rows && x.driver == d
    ensures forall x :: x in rows && x.driver == d ==> x in r
  {
    if rows == [] then []
    else
      var earlier := OfDriver(rows[..|rows| - 1], d);
      var x := rows[|rows| - 1];
      assert forall y :: y in rows ==> y in rows[..|rows| - 1] || y == x;
      if x.driver == d then earlier + [x] else earlier
  }

  /** The rows of every driver but `d`, in order. */
  function WithoutDriver(rows: seq<LapRecord>, d: DriverId): (r: seq<LapRecord>)
    ensures forall x :: x in r ==> x in rows && x.driver != d
    ensures forall x :: x in rows && x.driver != d ==> x in r
  {
    if rows == [] then []
    else
      var earlier := WithoutDriver(rows[..|rows| - 1], d);
      var x := rows[|rows| - 1];
      assert forall y :: y in rows ==> y in rows[..|rows| - 1] || y == x;
      if x.driver != d then earlier + [x] else earlier
  }

  /** Splitting off one driver's rows loses and duplicates nothing. */
  lemma {:induction false} SplitByDriver(rows: seq<LapRecord>, d: DriverId)
    ensures multiset(OfDriver(rows, d)) + multiset(WithoutDriver(rows, d)) == multiset(rows)
    ensures |OfDriver(rows, d)| + |WithoutDriver(rows, d)| == |rows|
  {
    if rows != [] {
      var front := rows[..|rows| - 1];
      var x := rows[|rows| - 1];
      SplitByDriver(front, d);
      assert rows == front + [x];
      assert multiset(rows) == multiset(front) + multiset{x};
      if x.driver == d {
        assert OfDriver(rows, d) == OfDriver(front, d) + [x];
        assert WithoutDriver(rows, d) == WithoutDriver(front, d);
      } else {
        assert OfDriver(rows, d) == OfDriver(front, d);
        assert WithoutDriver(rows, d) == WithoutDriver(front, d) + [x];
      }
    }
  }

  /** The driver whose group pandas applies the function to first: the smallest key. */
  function FirstGroup(rows: seq<LapRecord>): (d: DriverId)
    requires rows != []
    ensures exists j :: 0 <= j < |rows| && rows[j].driver == d
    ensures forall j :: 0 <= j < |rows| ==> !LexLess(rows[j].driver, d)
  {
    if |rows| == 1 then
      LexLessIrreflexive(rows[0].driver);
      rows[0].driver
    else
      var rest := FirstGroup(rows[1..]);
      assert forall j :: 1 <= j < |rows| ==> rows[j] == rows[1..][j - 1];
      if LexLess(rows[0].driver, rest) then
        forall j | 1 <= j < |rows|
          ensures !LexLess(rows[j].driver, rows[0].driver)
        {
          if LexLess(rows[j].driver, rows[0].driver) {
            LexLessTransitive(rows[j].driver, rows[0].driver, rest);
          }
        }
        LexLessIrreflexive(rows[0].driver);
        rows[0].driver
      else
        rest
  }

  /**
   * The index labels of driver `d`'s group: the positions of that
   * driver's rows, in increasing order.
   */
  function Positions(rows: seq<LapRecord>, d: DriverId): (idx: seq<nat>)
    ensures |idx| == |OfDriver(rows, d)|
    ensures forall j :: 0 <= j < |idx| ==> idx[j] < |rows| && rows[idx[j]] == OfDriver(rows, d)[j]
    ensures forall j :: 0 <= j < |idx| ==> rows[idx[j]].driver == d
    ensures forall i, j :: 0 <= i < j < |idx| ==> idx[i] < idx[j]
  {
    if rows == [] then []
    else
      var front := rows[..|rows| - 1];
      var earlier := Positions(front, d);
      if rows[|rows| - 1].driver == d then
        assert OfDriver(rows, d) == OfDriver(front, d) + [rows[|rows| - 1]];
        earlier + [|rows| - 1]
      else
        assert OfDriver(rows, d) == OfDriver(front, d);
        earlier
  }

  /** The `j`-th index label of a group has `j` rows of that driver before it. */
  lemma {:induction false} PositionsRank(rows: seq<LapRecord>, d: DriverId, j: nat)
    requires j < |Positions(rows, d)|
    ensures |OfDriver(rows[..Positions(rows, d)[j]], d)| == j
  {
    var front := rows[..|rows| - 1];
    var earlier := Positions(front, d);
    var p := Positions(rows, d)[j];
    if j < |earlier| {
      assert p == earlier[j];
      PositionsRank(front, d, j);
      assert rows[..p] == front[..p];
    } else {
      assert p == |rows| - 1 && |earlier| == j;
    }
  }

  /** Every row of driver `d` is at one of the group's index labels. */
  lemma {:induction false} PositionsCover(rows: seq<LapRecord>, d: DriverId, k: nat)
    requires k < |rows| && rows[k].driver == d
    ensures k in Positions(rows, d)
  {
    var front := rows[..|rows| - 1];
    if k < |front| {
      assert front[k] == rows[k];
      PositionsCover(front, d, k);
    }
  }

  /** Positions depend only on the `Driver` column. */
  lemma {:induction false} PositionsFollowDrivers(a: seq<LapRecord>, b: seq<LapRecord>, d: DriverId)
    requires |a| == |b| && forall k :: 0 <= k < |a| ==> a[k].driver == b[k].driver
    ensures Positions(a, d) == Positions(b, d)
  {
    if a != [] {
      PositionsFollowDrivers(a[..|a| - 1], b[..|b| - 1], d);
    }
  }

  /** Row `k`'s position within its driver's group. */
  function Rank(rows: seq<LapRecord>, k: nat): (r: nat)
    requires k < |rows|
    ensures r < |OfDriver(rows, rows[k].driver)| && OfDriver(rows, rows[k].driver)[r] == rows[k]
  {
    RankInGroup(rows, k);
    |OfDriver(rows[..k], rows[k].driver)|
  }

  lemma RankInGroup(rows: seq<LapRecord>, k: nat)
    requires k < |rows|
    ensures var d := rows[k].driver; var r := |OfDriver(rows[..k], d)|;
      r < |OfDriver(rows, d)| && OfDriver(rows, d)[r] == rows[k]
  {
    var d := rows[k].driver;
    PositionsCover(rows, d, k);
    var idx := Positions(rows, d);
    var j :| 0 <= j < |idx| && idx[j] == k;
    PositionsRank(rows, d, j);
  }

  /**
   * The table `groupby('Driver', group_keys=False).apply(calculate_tyre_age)`
   * returns. The function returns its group indexed like the input, so
   * pandas puts every row back at its original index: each row stays in
   * place and gets the tyre age `calculate_tyre_age` computes for it within
   * its driver's group.
   */
  function AgedByDriver(rows: seq<LapRecord>): (t: seq<LapRecord>)
    ensures |t| == |rows|
    ensures forall k :: 0 <= k < |rows| ==> t[k] == rows[k].(tyreAge := t[k].tyreAge)
  {
    seq(|rows|, k requires 0 <= k < |rows| =>
      rows[k].(tyreAge := TyreAgeAt(Compounds(OfDriver(rows, rows[k].driver)), Rank(rows, k))))
  }

  /**
   * What the table holds at the `j`-th index label of driver `d`'s group is
   * row `j` of `calculate_tyre_age`'s result for that group.
   */
  lemma GroupAgeAtLabel(rows: seq<LapRecord>, d: DriverId, j: nat)
    requires j < |Positions(rows, d)|
    ensures AgedByDriver(rows)[Positions(rows, d)[j]] == WithTyreAge(OfDriver(rows, d))[j]
  {
    var k := Positions(rows, d)[j];
    var g := OfDriver(rows, d);
    assert g[j] in g;
    PositionsRank(rows, d, j);
    assert Rank(rows, k) == j;
  }

  /**
   * Each driver's rows of the result, in order, are exactly what
   * `calculate_tyre_age` returns for that driver's group.
   */
  lemma AgedByDriverGroups(rows: seq<LapRecord>, d: DriverId)
    ensures OfDriver(AgedByDriver(rows), d) == WithTyreAge(OfDriver(rows, d))
  {
    var t := AgedByDriver(rows);
    PositionsFollowDrivers(t, rows, d);
    var idx := Positions(rows, d);
    forall j | 0 <= j < |idx|
      ensures OfDriver(t, d)[j] == WithTyreAge(OfDriver(rows, d))[j]
    {
      GroupAgeAtLabel(rows, d, j);
      assert OfDriver(t, d)[j] == t[idx[j]];
    }
  }

  lemma FirstGroupShrinks(rows: seq<LapRecord>)
    requires rows != []
    ensures |WithoutDriver(rows, FirstGroup(rows))| < |rows|
  {
    var d := FirstGroup(rows);
    SplitByDriver(rows, d);
    var j :| 0 <= j < |rows| && rows[j].driver == d;
    assert rows[j] in OfDriver(rows, d);
  }

  /**
   * The table `get_lap_data` returns for a loaded session: the annotated
   * rows in the order they were collected, each with its tyre age.
   */
  function LapTable(s: Session, drivers: seq<DriverId>): (t: seq<LapRecord>)
    ensures Collected(s, drivers).None? ==> t == []
    ensures Collected(s, drivers).Some? ==> Unaged(t) == Annotated(Collected(s, drivers).value)
  {
    match Collected(s, drivers)
    case None => []
    case Some(rows) =>
      AnnotatedIsUnaged(rows);
      AgedInPlace(Annotated(rows));
      AgedByDriver(Annotated(rows))
  }

  /** The annotated rows have no tyre age yet. */
  lemma AnnotatedIsUnaged(rows: seq<TeamLap>)
    ensures Unaged(Annotated(rows)) == Annotated(rows)
  {
    var a := Annotated(rows);
    var timed := DropMissingTimes(rows);
    forall k | 0 <= k < |a|
      ensures a[k].tyreAge == 0
    {
      assert a[k].(isPersonalBest := false, gapToFastest := 0.0) == timed[k];
    }
  }

  /** Ageing by driver changes nothing but the tyre age. */
  lemma AgedInPlace(a: seq<LapRecord>)
    ensures Unaged(AgedByDriver(a)) == Unaged(a)
  {
    var t := AgedByDriver(a);
    assert forall k :: 0 <= k < |a| ==> t[k] == a[k].(tyreAge := t[k].tyreAge);
  }

  /**
   * The loop of `get_lap_data` over the selected drivers: each driver's
   * rows, with the team column, appended in selection order; None when
   * the roster lookup of a driver with laps raises.
   */
  method CollectDriverLaps(s: Session, drivers: seq<DriverId>) returns (collected: Option<seq<TeamLap>>)
    ensures collected == Collected(s, drivers)
  {
    var lapsData: seq<TeamLap> := [];
    for i := 0 to |drivers|
      invariant Collected(s, drivers[..i]) == Some(lapsData)
    {
      assert drivers[..i + 1][..i] == drivers[..i];
      var d := drivers[i];
      var driverLaps := PickDriver(s.laps, d);
      if driverLaps != [] {
        if d !in s.roster {
          CollectedStaysFailed(s, drivers, i + 1);
          return None;
        }
        lapsData := lapsData + WithTeam(driverLaps, s.roster[d]);
      }
    }
    assert drivers[..|drivers|] == drivers;
    return Some(lapsData);
  }

  /**
   * `groupby('Driver', group_keys=False).apply(calculate_tyre_age)`: the
   * groups are taken in driver order, each group is aged, and its rows are
   * written back at the group's index labels.
   */
  method ApplyTyreAgeByDriver(combined: seq<LapRecord>) returns (table: seq<LapRecord>)
    ensures table == AgedByDriver(combined)
  {
    ghost var done: set<DriverId> := {};
    var remaining := combined;
    table := combined;
    while remaining != []
      invariant |table| == |combined|
      invariant Pending(remaining, combined, done)
      invariant AgedFor(table, combined, done)
      decreases |remaining|
    {
      var d := FirstGroup(remaining);
      FirstGroupShrinks(remaining);
      PendingGroup(remaining, combined, done, d);
      var group := OfDriver(combined, d);
      var positions := Positions(combined, d);
      var aged := CalculateTyreAge(group);
      ghost var before := table;
      table := WriteBack(table, positions, aged);
      GroupWrittenBack(combined, d, before, table);
      AgedForStep(combined, d, done, before, table);
      done := done + {d};
      remaining := WithoutDriver(remaining, d);
    }
    AllDone(combined, done, table);
  }

  /** The rows still to visit are those of the drivers not yet done. */
  ghost predicate Pending(remaining: seq<LapRecord>, combined: seq<LapRecord>, done: set<DriverId>)
  {
    forall x :: x in remaining <==> x in combined && x.driver !in done
  }

  /** Rows of the drivers done hold their final value; the others are as they came. */
  ghost predicate AgedFor(table: seq<LapRecord>, combined: seq<LapRecord>, done: set<DriverId>)
    requires |table| == |combined|
  {
    forall k :: 0 <= k < |combined| ==>
      table[k] == if combined[k].driver in done then AgedByDriver(combined)[k] else combined[k]
  }

  /** The next group is a driver not yet done, and dropping it keeps the loop's bookkeeping. */
  lemma PendingGroup(remaining: seq<LapRecord>, combined: seq<LapRecord>, done: set<DriverId>, d: DriverId)
    requires Pending(remaining, combined, done)
    requires exists j :: 0 <= j < |remaining| && remaining[j].driver == d
    ensures d !in done
    ensures Pending(WithoutDriver(remaining, d), combined, done + {d})
  {
    var j :| 0 <= j < |remaining| && remaining[j].driver == d;
    assert remaining[j] in remaining;
  }

  lemma AgedForStep(combined: seq<LapRecord>, d: DriverId, done: set<DriverId>,
                    before: seq<LapRecord>, after: seq<LapRecord>)
    requires |before| == |after| == |combined|
    requires AgedFor(before, combined, done)
    requires forall k :: 0 <= k < |combined| ==>
      after[k] == if combined[k].driver == d then AgedByDriver(combined)[k] else before[k]
    ensures AgedFor(after, combined, done + {d})
  {
  }

  lemma AllDone(combined: seq<LapRecord>, done: set<DriverId>, table: seq<LapRecord>)
    requires |table| == |combined|
    requires Pending([], combined, done)
    requires AgedFor(table, combined, done)
    ensures table == AgedByDriver(combined)
  {
    forall k | 0 <= k < |combined|
      ensures combined[k].driver in done
    {
      assert combined[k] in combined;
    }
  }

  /**
   * Once the aged rows of driver `d`'s group are at its index labels, every
   * row of `d` holds its final value and every other row is unchanged.
   */
  lemma GroupWrittenBack(combined: seq<LapRecord>, d: DriverId, before: seq<LapRecord>, after: seq<LapRecord>)
    requires |before| == |after| == |combined|
    requires var idx := Positions(combined, d);
      forall j :: 0 <= j < |idx| ==> after[idx[j]] == WithTyreAge(OfDriver(combined, d))[j]
    requires forall k :: 0 <= k < |before| && k !in Positions(combined, d) ==> after[k] == before[k]
    ensures forall k :: 0 <= k < |combined| ==>
      after[k] == if combined[k].driver == d then AgedByDriver(combined)[k] else before[k]
  {
    var idx := Positions(combined, d);
    forall k | 0 <= k < |combined|
      ensures after[k] == if combined[k].driver == d then AgedByDriver(combined)[k] else before[k]
    {
      if combined[k].driver == d {
        PositionsCover(combined, d, k);
        var i :| 0 <= i < |idx| && idx[i] == k;
        GroupAgeAtLabel(combined, d, i);
      } else {
        assert k !in idx by {
          forall i | 0 <= i < |idx|
            ensures idx[i] != k
          {
            assert combined[idx[i]].driver == d;
          }
        }
      }
    }
  }

  /**
   * Puts the rows of an applied group back at the group's index labels:
   * row `j` of `aged` goes to position `positions[j]`, and every other
   * position keeps its row.
   */
  method WriteBack(table: seq<LapRecord>, positions: seq<nat>, aged: seq<LapRecord>)
    returns (result: seq<LapRecord>)
    requires |aged| == |positions|
    requires forall j :: 0 <= j < |positions| ==> positions[j] < |table|
    requires forall i, j :: 0 <= i < j < |positions| ==> positions[i] < positions[j]
    ensures |result| == |table|
    ensures forall j :: 0 <= j < |positions| ==> result[positions[j]] == aged[j]
    ensures forall k :: 0 <= k < |table| && k !in positions ==> result[k] == table[k]
  {
    result := table;
    for j := 0 to |positions|
      invariant |result| == |table|
      invariant forall i :: 0 <= i < j ==> result[positions[i]] == aged[i]
      invariant forall k :: 0 <= k < |table| && k !in positions[..j] ==> result[k] == table[k]
    {
      assert positions[..j + 1] == positions[..j] + [positions[j]];
      result := result[positions[j] := aged[j]];
    }
    assert positions[..|positions|] == positions;
  }

  /**
   * `get_lap_data`: no session or no drivers gives an empty table;
   * otherwise the rows of the selected drivers are collected, rows with no
   * lap time dropped, the personal-best and gap columns added, and the
   * tyre age computed group by group. A failed roster lookup is caught
   * and gives an empty table.
   */
  method GetLapData(session: Option<Session>, drivers: seq<DriverId>) returns (table: seq<LapRecord>)
    ensures session.None? || drivers == [] ==> table == []
    ensures session.Some? ==> table == LapTable(session.value, drivers)
  {
    if session.None? || drivers == [] {
      return [];
    }
    var collected := CollectDriverLaps(session.value, drivers);
    if collected.None? {
      return [];
    }
    table := ApplyTyreAgeByDriver(Annotated(collected.value));
  }

  // ---------------------------------------------------------------------
  // What the returned table satisfies
  // ---------------------------------------------------------------------

  /** The rows with the `TyreAge` column cleared. */
  function Unaged(t: seq<LapRecord>): (u: seq<LapRecord>)
    ensures |u| == |t| && forall i :: 0 <= i < |t| ==> u[i] == t[i].(tyreAge := 0)
  {
    seq(|t|, i requires 0 <= i < |t| => t[i].(tyreAge := 0))
  }

  /** The `Driver` column. */
  function DriverColumn(rows: seq<LapRecord>): (ds: seq<DriverId>)
    ensures |ds| == |rows| && forall j :: 0 <= j < |rows| ==> ds[j] == rows[j].driver
  {
    seq(|rows|, j requires 0 <= j < |rows| => rows[j].driver)
  }

  /**
   * Every driver of `ds` is one of `drivers`, and `ds` never returns to a
   * driver that comes earlier in `drivers` than the one before it.
   */
  ghost predicate InSelectionOrder(drivers: seq<DriverId>, ds: seq<DriverId>)
  {
    && (forall i :: 0 <= i < |ds| ==> ds[i] in drivers)
    && (forall i, j :: 0 <= i < j < |ds| ==> FirstIndex(drivers, ds[i]) <= FirstIndex(drivers, ds[j]))
  }

  /** Rows of a driver selected after all earlier ones may follow rows in selection order. */
  lemma AppendLaterDriver(drivers: seq<DriverId>, ds: seq<DriverId>, es: seq<DriverId>)
    requires drivers != []
    requires InSelectionOrder(drivers[..|drivers| - 1], ds)
    requires drivers[|drivers| - 1] !in drivers[..|drivers| - 1]
    requires forall i :: 0 <= i < |es| ==> es[i] == drivers[|drivers| - 1]
    ensures InSelectionOrder(drivers, ds + es)
  {
    var front := drivers[..|drivers| - 1];
    var d := drivers[|drivers| - 1];
    assert forall e :: e in front ==> e in drivers && FirstIndex(drivers, e) == FirstIndex(front, e) < |front|;
    assert FirstIndex(drivers, d) == |front|;
    var all := ds + es;
    forall i | 0 <= i < |all|
      ensures all[i] in drivers
    {
      if i < |ds| {
        assert all[i] == ds[i];
      }
    }
    forall i, j | 0 <= i < j < |all|
      ensures FirstIndex(drivers, all[i]) <= FirstIndex(drivers, all[j])
    {
      if j < |ds| {
        assert all[i] == ds[i] && all[j] == ds[j];
      } else if i < |ds| {
        assert all[i] == ds[i] && all[j] == d;
      } else {
        assert all[i] == d && all[j] == d;
      }
    }
  }

  lemma {:induction false} DropMissingTimesConcat(x: seq<TeamLap>, y: seq<TeamLap>)
    ensures DropMissingTimes(x + y) == DropMissingTimes(x) + DropMissingTimes(y)
    decreases |y|
  {
    if y == [] {
      assert x + y == x;
    } else {
      var y' := y[..|y| - 1];
      assert (x + y)[..|x + y| - 1] == x + y';
      DropMissingTimesConcat(x, y');
    }
  }

  lemma DriverColumnConcat(a: seq<LapRecord>, b: seq<LapRecord>)
    ensures DriverColumn(a + b) == DriverColumn(a) + DriverColumn(b)
  {
    var l := DriverColumn(a + b);
    var r := DriverColumn(a) + DriverColumn(b);
    forall j | 0 <= j < |l|
      ensures l[j] == r[j]
    {
      if j < |a| {
        assert (a + b)[j] == a[j];
      } else {
        assert (a + b)[j] == b[j - |a|];
      }
    }
  }

  /** The timed rows of one driver all belong to that driver. */
  lemma TimedRowsOfDriver(picked: seq<RawLap>, team: string, d: DriverId)
    requires forall x :: x in picked ==> x.driver == d
    ensures forall i :: 0 <= i < |DropMissingTimes(WithTeam(picked, team))| ==>
      DriverColumn(DropMissingTimes(WithTeam(picked, team)))[i] == d
  {
    var rows := WithTeam(picked, team);
    var records := DropMissingTimes(rows);
    forall i | 0 <= i < |records|
      ensures records[i].driver == d
    {
      assert records[i] in records;
      var k :| 0 <= k < |rows| && rows[k] == Untimed(records[i]);
      assert picked[k] in picked;
    }
  }

  /**
   * With each driver selected once, the timed rows of a successful
   * collection come in selection order.
   */
  lemma {:induction false} TimedRowsInSelectionOrder(s: Session, drivers: seq<DriverId>)
    requires forall i, j :: 0 <= i < j < |drivers| ==> drivers[i] != drivers[j]
    requires Collected(s, drivers).Some?
    ensures InSelectionOrder(drivers, DriverColumn(DropMissingTimes(Collected(s, drivers).value)))
  {
    if drivers != [] {
      var front := drivers[..|drivers| - 1];
      var d := drivers[|drivers| - 1];
      assert Collected(s, front).Some?;
      TimedRowsInSelectionOrder(s, front);
      assert d !in front by {
        forall i | 0 <= i < |front|
          ensures front[i] != d
        {
          assert front[i] == drivers[i];
        }
      }
      var rows := Collected(s, front).value;
      var ds := DriverColumn(DropMissingTimes(rows));
      var picked := PickDriver(s.laps, d);
      if picked == [] {
        assert Collected(s, drivers).value == rows;
        AppendLaterDriver(drivers, ds, []);
        assert ds + [] == ds;
      } else {
        var added := WithTeam(picked, s.roster[d]);
        assert Collected(s, drivers).value == rows + added;
        DropMissingTimesConcat(rows, added);
        TimedRowsOfDriver(picked, s.roster[d], d);
        var es := DriverColumn(DropMissingTimes(added));
        AppendLaterDriver(drivers, ds, es);
        DriverColumnConcat(DropMissingTimes(rows), DropMissingTimes(added));
      }
    }
  }

  /**
   * With each driver selected once, the table lists the drivers in
   * selection order, and each driver's rows form one block.
   */
  lemma LapTableSelectionOrder(s: Session, drivers: seq<DriverId>)
    requires forall i, j :: 0 <= i < j < |drivers| ==> drivers[i] != drivers[j]
    ensures InSelectionOrder(drivers, DriverColumn(LapTable(s, drivers)))
    ensures var t := LapTable(s, drivers);
      forall i, j, k :: 0 <= i < j < k < |t| && t[i].driver == t[k].driver ==> t[j].driver == t[i].driver
  {
    if Collected(s, drivers).Some? {
      TimedRowsInSelectionOrder(s, drivers);
      LapTableDrivers(s, drivers);
    }
    SelectionOrderBlocks(drivers, DriverColumn(LapTable(s, drivers)));
  }

  /** The table's `Driver` column is that of the timed collected rows. */
  lemma LapTableDrivers(s: Session, drivers: seq<DriverId>)
    requires Collected(s, drivers).Some?
    ensures DriverColumn(LapTable(s, drivers)) == DriverColumn(DropMissingTimes(Collected(s, drivers).value))
  {
    LapTableTimedRows(s, drivers);
    var t := LapTable(s, drivers);
    var timed := DropMissingTimes(Collected(s, drivers).value);
    forall k | 0 <= k < |t|
      ensures t[k].driver == timed[k].driver
    {
      assert Untimed(t[k]).lap.driver == Untimed(timed[k]).lap.driver;
    }
    assert DriverColumn(t) == DriverColumn(timed);
  }

  /** Row `k` of the table is the `k`-th timed collected row, up to the derived columns. */
  lemma LapTableTimedRows(s: Session, drivers: seq<DriverId>)
    requires Collected(s, drivers).Some?
    ensures var timed := DropMissingTimes(Collected(s, drivers).value);
      |LapTable(s, drivers)| == |timed| &&
      forall k :: 0 <= k < |timed| ==> Untimed(LapTable(s, drivers)[k]) == Untimed(timed[k])
  {
    var rows := Collected(s, drivers).value;
    var t := LapTable(s, drivers);
    var a := Annotated(rows);
    var timed := DropMissingTimes(rows);
    forall k | 0 <= k < |t|
      ensures Untimed(t[k]) == Untimed(timed[k])
    {
      assert Unaged(t)[k] == a[k];
      assert a[k].(isPersonalBest := false, gapToFastest := 0.0) == timed[k];
    }
  }

  /** In selection order, the entries of one driver are contiguous. */
  lemma SelectionOrderBlocks(drivers: seq<DriverId>, ds: seq<DriverId>)
    requires InSelectionOrder(drivers, ds)
    ensures forall i, j, k :: 0 <= i < j < k < |ds| && ds[i] == ds[k] ==> ds[j] == ds[i]
  {
    forall i, j, k | 0 <= i < j < k < |ds| && ds[i] == ds[k]
      ensures ds[j] == ds[i]
    {
      var m := FirstIndex(drivers, ds[j]);
      assert FirstIndex(drivers, ds[i]) <= m <= FirstIndex(drivers, ds[k]);
      assert drivers[m] == ds[j];
    }
  }

  /** A row made from a session lap of a selected driver, tagged with that driver's team. */
  ghost predicate FromSelectedLap(s: Session, drivers: seq<DriverId>, r: LapRecord)
  {
    Untimed(r).lap in s.laps && r.driver in drivers && r.driver in s.roster && r.team == s.roster[r.driver]
  }

  /**
   * The table holds exactly the timed laps of the selected drivers: every
   * row is a lap of the session, with a time, of a selected driver, tagged
   * with that driver's team; and when no roster lookup failed every such
   * lap is a row.
   */
  lemma LapTableRows(s: Session, drivers: seq<DriverId>)
    ensures forall i :: 0 <= i < |LapTable(s, drivers)| ==> FromSelectedLap(s, drivers, LapTable(s, drivers)[i])
    ensures Collected(s, drivers).Some? ==>
      forall raw :: raw in s.laps && raw.driver in drivers && raw.lapTime.Some? ==>
        raw.driver in s.roster &&
        exists k :: 0 <= k < |LapTable(s, drivers)| && Untimed(LapTable(s, drivers)[k]) == TeamLap(raw, s.roster[raw.driver])
  {
    forall i | 0 <= i < |LapTable(s, drivers)|
      ensures FromSelectedLap(s, drivers, LapTable(s, drivers)[i])
    {
      LapTableRowSource(s, drivers, i);
    }
    if Collected(s, drivers).Some? {
      forall raw | raw in s.laps && raw.driver in drivers && raw.lapTime.Some?
        ensures raw.driver in s.roster &&
          exists k :: 0 <= k < |LapTable(s, drivers)| && Untimed(LapTable(s, drivers)[k]) == TeamLap(raw, s.roster[raw.driver])
      {
        var k := LapTableRowTarget(s, drivers, raw);
      }
    }
  }

  /** Where row `i` of the table comes from. */
  lemma LapTableRowSource(s: Session, drivers: seq<DriverId>, i: nat)
    requires i < |LapTable(s, drivers)|
    ensures FromSelectedLap(s, drivers, LapTable(s, drivers)[i])
  {
    var timed := DropMissingTimes(Collected(s, drivers).value);
    LapTableTimedRows(s, drivers);
    assert timed[i] in timed;
  }

  /** Where a timed lap of a selected driver ends up in the table. */
  lemma LapTableRowTarget(s: Session, drivers: seq<DriverId>, raw: RawLap) returns (k: nat)
    requires Collected(s, drivers).Some?
    requires raw in s.laps && raw.driver in drivers && raw.lapTime.Some?
    ensures raw.driver in s.roster
    ensures k < |LapTable(s, drivers)| && Untimed(LapTable(s, drivers)[k]) == TeamLap(raw, s.roster[raw.driver])
  {
    var timed := DropMissingTimes(Collected(s, drivers).value);
    LapTableTimedRows(s, drivers);
    CollectedRowsAreComplete(s, drivers);
    var x := TeamLap(raw, s.roster[raw.driver]);
    assert Timed(x) in timed;
    k :| 0 <= k < |timed| && timed[k] == Timed(x);
  }

  /** The personal-best rule of the `IsPersonalBest` column. */
  ghost predicate PersonalBestRule(t: seq<LapRecord>)
  {
    forall i :: 0 <= i < |t| ==> BestFlagged(t, i)
  }

  /** Row `i` is flagged exactly when it is its driver's fastest. */
  ghost predicate BestFlagged(t: seq<LapRecord>, i: nat)
    requires i < |t|
  {
    t[i].isPersonalBest <==> FastestOfDriver(t, i)
  }

  /** Whether a row is its driver's fastest depends only on drivers and times. */
  lemma SameTimesSameFastest(x: seq<LapRecord>, y: seq<LapRecord>)
    requires |x| == |y|
    requires forall j :: 0 <= j < |x| ==> x[j].driver == y[j].driver && x[j].lapTimeSeconds == y[j].lapTimeSeconds
    ensures forall i :: 0 <= i < |x| ==> FastestOfDriver(x, i) == FastestOfDriver(y, i)
  {
  }

  lemma MarkedRule(a: seq<LapRecord>)
    ensures PersonalBestRule(MarkPersonalBests(a))
  {
    var m := MarkPersonalBests(a);
    SameTimesSameFastest(m, a);
    forall i | 0 <= i < |m|
      ensures BestFlagged(m, i)
    {
    }
  }

  lemma GapKeepsRule(b: seq<LapRecord>)
    requires PersonalBestRule(b)
    ensures PersonalBestRule(AddGapToFastest(b))
  {
    var g := AddGapToFastest(b);
    SameTimesSameFastest(g, b);
    forall i | 0 <= i < |g|
      ensures BestFlagged(g, i)
    {
      assert BestFlagged(b, i);
    }
  }

  /** Setting the tyre age keeps the personal-best and gap rules. */
  lemma AgedKeepsRules(a: seq<LapRecord>)
    requires PersonalBestRule(a) && GapRule(a)
    ensures PersonalBestRule(AgedByDriver(a)) && GapRule(AgedByDriver(a))
  {
    var t := AgedByDriver(a);
    assert forall i :: 0 <= i < |t| ==> t[i] == a[i].(tyreAge := t[i].tyreAge);
    SameColumnsSameRules(t, a);
  }

  /**
   * The two rules read only the driver, time, flag and gap columns, so a
   * table that agrees with a rule-abiding one on those satisfies them too.
   */
  lemma SameColumnsSameRules(t: seq<LapRecord>, a: seq<LapRecord>)
    requires |t| == |a|
    requires forall i :: 0 <= i < |t| ==>
      && t[i].driver == a[i].driver && t[i].lapTimeSeconds == a[i].lapTimeSeconds
      && t[i].isPersonalBest == a[i].isPersonalBest && t[i].gapToFastest == a[i].gapToFastest
    requires PersonalBestRule(a) && GapRule(a)
    ensures PersonalBestRule(t) && GapRule(t)
  {
    SameTimesSameFastest(t, a);
    forall i | 0 <= i < |t|
      ensures BestFlagged(t, i)
    {
      assert BestFlagged(a, i);
    }
    if t != [] {
      var j :| 0 <= j < |a| && a[j].gapToFastest == 0.0;
      assert t[j].gapToFastest == 0.0;
    }
  }

  /** The personal-best and gap rules hold of the table of a loaded session. */
  lemma LapTableBestAndGap(s: Session, drivers: seq<DriverId>)
    ensures PersonalBestRule(LapTable(s, drivers)) && GapRule(LapTable(s, drivers))
  {
    match Collected(s, drivers)
    case None =>
    case Some(rows) =>
      AgedKeepsRules(Annotated(rows));
  }

  /**
   * Each driver's rows of the table carry, in table order, the counter of
   * `calculate_tyre_age` over that driver's rows.
   */
  lemma LapTableTyreAge(s: Session, drivers: seq<DriverId>, d: DriverId)
    ensures OfDriver(LapTable(s, drivers), d) == WithTyreAge(OfDriver(Unaged(LapTable(s, drivers)), d))
  {
    match Collected(s, drivers)
    case None =>
    case Some(rows) =>
      AgedByDriverGroups(Annotated(rows), d);
  }

  /**
   * `IsPersonalBest` holds exactly on the rows no lap of the same driver
   * beats, and every driver in the table has at least one such row.
   */
  lemma LapTablePersonalBest(s: Session, drivers: seq<DriverId>)
    ensures var t := LapTable(s, drivers);
      forall i :: 0 <= i < |t| ==>
        (t[i].isPersonalBest <==>
          forall j :: 0 <= j < |t| && t[j].driver == t[i].driver ==> t[i].lapTimeSeconds <= t[j].lapTimeSeconds)
    ensures var t := LapTable(s, drivers);
      forall d :: DriverTimes(t, d) != [] ==> exists j :: 0 <= j < |t| && t[j].driver == d && t[j].isPersonalBest
  {
    LapTableBestAndGap(s, drivers);
    PersonalBestMeaning(LapTable(s, drivers));
  }

  /**
   * Under the personal-best rule a row is flagged iff no row of its driver
   * is faster, and every driver of the table has a flagged row.
   */
  lemma PersonalBestMeaning(t: seq<LapRecord>)
    requires PersonalBestRule(t)
    ensures forall i :: 0 <= i < |t| ==>
      (t[i].isPersonalBest <==>
        forall j :: 0 <= j < |t| && t[j].driver == t[i].driver ==> t[i].lapTimeSeconds <= t[j].lapTimeSeconds)
    ensures forall d :: DriverTimes(t, d) != [] ==> exists j :: 0 <= j < |t| && t[j].driver == d && t[j].isPersonalBest
  {
    forall i | 0 <= i < |t|
      ensures t[i].isPersonalBest <==>
        forall j :: 0 <= j < |t| && t[j].driver == t[i].driver ==> t[i].lapTimeSeconds <= t[j].lapTimeSeconds
    {
      assert BestFlagged(t, i);
    }
    forall d | DriverTimes(t, d) != []
      ensures exists j :: 0 <= j < |t| && t[j].driver == d && t[j].isPersonalBest
    {
      var ts := DriverTimes(t, d);
      assert ts[0] in ts;
      var i :| 0 <= i < |t| && t[i].driver == d && t[i].lapTimeSeconds == ts[0];
      var k := BestRowOf(t, i);
      assert BestFlagged(t, k);
    }
  }

  /** A row of the same driver whose time is that driver's minimum. */
  lemma BestRowOf(t: seq<LapRecord>, i: nat) returns (j: nat)
    requires i < |t|
    ensures j < |t| && t[j].driver == t[i].driver && FastestOfDriver(t, j)
  {
    var ts := DriverTimes(t, t[i].driver);
    assert t[i].lapTimeSeconds in ts;
    var m := MinReal(ts);
    j :| 0 <= j < |t| && t[j].driver == t[i].driver && t[j].lapTimeSeconds == m;
    forall l | 0 <= l < |t| && t[l].driver == t[j].driver
      ensures t[j].lapTimeSeconds <= t[l].lapTimeSeconds
    {
      assert t[l].lapTimeSeconds in ts;
    }
  }

  /**
   * `GapToFastest` is each lap time minus one common value, the fastest
   * lap of the table: no gap is negative and the fastest lap's gap is 0.
   */
  lemma LapTableGapToFastest(s: Session, drivers: seq<DriverId>)
    ensures var t := LapTable(s, drivers);
      forall i :: 0 <= i < |t| ==> t[i].gapToFastest >= 0.0
    ensures GapRule(LapTable(s, drivers))
  {
    LapTableBestAndGap(s, drivers);
  }

  /**
   * The roster lookup fails, and `get_lap_data` returns an empty table,
   * exactly when a selected driver with laps is not in the roster.
   */
  lemma {:induction false} CollectedFailsIff(s: Session, drivers: seq<DriverId>)
    ensures Collected(s, drivers).None? <==>
      exists raw :: raw in s.laps && raw.driver in drivers && raw.driver !in s.roster
  {
    if drivers != [] {
      var front := drivers[..|drivers| - 1];
      var d := drivers[|drivers| - 1];
      CollectedFailsIff(s, front);
      assert forall e :: e in drivers <==> e in front || e == d;
      if Collected(s, front).Some? && PickDriver(s.laps, d) != [] {
        assert PickDriver(s.laps, d)[0] in PickDriver(s.laps, d);
      }
    }
  }

  // ---------------------------------------------------------------------
  // get_strategy_data
  // ---------------------------------------------------------------------

  /** One row of the strategy table: a raw lap of a driver and its tyre age. */
  datatype StrategyRow = StrategyRow(lap: RawLap, tyreAge: nat)

  /** The `Compound` column of a driver's picked laps, which the strategy counter reads. */
  function RawCompounds(laps: seq<RawLap>): (cs: seq<Option<Compound>>)
    ensures |cs| == |laps| && forall i :: 0 <= i < |laps| ==> cs[i] == laps[i].compound
  {
    seq(|laps|, i requires 0 <= i < |laps| => laps[i].compound)
  }

  /** One driver's laps with the strategy copy of the tyre-age counter. */
  function StrategyAged(laps: seq<RawLap>): (rows: seq<StrategyRow>)
    ensures |rows| == |laps|
  {
    seq(|laps|, i requires 0 <= i < |laps| => StrategyRow(laps[i], StrategyTyreAgeAt(RawCompounds(laps), i)))
  }

  /**
   * The frames `get_strategy_data` concatenates for the first `|drivers|`
   * selected drivers; None once the roster lookup of a driver with laps
   * has raised.
   */
  function StrategyCollected(s: Session, drivers: seq<DriverId>): Option<seq<StrategyRow>>
  {
    if drivers == [] then Some([])
    else
      var earlier := StrategyCollected(s, drivers[..|drivers| - 1]);
      var d := drivers[|drivers| - 1];
      var picked := PickDriver(s.laps, d);
      if earlier.None? then None
      else if picked == [] then earlier
      else if d !in s.roster then None
      else Some(earlier.value + StrategyAged(picked))
  }

  /**
   * The strategy table collects the same laps, in the same order, as the
   * lap normaliser does before dropping untimed rows, and fails exactly
   * when it fails.
   */
  lemma {:induction false} StrategyMatchesCollected(s: Session, drivers: seq<DriverId>)
    ensures StrategyCollected(s, drivers).Some? <==> Collected(s, drivers).Some?
    ensures StrategyCollected(s, drivers).Some? ==>
      var x := StrategyCollected(s, drivers).value;
      var y := Collected(s, drivers).value;
      |x| == |y| && forall i :: 0 <= i < |x| ==> x[i].lap == y[i].lap
  {
    if drivers != [] {
      var front := drivers[..|drivers| - 1];
      StrategyMatchesCollected(s, front);
      var d := drivers[|drivers| - 1];
      var picked := PickDriver(s.laps, d);
      if StrategyCollected(s, front).Some? && picked != [] && d in s.roster {
        var x0: seq<StrategyRow>, xa := StrategyCollected(s, front).value, StrategyAged(picked);
        var y0: seq<TeamLap>, ya := Collected(s, front).value, WithTeam(picked, s.roster[d]);
        assert StrategyCollected(s, drivers).value == x0 + xa;
        assert Collected(s, drivers).value == y0 + ya;
        forall i | 0 <= i < |x0| + |xa|
          ensures (x0 + xa)[i].lap == (y0 + ya)[i].lap
        {
          if i < |x0| {
            assert (x0 + xa)[i] == x0[i] && (y0 + ya)[i] == y0[i];
          } else {
            assert (x0 + xa)[i] == xa[i - |x0|] && (y0 + ya)[i] == ya[i - |x0|];
          }
        }
      }
    }
  }

  /**
   * In the strategy copy the age is the length of the current run of equal
   * compound values, a run of missing compounds included: with `s` the row
   * where the age last reset, rows `s` to `i` all carry row `s`'s value
   * and row `s` starts a run.
   */
  lemma {:induction false} StrategyTyreAgeCountsRun(cs: seq<Option<Compound>>, i: nat)
    requires i < |cs|
    ensures var s := i + 1 - StrategyTyreAgeAt(cs, i);
      && (s == 0 || cs[s - 1] != cs[s])
      && (forall j :: s <= j <= i ==> cs[j] == cs[s])
  {
    if !(i == 0 || cs[i - 1] != cs[i]) {
      StrategyTyreAgeCountsRun(cs, i - 1);
    }
  }

  /**
   * The tyre-age loop of `get_strategy_data` over one driver's laps: the
   * age restarts at 1 whenever the compound differs from the previous
   * row's and otherwise grows by one.
   */
  method StrategyTyreAges(driverLaps: seq<RawLap>) returns (rows: seq<StrategyRow>)
    ensures |rows| == |driverLaps|
    ensures forall i :: 0 <= i < |rows| ==>
      rows[i] == StrategyRow(driverLaps[i], StrategyTyreAgeAt(RawCompounds(driverLaps), i))
    ensures rows == StrategyAged(driverLaps)
  {
    ghost var cs := RawCompounds(driverLaps);
    rows := seq(|driverLaps|, i requires 0 <= i < |driverLaps| => StrategyRow(driverLaps[i], 0));
    var currentAge: nat := 0;
    var previousCompound: Option<Compound> := None;
    for idx := 0 to |driverLaps|
      invariant |rows| == |driverLaps|
      invariant forall i :: 0 <= i < idx ==> rows[i] == StrategyRow(driverLaps[i], StrategyTyreAgeAt(cs, i))
      invariant forall i :: idx <= i < |rows| ==> rows[i] == StrategyRow(driverLaps[i], 0)
      invariant idx == 0 ==> currentAge == 0 && previousCompound.None?
      invariant idx > 0 ==> currentAge == StrategyTyreAgeAt(cs, idx - 1) && previousCompound == cs[idx - 1]
    {
      var row := driverLaps[idx];
      if previousCompound != row.compound {
        currentAge := 1;
      } else {
        currentAge := currentAge + 1;
      }
      rows := rows[idx := StrategyRow(row, currentAge)];
      previousCompound := row.compound;
    }
  }

  /**
   * `get_strategy_data`: no session or no drivers gives an empty table;
   * otherwise each selected driver's laps with their tyre ages, in
   * selection order, or an empty table when a roster lookup raises.
   */
  method GetStrategyData(session: Option<Session>, drivers: seq<DriverId>) returns (table: seq<StrategyRow>)
    ensures session.None? || drivers == [] ==> table == []
    ensures session.Some? && StrategyCollected(session.value, drivers).None? ==> table == []
    ensures session.Some? && StrategyCollected(session.value, drivers).Some? ==>
      table == StrategyCollected(session.value, drivers).value
  {
    if session.None? || drivers == [] {
      return [];
    }
    var s := session.value;
    var strategyData: seq<StrategyRow> := [];
    for i := 0 to |drivers|
      invariant StrategyCollected(s, drivers[..i]) == Some(strategyData)
    {
      assert drivers[..i + 1][..i] == drivers[..i];
      var d := drivers[i];
      var driverLaps := PickDriver(s.laps, d);
      if driverLaps != [] {
        if d !in s.roster {
          StrategyStaysFailed(s, drivers, i + 1);
          return [];
        }
        var aged := StrategyTyreAges(driverLaps);
        strategyData := strategyData + aged;
      }
    }
    assert drivers[..|drivers|] == drivers;
    return strategyData;
  }

  lemma {:induction false} StrategyStaysFailed(s: Session, drivers: seq<DriverId>, i: nat)
    requires i <= |drivers| && StrategyCollected(s, drivers[..i]).None?
    ensures StrategyCollected(s, drivers).None?
    decreases |drivers| - i
  {
    if i < |drivers| {
      assert drivers[..i + 1][..i] == drivers[..i];
      StrategyStaysFailed(s, drivers, i + 1);
    } else {
      assert drivers[..i] == drivers;
    }
  }

  // ---------------------------------------------------------------------
  // format_lap_time
  // ---------------------------------------------------------------------

  /** The parts of the "M:SS.mmm" text, or "N/A". */
  datatype LapTimeText = NotAvailable | MinutesSeconds(minutes: int, seconds: real)

  /**
   * `format_lap_time`: "N/A" for a missing or non-positive time, else
   * whole minutes and the remaining seconds.
   */
  function FormatLapTime(seconds: Option<real>): (t: LapTimeText)
    ensures t.NotAvailable? <==> seconds.None? || seconds.value <= 0.0
    ensures t.MinutesSeconds? ==>
      && t.minutes >= 0
      && 0.0 <= t.seconds < 60.0
      && t.minutes as real * 60.0 + t.seconds == seconds.value
  {
    if seconds.None? || seconds.value <= 0.0 then NotAvailable
    else
      var minutes := (seconds.value / 60.0).Floor;
      MinutesSeconds(minutes, seconds.value - 60.0 * minutes as real)
  }
}
