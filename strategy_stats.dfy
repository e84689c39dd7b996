/**
 * The "Strategy Statistics" table of app.py: for each selected driver with
 * strategy rows, the compounds used, the number of pit stops and the
 * longest stint, computed from the table `get_strategy_data` returns.
 */
module StrategyStats {
  import opened Common
  import opened Aggregates
  import opened DataLoading

  /** One line of the statistics table. */
  datatype DriverStrategy = DriverStrategy(
    driver: DriverId, compoundsUsed: seq<Compound>, pitStops: int, longestStint: nat)

  /** `strategy_data[strategy_data['Driver'] == driver]`: the rows of `d`, in order. */
  function RowsOf(table: seq<StrategyRow>, d: DriverId): (rows: seq<StrategyRow>)
    ensures |rows| <= |table|
    ensures forall r :: r in rows <==> r in table && r.lap.driver == d
  {
    if table == [] then []
    else
      var last := table[|table| - 1];
      var front := RowsOf(table[..|table| - 1], d);
      assert forall r :: r in table <==> r in table[..|table| - 1] || r == last;
      if last.lap.driver == d then front + [last] else front
  }

  /** The `Compound` column of some rows. */
  function CompoundColumn(rows: seq<StrategyRow>): (cs: seq<Option<Compound>>)
    ensures |cs| == |rows| && forall i :: 0 <= i < |rows| ==> cs[i] == rows[i].lap.compound
  {
    seq(|rows|, i requires 0 <= i < |rows| => rows[i].lap.compound)
  }

  /** The known compounds of a column, with repeats, in order. */
  function Known(cs: seq<Option<Compound>>): (ks: seq<Compound>)
    ensures forall c :: c in ks <==> Some(c) in cs
  {
    if cs == [] then []
    else
      var last := cs[|cs| - 1];
      assert forall x :: x in cs <==> x in cs[..|cs| - 1] || x == last;
      Known(cs[..|cs| - 1]) + (if last.Some? then [last.value] else [])
  }

  /** How many rows of the column carry compound `c`. */
  function CountOf(cs: seq<Option<Compound>>, c: Compound): (n: nat)
    ensures n <= |cs|
    ensures n > 0 <==> Some(c) in cs
  {
    if cs == [] then 0
    else
      assert forall x :: x in cs <==> x in cs[..|cs| - 1] || x == cs[|cs| - 1];
      CountOf(cs[..|cs| - 1], c) + (if cs[|cs| - 1] == Some(c) then 1 else 0)
  }

  /** `groupby('Compound').size().max()` over the compounds `ks`. */
  function MaxCount(cs: seq<Option<Compound>>, ks: seq<Compound>): (m: nat)
    requires ks != []
    ensures exists k :: k in ks && m == CountOf(cs, k)
    ensures forall k :: k in ks ==> CountOf(cs, k) <= m
  {
    if |ks| == 1 then CountOf(cs, ks[0])
    else
      var rest := MaxCount(cs, ks[1..]);
      assert forall k :: k in ks <==> k == ks[0] || k in ks[1..];
      if CountOf(cs, ks[0]) >= rest then CountOf(cs, ks[0]) else rest
  }

  /** The names of known compounds. */
  function Names(used: seq<Option<Compound>>): (names: seq<Compound>)
    requires forall i :: 0 <= i < |used| ==> used[i].Some?
    ensures |names| == |used| && forall i :: 0 <= i < |used| ==> Some(names[i]) == used[i]
  {
    seq(|used|, i requires 0 <= i < |used| => used[i].value)
  }

  /**
   * One driver's line: `unique()` of the compounds, joined with ", " (a
   * missing compound cannot be joined and raises), `value_counts()` less
   * one as the pit stops, and the size of the largest compound group as
   * the longest stint. `value_counts` and `groupby` leave missing compounds
   * out.
   */
  function DriverStats(d: DriverId, rows: seq<StrategyRow>): (r: Result<DriverStrategy, string>)
    requires rows != []
    ensures r.Err? <==> exists i :: 0 <= i < |rows| && rows[i].lap.compound.None?
  {
    var cs := CompoundColumn(rows);
    var used := Unique(cs);
    if None in used then
      Err("sequence item: expected str instance, NoneType found")
    else
      assert forall i :: 0 <= i < |used| ==> used[i] in cs;
      assert cs[0] in used;
      var known := Unique(Known(cs));
      assert cs[0].value in known;
      Ok(DriverStrategy(d, Names(used), |known| - 1, MaxCount(cs, known)))
  }

  /**
   * The numbers of a driver's line: the compounds used are each compound
   * the driver ran, once (DriverStatsInFirstUseOrder gives their order);
   * the pit stops are one less than their number; the longest stint is the
   * number of laps on the compound the driver ran most, at least 1 and at
   * most the driver's laps.
   */
  lemma DriverStatsProperties(d: DriverId, rows: seq<StrategyRow>)
    requires rows != [] && DriverStats(d, rows).Ok?
    ensures var s := DriverStats(d, rows).value;
      var cs := CompoundColumn(rows);
      && s.driver == d
      && (forall c :: c in s.compoundsUsed <==> Some(c) in cs)
      && (forall i, j :: 0 <= i < j < |s.compoundsUsed| ==> s.compoundsUsed[i] != s.compoundsUsed[j])
      && s.pitStops == |s.compoundsUsed| - 1 >= 0
      && 1 <= s.longestStint <= |rows|
      && (exists c :: c in s.compoundsUsed && s.longestStint == CountOf(cs, c))
      && (forall c :: CountOf(cs, c) <= s.longestStint)
  {
    var cs := CompoundColumn(rows);
    var used := Unique(cs);
    var known := Unique(Known(cs));
    assert None !in used;
    assert cs[0] in used && cs[0].value in known;
    assert DriverStats(d, rows).value == DriverStrategy(d, Names(used), |known| - 1, MaxCount(cs, known));
    ColumnStats(cs);
  }

  /** The compounds of a driver's line come in the order the driver first used them (`unique()` order). */
  lemma DriverStatsInFirstUseOrder(d: DriverId, rows: seq<StrategyRow>)
    requires rows != [] && DriverStats(d, rows).Ok?
    ensures var s := DriverStats(d, rows).value;
      var cs := CompoundColumn(rows);
      forall i, j :: 0 <= i < j < |s.compoundsUsed| ==>
        Some(s.compoundsUsed[i]) in cs && Some(s.compoundsUsed[j]) in cs &&
        FirstIndex(cs, Some(s.compoundsUsed[i])) < FirstIndex(cs, Some(s.compoundsUsed[j]))
  {
    var cs := CompoundColumn(rows);
    var used := Unique(cs);
    var known := Unique(Known(cs));
    assert None !in used;
    assert cs[0] in used && cs[0].value in known;
    assert DriverStats(d, rows).value.compoundsUsed == Names(used);
    NamesInFirstUseOrder(cs);
  }

  /** The names of `unique()` of a column without missing compounds come in order of first use. */
  lemma NamesInFirstUseOrder(cs: seq<Option<Compound>>)
    requires None !in Unique(cs)
    ensures forall i :: 0 <= i < |Unique(cs)| ==> Unique(cs)[i].Some?
    ensures var names := Names(Unique(cs));
      forall i, j :: 0 <= i < j < |names| ==>
        Some(names[i]) in cs && Some(names[j]) in cs &&
        FirstIndex(cs, Some(names[i])) < FirstIndex(cs, Some(names[j]))
  {
    var used := Unique(cs);
    assert forall i :: 0 <= i < |used| ==> used[i] in used;
    var names := Names(used);
    UniqueInFirstAppearanceOrder(cs);
    forall i, j | 0 <= i < j < |names|
      ensures Some(names[i]) in cs && Some(names[j]) in cs
      ensures FirstIndex(cs, Some(names[i])) < FirstIndex(cs, Some(names[j]))
    {
      assert Some(names[i]) == used[i] && used[i] in used;
      assert Some(names[j]) == used[j] && used[j] in used;
    }
  }

  /** The compounds, their number and the largest group of a column without missing compounds. */
  lemma ColumnStats(cs: seq<Option<Compound>>)
    requires cs != [] && None !in Unique(cs)
    ensures Unique(Known(cs)) != []
    ensures forall i :: 0 <= i < |Unique(cs)| ==> Unique(cs)[i].Some?
    ensures var names := Names(Unique(cs));
      var known := Unique(Known(cs));
      var m := MaxCount(cs, known);
      && (forall c :: c in names <==> Some(c) in cs)
      && (forall i, j :: 0 <= i < j < |names| ==> names[i] != names[j])
      && |names| == |known|
      && 1 <= m <= |cs|
      && (exists c :: c in names && m == CountOf(cs, c))
      && (forall c :: CountOf(cs, c) <= m)
  {
    var used := Unique(cs);
    var known := Unique(Known(cs));
    assert forall i :: 0 <= i < |used| ==> used[i] in cs && used[i] != None;
    assert cs[0] in used;
    assert cs[0].value in known;
    var names := Names(used);
    forall c
      ensures c in names <==> Some(c) in cs
    {
      if Some(c) in cs {
        var i :| 0 <= i < |used| && used[i] == Some(c);
        assert names[i] == c;
      }
    }
    UniqueSameLength(names, known);
    var m := MaxCount(cs, known);
    forall c
      ensures CountOf(cs, c) <= m
    {
      if Some(c) in cs {
        assert c in known;
      }
    }
    var k :| k in known && m == CountOf(cs, k);
    assert Some(k) in cs;
    assert k in names;
  }

  /** Two duplicate-free sequences with the same members have the same length. */
  lemma UniqueSameLength(a: seq<Compound>, b: seq<Compound>)
    requires forall i, j :: 0 <= i < j < |a| ==> a[i] != a[j]
    requires forall i, j :: 0 <= i < j < |b| ==> b[i] != b[j]
    requires forall c :: c in a <==> c in b
    ensures |a| == |b|
  {
    DistinctCardinality(a);
    DistinctCardinality(b);
    assert (set c | c in a) == (set c | c in b);
  }

  lemma {:induction false} DistinctCardinality(a: seq<Compound>)
    requires forall i, j :: 0 <= i < j < |a| ==> a[i] != a[j]
    ensures |set c | c in a| == |a|
  {
    if a != [] {
      var front := a[..|a| - 1];
      DistinctCardinality(front);
      assert (set c | c in a) == (set c | c in front) + {a[|a| - 1]};
      assert a[|a| - 1] !in front;
    }
  }

  /** How many times the compound changes from one row to the next (a missing one included). */
  function Changes(cs: seq<Option<Compound>>): nat
  {
    if |cs| <= 1 then 0
    else Changes(cs[..|cs| - 1]) + (if cs[|cs| - 1] != cs[|cs| - 2] then 1 else 0)
  }

  /**
   * Counting distinct compounds never reports more stops than the
   * compound changes between consecutive laps: a driver who returns to
   * an earlier compound is shown fewer stops than changes.
   */
  lemma {:induction false} DistinctAtMostChanges(cs: seq<Option<Compound>>)
    requires cs != []
    ensures |Unique(Known(cs))| <= Changes(cs) + 1
  {
    if |cs| > 1 {
      var front := cs[..|cs| - 1];
      var last := cs[|cs| - 1];
      DistinctAtMostChanges(front);
      var before := Unique(Known(front));
      var after := Unique(Known(cs));
      assert Known(cs) == Known(front) + (if last.Some? then [last.value] else []);
      if last.Some? {
        assert Known(cs) == Known(front) + [last.value];
        assert Known(cs)[..|Known(cs)| - 1] == Known(front);
      } else {
        assert Known(cs) == Known(front);
      }
      assert |after| <= |before| + 1;
      if last == cs[|cs| - 2] && last.Some? {
        assert front[|front| - 1] == last;
        assert last.value in Known(front);
        assert after == before;
      }
    } else {
      var ks := Known(cs);
      assert ks == Known([]) + (if cs[0].Some? then [cs[0].value] else []);
    }
  }

  /** The pit stops shown never exceed the compound changes of the driver's laps. */
  lemma PitStopsAtMostChanges(d: DriverId, rows: seq<StrategyRow>)
    requires rows != [] && DriverStats(d, rows).Ok?
    ensures DriverStats(d, rows).value.pitStops <= Changes(CompoundColumn(rows))
  {
    DistinctAtMostChanges(CompoundColumn(rows));
  }

  /**
   * The table after driver `d` is considered: unchanged when it has
   * already failed or `d` has no strategy rows, otherwise one more line,
   * or the failure of building it.
   */
  /** The selected drivers that have strategy rows, in selection order. */
  function WithRows(table: seq<StrategyRow>, selected: seq<DriverId>): (ds: seq<DriverId>)
    ensures |ds| <= |selected|
    ensures forall d :: d in ds <==> d in selected && RowsOf(table, d) != []
  {
    if selected == [] then []
    else
      var d := selected[|selected| - 1];
      assert forall e :: e in selected <==> e in selected[..|selected| - 1] || e == d;
      WithRows(table, selected[..|selected| - 1]) + (if RowsOf(table, d) != [] then [d] else [])
  }

  function AddLine(table: seq<StrategyRow>, earlier: Result<seq<DriverStrategy>, string>, d: DriverId)
    : Result<seq<DriverStrategy>, string>
  {
    var rows := RowsOf(table, d);
    if earlier.Err? || rows == [] then earlier
    else
      match DriverStats(d, rows)
      case Err(e) => Err(e)
      case Ok(line) => Ok(earlier.value + [line])
  }

  /**
   * The statistics of the selected drivers: a line for each one with
   * strategy rows, in selection order; the first line that cannot be built
   * stops the page.
   */
  function StrategyTable(table: seq<StrategyRow>, selected: seq<DriverId>): Result<seq<DriverStrategy>, string>
  {
    if selected == [] then Ok([])
    else AddLine(table, StrategyTable(table, selected[..|selected| - 1]), selected[|selected| - 1])
  }

  lemma StrategyTablePrefixStep(table: seq<StrategyRow>, selected: seq<DriverId>, k: nat)
    requires k < |selected|
    ensures StrategyTable(table, selected[..k + 1]) == AddLine(table, StrategyTable(table, selected[..k]), selected[k])
  {
    assert selected[..k + 1][..k] == selected[..k];
  }

  /** The loop over the selected drivers that fills `strategy_stats`. */
  method StrategyStatistics(table: seq<StrategyRow>, selected: seq<DriverId>)
    returns (stats: Result<seq<DriverStrategy>, string>)
    ensures stats == StrategyTable(table, selected)
  {
    var lines: seq<DriverStrategy> := [];
    for k := 0 to |selected|
      invariant StrategyTable(table, selected[..k]) == Ok(lines)
    {
      StrategyTablePrefixStep(table, selected, k);
      var driver := selected[k];
      var driverData := RowsOf(table, driver);
      if driverData != [] {
        var line := DriverStats(driver, driverData);
        if line.Err? {
          stats := Err(line.error);
          StrategyTableStaysFailed(table, selected, k + 1);
          return;
        }
        lines := lines + [line.value];
      }
    }
    assert selected[..|selected|] == selected;
    stats := Ok(lines);
  }

  /**
   * A table that builds has exactly one line per selected driver with
   * strategy rows, in selection order, each that driver's statistics.
   */
  lemma {:induction false} StrategyTableOkLines(table: seq<StrategyRow>, selected: seq<DriverId>)
    ensures var t := StrategyTable(table, selected);
      t.Ok? ==>
        && |t.value| == |WithRows(table, selected)|
        && forall k :: 0 <= k < |t.value| ==>
             DriverStats(WithRows(table, selected)[k], RowsOf(table, WithRows(table, selected)[k])) == Ok(t.value[k])
  {
    if selected != [] {
      var front := selected[..|selected| - 1];
      var d := selected[|selected| - 1];
      StrategyTableOkLines(table, front);
      var earlier := StrategyTable(table, front);
      var ds := WithRows(table, selected);
      var t := StrategyTable(table, selected);
      assert t == AddLine(table, earlier, d);
      if t.Ok? && RowsOf(table, d) != [] {
        var line := DriverStats(d, RowsOf(table, d)).value;
        assert t.value == earlier.value + [line];
        assert ds == WithRows(table, front) + [d];
        forall k | 0 <= k < |t.value|
          ensures DriverStats(ds[k], RowsOf(table, ds[k])) == Ok(t.value[k])
        {
          if k < |earlier.value| {
            assert ds[k] == WithRows(table, front)[k] && t.value[k] == earlier.value[k];
          }
        }
      } else if t.Ok? {
        assert ds == WithRows(table, front) + [];
      }
    }
  }

  /** Once a driver's line has failed, the table stays failed. */
  lemma {:induction false} StrategyTableStaysFailed(table: seq<StrategyRow>, selected: seq<DriverId>, k: nat)
    requires k <= |selected| && StrategyTable(table, selected[..k]).Err?
    ensures StrategyTable(table, selected) == StrategyTable(table, selected[..k])
    decreases |selected| - k
  {
    if k < |selected| {
      StrategyTablePrefixStep(table, selected, k);
      StrategyTableStaysFailed(table, selected, k + 1);
    } else {
      assert selected[..k] == selected;
    }
  }

  /** A selected driver with strategy rows that has a lap with a missing compound. */
  ghost predicate HasUnjoinable(table: seq<StrategyRow>, d: DriverId)
  {
    exists i :: 0 <= i < |RowsOf(table, d)| && RowsOf(table, d)[i].lap.compound.None?
  }

  /** The table fails exactly when a selected driver has a lap with a missing compound. */
  lemma {:induction false} StrategyTableFailsIff(table: seq<StrategyRow>, selected: seq<DriverId>)
    ensures StrategyTable(table, selected).Err? <==> exists d :: d in selected && HasUnjoinable(table, d)
  {
    if selected != [] {
      var front := selected[..|selected| - 1];
      var d := selected[|selected| - 1];
      StrategyTableFailsIff(table, front);
      assert forall e :: e in selected <==> e in front || e == d;
      if RowsOf(table, d) != [] {
        assert DriverStats(d, RowsOf(table, d)).Err? <==> HasUnjoinable(table, d);
      }
    }
  }

  /**
   * A table that builds has at most one line per selected driver, each
   * naming a selected driver with strategy rows.
   */
  lemma {:induction false} StrategyTableLines(table: seq<StrategyRow>, selected: seq<DriverId>)
    ensures StrategyTable(table, selected).Ok? ==>
      var lines := StrategyTable(table, selected).value;
      && |lines| <= |selected|
      && forall k :: 0 <= k < |lines| ==> LineOfSelected(table, selected, lines[k])
  {
    if selected != [] {
      var front := selected[..|selected| - 1];
      var d := selected[|selected| - 1];
      var earlier := StrategyTable(table, front);
      assert StrategyTable(table, selected) == AddLine(table, earlier, d);
      if earlier.Ok? {
        StrategyTableLines(table, front);
        forall k | 0 <= k < |earlier.value|
          ensures LineOfSelected(table, selected, earlier.value[k])
        {
          assert LineOfSelected(table, front, earlier.value[k]);
          assert earlier.value[k].driver in front;
        }
        AddLineKeeps(table, selected, earlier.value, d);
      }
    }
  }

  /** Adding the line of a selected driver keeps every line one of a selected driver with rows. */
  lemma AddLineKeeps(table: seq<StrategyRow>, selected: seq<DriverId>, lines: seq<DriverStrategy>, d: DriverId)
    requires d in selected
    requires forall k :: 0 <= k < |lines| ==> LineOfSelected(table, selected, lines[k])
    ensures var after := AddLine(table, Ok(lines), d);
      after.Ok? ==>
        && |after.value| <= |lines| + 1
        && forall k :: 0 <= k < |after.value| ==> LineOfSelected(table, selected, after.value[k])
  {
    var rows := RowsOf(table, d);
    if rows != [] && DriverStats(d, rows).Ok? {
      var line := DriverStats(d, rows).value;
      assert line.driver == d;
      assert LineOfSelected(table, selected, line);
      assert AddLine(table, Ok(lines), d).value == lines + [line];
    }
  }

  /** A line for a selected driver who has strategy rows. */
  ghost predicate LineOfSelected(table: seq<StrategyRow>, selected: seq<DriverId>, line: DriverStrategy)
  {
    line.driver in selected && RowsOf(table, line.driver) != []
  }
}
