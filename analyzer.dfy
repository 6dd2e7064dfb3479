/** `analyzer.py`: loading and cleaning one measurement file, the statistics of
    a table, the per-mode map built from several files, and the comparison of
    the modes against the lowest average power. */
module PowerAnalyzer {
  import opened Wrappers
  import opened Numbers
  import opened Tables
  import Utils
  import EH = ErrorHandling

  function SampleTime(x: Sample): real { x.time }

  /** A table as `load_csv_file` returns it: the cleaned samples and the constant
      `Mode` and `Mode_CN` columns. */
  datatype LoadedTable = LoadedTable(mode: string, modeCn: string, samples: seq<Sample>)

  /** A row without a missing cell; `dropna()` keeps exactly these. */
  predicate Complete(row: seq<Option<real>>)
  {
    forall j :: 0 <= j < |row| ==> row[j].Some?
  }

  /** The first four cells of a complete row, read as time, voltage, current, power. */
  function ToSample(row: seq<Option<real>>): Sample
    requires |row| >= 4 && Complete(row)
  {
    Sample(row[0].value, row[1].value, row[2].value, row[3].value)
  }

  /** Row `i` survives `dropna()` and the non-negative power filter and gives `x`. */
  predicate KeepsAs(rows: seq<seq<Option<real>>>, i: int, x: Sample)
    requires forall k :: 0 <= k < |rows| ==> |rows[k]| >= 4
  {
    0 <= i < |rows| && Complete(rows[i]) && ToSample(rows[i]) == x && x.power >= 0.0
  }

  /** The samples `dropna()` and `df[df['Power'] >= 0]` keep, in file order. */
  function KeptSamples(rows: seq<seq<Option<real>>>): (r: seq<Sample>)
    requires forall k :: 0 <= k < |rows| ==> |rows[k]| >= 4
    ensures |r| <= |rows|
  {
    if rows == [] then []
    else if Complete(rows[0]) && ToSample(rows[0]).power >= 0.0 then [ToSample(rows[0])] + KeptSamples(rows[1..])
    else KeptSamples(rows[1..])
  }

  /** A sample is kept exactly when some row survives the cleaning as it. */
  lemma {:induction false} KeptSamplesMembers(rows: seq<seq<Option<real>>>)
    requires forall k :: 0 <= k < |rows| ==> |rows[k]| >= 4
    ensures forall x :: x in KeptSamples(rows) <==> exists i :: KeepsAs(rows, i, x)
  {
    if rows != [] {
      var tail := rows[1..];
      KeptSamplesMembers(tail);
      forall x
        ensures x in KeptSamples(rows) <==> exists i :: KeepsAs(rows, i, x)
      {
        if x in KeptSamples(rows) {
          if KeepsAs(rows, 0, x) {
          } else {
            assert x in KeptSamples(tail);
            var i :| KeepsAs(tail, i, x);
            assert KeepsAs(rows, i + 1, x);
          }
        }
        if exists i :: KeepsAs(rows, i, x) {
          var i :| KeepsAs(rows, i, x);
          if i > 0 {
            assert KeepsAs(tail, i - 1, x);
          }
        }
      }
    }
  }

  /** `mode_names.get(mode, mode)`. */
  function ModeCn(mode: string): string
  {
    if mode in Utils.GetModeNames() then Utils.GetModeNames()[mode] else mode
  }

  /** The cleaning shared by both loaders: `dropna()`, non-negative power, sorted by time. */
  function CleanSamples(rows: seq<seq<Option<real>>>): seq<Sample>
    requires forall k :: 0 <= k < |rows| ==> |rows[k]| >= 4
  {
    SortBy(KeptSamples(rows), SampleTime)
  }

  /** The cleaned samples are sorted by time, have non-negative power, and are a
      reordering of the complete rows with non-negative power. */
  lemma CleanSamplesSpec(rows: seq<seq<Option<real>>>)
    requires forall k :: 0 <= k < |rows| ==> |rows[k]| >= 4
    ensures SortedBy(CleanSamples(rows), SampleTime)
    ensures multiset(CleanSamples(rows)) == multiset(KeptSamples(rows))
    ensures forall x :: x in CleanSamples(rows) <==> exists i :: KeepsAs(rows, i, x)
    ensures forall i :: 0 <= i < |CleanSamples(rows)| ==> CleanSamples(rows)[i].power >= 0.0
  {
    SortBySpec(KeptSamples(rows), SampleTime);
    var c := CleanSamples(rows);
    KeptSamplesMembers(rows);
    forall x
      ensures x in c <==> x in KeptSamples(rows)
    {
      assert x in c <==> x in multiset(c);
      assert x in KeptSamples(rows) <==> x in multiset(KeptSamples(rows));
    }
    forall i | 0 <= i < |c|
      ensures c[i].power >= 0.0
    {
      assert c[i] in c;
      var k :| KeepsAs(rows, k, c[i]);
    }
  }

  /** The mode a file is loaded under: the given one, else the one its name suggests. */
  function ModeFor(stem: string, modeName: Option<string>): string
  {
    match modeName
    case Some(m) => m
    case None => Utils.DetectModeFromFilename(stem)
  }

  /** `load_csv_file` with the evident intent: an unreadable file or one with fewer
      than four columns gives `None`; otherwise the first four columns are
      renamed, the mode is attached, and the rows are cleaned. */
  function LoadCsvFile(stem: string, table: Option<CsvTable>, modeName: Option<string>): (r: Option<LoadedTable>)
    requires table.Some? ==> Rectangular(table.value)
    ensures r.Some? <==> table.Some? && |table.value.columns| >= 4
    ensures r.Some? ==> r.value.mode == ModeFor(stem, modeName) && r.value.modeCn == ModeCn(r.value.mode)
  {
    if table.None? || |table.value.columns| < 4 then None
    else
      var mode := ModeFor(stem, modeName);
      Some(LoadedTable(mode, ModeCn(mode), CleanSamples(table.value.rows)))
  }

  /** A loaded table is sorted by time, has no negative power, and holds exactly
      the complete rows with non-negative power. */
  lemma LoadCsvFileSpec(stem: string, table: CsvTable, modeName: Option<string>)
    requires Rectangular(table) && |table.columns| >= 4
    ensures var t := LoadCsvFile(stem, Some(table), modeName).value;
      && SortedBy(t.samples, SampleTime)
      && (forall i :: 0 <= i < |t.samples| ==> t.samples[i].power >= 0.0)
      && multiset(t.samples) == multiset(KeptSamples(table.rows))
      && (forall x :: x in t.samples <==> exists i :: KeepsAs(table.rows, i, x))
  {
    CleanSamplesSpec(table.rows);
  }

  /** `load_csv_file` as written: the assignment of four column names raises on
      a file with more than four columns, and the handler turns that into `None`. */
  function LoadCsvFileAsWritten(stem: string, table: Option<CsvTable>, modeName: Option<string>): (r: Option<LoadedTable>)
    requires table.Some? ==> Rectangular(table.value)
    ensures r.Some? <==> table.Some? && |table.value.columns| == 4
    ensures r.Some? ==> r == LoadCsvFile(stem, table, modeName)
  {
    if table.Some? && |table.value.columns| > 4 then None
    else LoadCsvFile(stem, table, modeName)
  }

  /** A clean ten-row file with a fifth column is loaded by the intended loader
      and refused by the loader as written. */
  lemma FiveColumnFileNotLoaded()
    ensures LoadCsvFile("breath", Some(EH.FiveColumnFile()), None).Some?
    ensures LoadCsvFileAsWritten("breath", Some(EH.FiveColumnFile()), None).None?
  {
  }

  // -------------------------------------------------------------- statistics

  function Powers(s: seq<Sample>): (vs: seq<real>)
    ensures |vs| == |s| && forall i :: 0 <= i < |s| ==> vs[i] == s[i].power
  {
    if s == [] then [] else [s[0].power] + Powers(s[1..])
  }

  function Currents(s: seq<Sample>): (vs: seq<real>)
    ensures |vs| == |s| && forall i :: 0 <= i < |s| ==> vs[i] == s[i].current
  {
    if s == [] then [] else [s[0].current] + Currents(s[1..])
  }

  function Voltages(s: seq<Sample>): (vs: seq<real>)
    ensures |vs| == |s| && forall i :: 0 <= i < |s| ==> vs[i] == s[i].voltage
  {
    if s == [] then [] else [s[0].voltage] + Voltages(s[1..])
  }

  function SampleTimes(s: seq<Sample>): (vs: seq<real>)
    ensures |vs| == |s| && forall i :: 0 <= i < |s| ==> vs[i] == s[i].time
  {
    if s == [] then [] else [s[0].time] + SampleTimes(s[1..])
  }

  /** `np.trapz(power, time)`: the trapezoid rule over the rows in table order. */
  function Trapz(s: seq<Sample>): real
  {
    if |s| < 2 then 0.0
    else
      var n := |s|;
      Trapz(s[..n - 1]) + (s[n - 1].time - s[n - 2].time) * (s[n - 2].power + s[n - 1].power) / 2.0
  }

  /** Under constant power the energy is that power times the elapsed time. */
  lemma {:induction false} TrapzConstant(s: seq<Sample>, c: real)
    requires s != []
    requires forall i :: 0 <= i < |s| ==> s[i].power == c
    ensures Trapz(s) == c * (s[|s| - 1].time - s[0].time)
  {
    if |s| >= 2 {
      var n := |s|;
      TrapzConstant(s[..n - 1], c);
      var a := s[0].time;
      var b := s[n - 2].time;
      var e := s[n - 1].time;
      assert (e - b) * (c + c) / 2.0 == c * (e - b);
      assert c * (b - a) + c * (e - b) == c * (e - a);
    }
  }

  /** Non-negative power over ascending times gives non-negative energy. */
  lemma {:induction false} TrapzNonNegative(s: seq<Sample>)
    requires SortedBy(s, SampleTime)
    requires forall i :: 0 <= i < |s| ==> s[i].power >= 0.0
    ensures Trapz(s) >= 0.0
  {
    if |s| >= 2 {
      var n := |s|;
      assert SortedBy(s[..n - 1], SampleTime);
      TrapzNonNegative(s[..n - 1]);
      var dt := s[n - 1].time - s[n - 2].time;
      var p := (s[n - 2].power + s[n - 1].power) / 2.0;
      assert SampleTime(s[n - 2]) <= SampleTime(s[n - 1]);
      assert dt >= 0.0 && p >= 0.0;
      assert dt * (s[n - 2].power + s[n - 1].power) / 2.0 == dt * p;
      assert dt * p >= 0.0;
    }
  }

  /** The `calculate_statistics` dictionary without the plotting-only fields. */
  datatype Statistics = Statistics(
    mode: string, modeCn: string, durationS: real, dataPoints: nat,
    avgVoltageV: real, avgCurrentA: real, avgCurrentMA: real,
    avgPowerW: real, avgPowerMW: real, maxPowerW: real, maxPowerMW: real,
    minPowerW: real, minPowerMW: real, stdPowerW: real, stdPowerMW: real,
    totalEnergyJ: real, cvPower: real)

  datatype StatsError = EmptyTable

  /** `cv_power`: the standard deviation over the mean when the mean is positive, else 0. */
  function CoefficientOfVariation(std: real, mean: real): (cv: real)
    ensures mean <= 0.0 ==> cv == 0.0
  {
    if mean > 0.0 then std / mean else 0.0
  }

  /** With a positive mean, the coefficient scaled back by the mean is the
      standard deviation, and it is never negative when the deviation is not. */
  lemma CoefficientOfVariationScales(std: real, mean: real)
    requires mean > 0.0
    ensures CoefficientOfVariation(std, mean) * mean == std
    ensures std >= 0.0 ==> CoefficientOfVariation(std, mean) >= 0.0
  {
  }

  /** `df['Time'].max() - df['Time'].min()`: no two rows lie further apart,
      and two rows lie exactly that far apart. */
  function TimeSpan(s: seq<Sample>): (d: real)
    requires s != []
    ensures d >= 0.0
  {
    var ts := SampleTimes(s);
    MaxOf(ts) - MinOf(ts)
  }

  lemma TimeSpanSpec(s: seq<Sample>)
    requires s != []
    ensures forall i, j :: 0 <= i < |s| && 0 <= j < |s| ==> s[j].time - s[i].time <= TimeSpan(s)
    ensures exists i, j :: 0 <= i < |s| && 0 <= j < |s| && TimeSpan(s) == s[j].time - s[i].time
  {
    var ts := SampleTimes(s);
    var i :| 0 <= i < |s| && ts[i] == MinOf(ts);
    var j :| 0 <= j < |s| && ts[j] == MaxOf(ts);
    assert TimeSpan(s) == s[j].time - s[i].time;
  }

  /** `calculate_statistics`. The sample standard deviation of the power column
      comes from the numeric library and is passed in as `std`. An empty table
      fails on `iloc[0]`. */
  function CalculateStatistics(t: LoadedTable, std: seq<real> -> real): (r: Result<Statistics, StatsError>)
    ensures r.Err? <==> t.samples == []
  {
    if t.samples == [] then Err(EmptyTable)
    else
      var s := t.samples;
      var ps := Powers(s);
      var avgP := Mean(ps);
      var avgI := Mean(Currents(s));
      var sd := std(ps);
      Ok(Statistics(
        t.mode, t.modeCn, TimeSpan(s), |s|,
        Mean(Voltages(s)), avgI, avgI * 1000.0,
        avgP, avgP * 1000.0, MaxOf(ps), MaxOf(ps) * 1000.0,
        MinOf(ps), MinOf(ps) * 1000.0, sd, sd * 1000.0,
        Trapz(s), CoefficientOfVariation(sd, avgP)))
  }

  /** The statistics of a non-empty table: its mode, its size and span, power
      bounds that every row respects and some row attains, an average between
      them, milliunits a thousand times the base units, the given deviation,
      the trapezoid energy and the coefficient of variation. */
  lemma CalculateStatisticsSpec(t: LoadedTable, std: seq<real> -> real)
    requires t.samples != []
    ensures var st := CalculateStatistics(t, std).value;
      && st.mode == t.mode && st.modeCn == t.modeCn
      && st.dataPoints == |t.samples| && st.durationS == TimeSpan(t.samples)
      && st.minPowerW <= st.avgPowerW <= st.maxPowerW
      && (forall i :: 0 <= i < |t.samples| ==> st.minPowerW <= t.samples[i].power <= st.maxPowerW)
      && st.minPowerW in Powers(t.samples) && st.maxPowerW in Powers(t.samples)
      && st.avgCurrentMA == st.avgCurrentA * 1000.0
      && st.avgPowerMW == st.avgPowerW * 1000.0
      && st.maxPowerMW == st.maxPowerW * 1000.0
      && st.minPowerMW == st.minPowerW * 1000.0
      && st.stdPowerMW == st.stdPowerW * 1000.0
      && st.stdPowerW == std(Powers(t.samples))
      && st.totalEnergyJ == Trapz(t.samples)
      && st.cvPower == CoefficientOfVariation(st.stdPowerW, st.avgPowerW)
  {
    MeanBetween(Powers(t.samples));
  }

  /** The three averages of a non-empty table: each is its column's sum shared
      out over the rows, and lies between the column's least and greatest
      value. */
  lemma CalculateStatisticsAverages(t: LoadedTable, std: seq<real> -> real)
    requires t.samples != []
    ensures var st := CalculateStatistics(t, std).value;
      && AverageOf(st.avgPowerW, Powers(t.samples))
      && AverageOf(st.avgVoltageV, Voltages(t.samples))
      && AverageOf(st.avgCurrentA, Currents(t.samples))
  {
    var s := t.samples;
    var st := CalculateStatistics(t, std).value;
    ColumnAverage(Powers(s), st.avgPowerW);
    ColumnAverage(Voltages(s), st.avgVoltageV);
    ColumnAverage(Currents(s), st.avgCurrentA);
  }

  /** `duration_s` is the span of the table handed in: for rows that all lie in
      `[a, b]` it is at most `b - a`, and it need not reach it. */
  lemma DurationWithinRange(t: LoadedTable, std: seq<real> -> real, a: real, b: real)
    requires t.samples != []
    requires forall i :: 0 <= i < |t.samples| ==> a <= t.samples[i].time <= b
    ensures CalculateStatistics(t, std).value.durationS <= b - a
  {
    var s := t.samples;
    TimeSpanSpec(s);
    var i, j :| 0 <= i < |s| && 0 <= j < |s| && TimeSpan(s) == s[j].time - s[i].time;
  }

  /** On a sorted table `duration_s` is the last time minus the first. */
  lemma DurationOfSorted(t: LoadedTable, std: seq<real> -> real)
    requires t.samples != [] && SortedBy(t.samples, SampleTime)
    ensures CalculateStatistics(t, std).value.durationS == t.samples[|t.samples| - 1].time - t.samples[0].time
  {
    SpanOfSorted(t.samples);
  }

  lemma SpanOfSorted(s: seq<Sample>)
    requires s != [] && SortedBy(s, SampleTime)
    ensures TimeSpan(s) == s[|s| - 1].time - s[0].time
  {
    var ts := SampleTimes(s);
    var n := |s|;
    var lo := MinOf(ts);
    var hi := MaxOf(ts);
    var i :| 0 <= i < n && ts[i] == lo;
    var j :| 0 <= j < n && ts[j] == hi;
    assert SampleTime(s[0]) <= SampleTime(s[i]);
    assert SampleTime(s[j]) <= SampleTime(s[n - 1]);
    assert lo == ts[0] && hi == ts[n - 1];
  }

  /** A loaded table never reports a negative minimum power. */
  lemma LoadedMinPowerNonNegative(stem: string, table: CsvTable, std: seq<real> -> real)
    requires Rectangular(table) && |table.columns| >= 4
    requires CleanSamples(table.rows) != []
    ensures CalculateStatistics(LoadCsvFile(stem, Some(table), None).value, std).value.minPowerW >= 0.0
  {
    var t := LoadCsvFile(stem, Some(table), None).value;
    assert t.samples == CleanSamples(table.rows);
    CleanSamplesSpec(table.rows);
    var ps := Powers(t.samples);
    var k :| 0 <= k < |ps| && ps[k] == MinOf(ps);
    assert t.samples[k].power >= 0.0;
  }

  // -------------------------------------------------------------- comparison

  /** A comparison entry: the statistics and, when more than one mode is
      compared, the increase over the lowest average power in percent. */
  datatype ComparisonEntry = ComparisonEntry(stats: Statistics, powerIncreasePercent: Option<real>)

  /** `(p - baseline) / baseline * 100` when the baseline is positive, else 0. */
  function IncreasePercent(p: real, baseline: real): (pct: real)
    ensures baseline <= 0.0 ==> pct == 0.0
    ensures p == baseline ==> pct == 0.0
  {
    if baseline > 0.0 then (p - baseline) / baseline * 100.0 else 0.0
  }

  /** Against a positive baseline the percentage scales back to the difference,
      and it is never negative above the baseline. */
  lemma IncreasePercentScales(p: real, baseline: real)
    ensures baseline > 0.0 ==> IncreasePercent(p, baseline) * baseline == (p - baseline) * 100.0
    ensures p >= baseline ==> IncreasePercent(p, baseline) >= 0.0
  {
  }

  /** `m` has the lowest average power and every percentage is taken against it. */
  predicate IsBaseline(result: map<string, ComparisonEntry>, m: string)
  {
    && m in result
    && (forall k :: k in result ==> result[m].stats.avgPowerW <= result[k].stats.avgPowerW)
    && (forall k :: k in result ==>
         result[k].powerIncreasePercent == Some(IncreasePercent(result[k].stats.avgPowerW, result[m].stats.avgPowerW)))
  }

  /** Against the baseline every percentage is present and non-negative, and
      the baseline's own is 0. */
  lemma BaselinePercents(result: map<string, ComparisonEntry>, m: string)
    requires IsBaseline(result, m)
    ensures forall k :: k in result ==>
      result[k].powerIncreasePercent.Some? && result[k].powerIncreasePercent.value >= 0.0
    ensures result[m].powerIncreasePercent == Some(0.0)
  {
    forall k | k in result
      ensures result[k].powerIncreasePercent.value >= 0.0
    {
      IncreasePercentScales(result[k].stats.avgPowerW, result[m].stats.avgPowerW);
    }
  }

  /** `get_comparison_statistics`: the statistics of every table and, with more
      than one table, each one's increase over the lowest average power.
      Every table comes from `analyze_files`, which never keeps an empty one. */
  method GetComparisonStatistics(dataDict: map<string, LoadedTable>, std: seq<real> -> real)
    returns (result: map<string, ComparisonEntry>)
    requires forall m :: m in dataDict ==> dataDict[m].samples != []
    ensures result.Keys == dataDict.Keys
    ensures forall m :: m in result ==> result[m].stats == CalculateStatistics(dataDict[m], std).value
    ensures |dataDict| <= 1 ==> forall m :: m in result ==> result[m].powerIncreasePercent.None?
    ensures |dataDict| > 1 ==> exists m :: IsBaseline(result, m)
  {
    var stats := MapValues(dataDict, (t: LoadedTable) requires t.samples != [] => CalculateStatistics(t, std).value);
    assert |stats| == |dataDict| by {
      assert |stats.Keys| == |dataDict.Keys|;
    }
    if |stats| > 1 {
      result := AgainstBaseline(stats);
    } else {
      result := WithoutPercents(stats);
    }
  }

  /** With a single table there is nothing to compare against: no percentages. */
  method WithoutPercents(stats: map<string, Statistics>) returns (result: map<string, ComparisonEntry>)
    ensures result.Keys == stats.Keys
    ensures forall m :: m in result ==> result[m].stats == stats[m] && result[m].powerIncreasePercent.None?
  {
    result := map m | m in stats :: ComparisonEntry(stats[m], None);
    assert forall m :: m in result <==> m in stats;
  }

  /** The first loop of `get_comparison_statistics`: `f` applied to every value
      of `d`, under the same keys. */
  method MapValues<V, W>(d: map<string, V>, f: V --> W) returns (r: map<string, W>)
    requires forall m :: m in d ==> f.requires(d[m])
    ensures r.Keys == d.Keys
    ensures forall m :: m in r ==> r[m] == f(d[m])
  {
    r := map[];
    var todo := d.Keys;
    while todo != {}
      invariant todo <= d.Keys
      invariant forall m :: m in r <==> m in d && m !in todo
      invariant forall m :: m in r ==> r[m] == f(d[m])
      decreases todo
    {
      var m :| m in todo;
      r := r[m := f(d[m])];
      todo := todo - {m};
    }
    assert r.Keys == d.Keys;
  }

  /** The relative part of `get_comparison_statistics`: the lowest average power,
      then every table's increase over it. */
  method AgainstBaseline(stats: map<string, Statistics>) returns (result: map<string, ComparisonEntry>)
    requires stats != map[]
    ensures result.Keys == stats.Keys
    ensures forall m :: m in result ==> result[m].stats == stats[m]
    ensures exists m :: IsBaseline(result, m)
  {
    // min(stats['avg_power_W'] for stats in comparison_stats.values())
    var first :| first in stats;
    var best := first;
    var seen := {first};
    while seen != stats.Keys
      invariant seen <= stats.Keys && best in seen
      invariant forall k :: k in seen ==> stats[best].avgPowerW <= stats[k].avgPowerW
      decreases stats.Keys - seen
    {
      assert stats.Keys - seen != {};
      var k :| k in stats.Keys - seen;
      if stats[k].avgPowerW < stats[best].avgPowerW {
        best := k;
      }
      seen := seen + {k};
    }
    var baseline := stats[best].avgPowerW;
    result := map m | m in stats :: ComparisonEntry(stats[m], Some(IncreasePercent(stats[m].avgPowerW, baseline)));
    assert forall m :: m in result <==> m in stats;
    assert IsBaseline(result, best);
  }

  // ----------------------------------------------------------- analyze files

  /** One input file: the stem of its name and its table, `None` when unreadable. */
  datatype CsvFile = CsvFile(stem: string, table: Option<CsvTable>)

  predicate Readable(files: seq<CsvFile>)
  {
    forall i :: 0 <= i < |files| ==> files[i].table.Some? ==> Rectangular(files[i].table.value)
  }

  /** `load_csv_file(filepath)` for one file: the mode comes from its name. */
  function LoadFile(f: CsvFile): Option<LoadedTable>
    requires f.table.Some? ==> Rectangular(f.table.value)
  {
    LoadCsvFile(f.stem, f.table, None)
  }

  /** What `load` makes of each file, in order. */
  function LoadsWith(load: CsvFile --> Option<LoadedTable>, files: seq<CsvFile>): (r: seq<Option<LoadedTable>>)
    requires forall i :: 0 <= i < |files| ==> load.requires(files[i])
    ensures |r| == |files|
    ensures forall i :: 0 <= i < |files| ==> r[i] == load(files[i])
  {
    seq(|files|, i requires 0 <= i < |files| => load(files[i]))
  }

  /** What `load_csv_file` makes of each file, in order. */
  function Loads(files: seq<CsvFile>): seq<Option<LoadedTable>>
    requires Readable(files)
  {
    LoadsWith(LoadFile, files)
  }

  /** `load_csv_file(filepath)` as written for one file. */
  function LoadFileAsWritten(f: CsvFile): Option<LoadedTable>
    requires f.table.Some? ==> Rectangular(f.table.value)
  {
    LoadCsvFileAsWritten(f.stem, f.table, None)
  }

  /** What `load_csv_file` as written makes of each file, in order. */
  function LoadsAsWritten(files: seq<CsvFile>): seq<Option<LoadedTable>>
    requires Readable(files)
  {
    LoadsWith(LoadFileAsWritten, files)
  }

  /** Load `i` has mode `m` and no later load before `n` does. */
  predicate LastWithMode(loads: seq<Option<LoadedTable>>, n: int, i: int, m: string)
    requires n <= |loads|
  {
    0 <= i < n && loads[i].Some? && loads[i].value.mode == m &&
    forall j :: i < j < n ==> loads[j].None? || loads[j].value.mode != m
  }

  /** A load that is absent or under another mode keeps `i` the last with mode `m`. */
  lemma LastWithModeExtends(loads: seq<Option<LoadedTable>>, n: int, i: int, m: string)
    requires n < |loads| && LastWithMode(loads, n, i, m)
    requires loads[n].None? || loads[n].value.mode != m
    ensures LastWithMode(loads, n + 1, i, m)
  {
  }

  /** `data_dict` after the first `n` loads: each non-empty table under its own
      mode, every loaded mode present, and each one holding its last load. */
  ghost predicate Stored(loads: seq<Option<LoadedTable>>, n: int, d: map<string, LoadedTable>)
    requires 0 <= n <= |loads|
  {
    && (forall m :: m in d ==> d[m].mode == m && d[m].samples != [])
    && (forall m :: m in d <==> exists k :: 0 <= k < n && loads[k].Some? && loads[k].value.mode == m)
    && (forall m :: m in d ==> exists k :: LastWithMode(loads, n, k, m) && loads[k] == Some(d[m]))
  }

  /** `data_dict[mode] = df`, or nothing when the file did not load. */
  function Store(d: map<string, LoadedTable>, df: Option<LoadedTable>): map<string, LoadedTable>
  {
    if df.Some? then d[df.value.mode := df.value] else d
  }

  /** One more non-empty load keeps `Stored`. */
  lemma StoreStep(loads: seq<Option<LoadedTable>>, n: int, d: map<string, LoadedTable>)
    requires 0 <= n < |loads| && Stored(loads, n, d)
    requires loads[n].None? || loads[n].value.samples != []
    ensures Stored(loads, n + 1, Store(d, loads[n]))
  {
    StoreKeys(loads, n, d);
    StoreValues(loads, n, d);
  }

  /** The modes stored after one more load are those loaded so far. */
  lemma StoreKeys(loads: seq<Option<LoadedTable>>, n: int, d: map<string, LoadedTable>)
    requires 0 <= n < |loads| && Stored(loads, n, d)
    ensures forall m :: m in Store(d, loads[n]) <==>
      exists k :: 0 <= k < n + 1 && loads[k].Some? && loads[k].value.mode == m
  {
    var df := loads[n];
    var d' := Store(d, df);
    forall m
      ensures m in d' <==> exists k :: 0 <= k < n + 1 && loads[k].Some? && loads[k].value.mode == m
    {
      if m in d' && !(df.Some? && m == df.value.mode) {
        assert m in d;
        var k :| 0 <= k < n && loads[k].Some? && loads[k].value.mode == m;
        assert 0 <= k < n + 1;
      }
      if exists k :: 0 <= k < n + 1 && loads[k].Some? && loads[k].value.mode == m {
        var k :| 0 <= k < n + 1 && loads[k].Some? && loads[k].value.mode == m;
        if k < n {
          assert m in d;
        }
      }
    }
  }

  /** After one more load every stored mode still holds its last load. */
  lemma StoreValues(loads: seq<Option<LoadedTable>>, n: int, d: map<string, LoadedTable>)
    requires 0 <= n < |loads| && Stored(loads, n, d)
    ensures forall m :: m in Store(d, loads[n]) ==>
      exists k :: LastWithMode(loads, n + 1, k, m) && loads[k] == Some(Store(d, loads[n])[m])
  {
    var df := loads[n];
    var d' := Store(d, df);
    forall m | m in d'
      ensures exists k :: LastWithMode(loads, n + 1, k, m) && loads[k] == Some(d'[m])
    {
      if df.Some? && m == df.value.mode {
        assert LastWithMode(loads, n + 1, n, m);
      } else {
        var k :| LastWithMode(loads, n, k, m) && loads[k] == Some(d[m]);
        LastWithModeExtends(loads, n, k, m);
      }
    }
  }

  /** `data_dict` after the first `n` loads, one `Store` per load. */
  function StoredAfter(loads: seq<Option<LoadedTable>>, n: nat): map<string, LoadedTable>
    requires n <= |loads|
  {
    if n == 0 then map[] else Store(StoredAfter(loads, n - 1), loads[n - 1])
  }

  /** When no load before `n` is empty, `StoredAfter` keeps `Stored`. */
  lemma {:induction false} StoredAfterStored(loads: seq<Option<LoadedTable>>, n: nat)
    requires n <= |loads|
    requires forall k :: 0 <= k < n ==> loads[k].None? || loads[k].value.samples != []
    ensures Stored(loads, n, StoredAfter(loads, n))
  {
    if n > 0 {
      StoredAfterStored(loads, n - 1);
      StoreStep(loads, n - 1, StoredAfter(loads, n - 1));
    }
  }

  datatype AnalyzeError = EmptyLoadedFile(index: nat)

  /** `analyze_files`, loading part: every readable file is loaded and stored under
      its mode, a later file replacing an earlier one of the same mode. A file that
      loads but keeps no row stops the run (`iloc[0]` on an empty table). */
  method AnalyzeFiles(files: seq<CsvFile>) returns (r: Result<map<string, LoadedTable>, AnalyzeError>)
    requires Readable(files)
    ensures r.Err? <==> exists i :: 0 <= i < |files| && Loads(files)[i].Some? && Loads(files)[i].value.samples == []
    ensures r.Err? ==> r.error.index < |files|
    ensures r.Err? ==> Loads(files)[r.error.index].Some? && Loads(files)[r.error.index].value.samples == []
    ensures r.Ok? ==> Stored(Loads(files), |files|, r.value)
  {
    r := StoreLoads(files, LoadFile);
    assert Loads(files) == LoadsWith(LoadFile, files);
    if r.Ok? {
      StoredAfterStored(Loads(files), |files|);
    }
  }

  /** `analyze_files` on `load_csv_file` as written: a file with more than four
      columns does not load and so is not stored. */
  method AnalyzeFilesAsWritten(files: seq<CsvFile>) returns (r: Result<map<string, LoadedTable>, AnalyzeError>)
    requires Readable(files)
    ensures r.Err? <==> exists i :: 0 <= i < |files| && LoadsAsWritten(files)[i].Some? && LoadsAsWritten(files)[i].value.samples == []
    ensures r.Err? ==> r.error.index < |files|
    ensures r.Err? ==> LoadsAsWritten(files)[r.error.index].Some? && LoadsAsWritten(files)[r.error.index].value.samples == []
    ensures r.Ok? ==> Stored(LoadsAsWritten(files), |files|, r.value)
  {
    r := StoreLoads(files, LoadFileAsWritten);
    assert LoadsAsWritten(files) == LoadsWith(LoadFileAsWritten, files);
    if r.Ok? {
      StoredAfterStored(LoadsAsWritten(files), |files|);
    }
  }

  /** A run over the single clean five-column file stores one table with the
      intended loader and nothing with the loader as written. */
  lemma FiveColumnRunStoresNothing()
    ensures var files := [CsvFile("breath", Some(EH.FiveColumnFile()))];
      && |StoredAfter(Loads(files), 1)| == 1
      && StoredAfter(LoadsAsWritten(files), 1) == map[]
  {
    var files := [CsvFile("breath", Some(EH.FiveColumnFile()))];
    FiveColumnFileNotLoaded();
    LoadCsvFileSpec("breath", EH.FiveColumnFile(), None);
    assert Loads(files)[0] == LoadCsvFile("breath", Some(EH.FiveColumnFile()), None);
    assert LoadsAsWritten(files)[0].None?;
  }

  /** The loop of `analyze_files` with the loader `load`. */
  method StoreLoads(files: seq<CsvFile>, load: CsvFile --> Option<LoadedTable>)
    returns (r: Result<map<string, LoadedTable>, AnalyzeError>)
    requires forall i :: 0 <= i < |files| ==> load.requires(files[i])
    ensures r.Err? <==> exists i :: 0 <= i < |files| && LoadsWith(load, files)[i].Some? && LoadsWith(load, files)[i].value.samples == []
    ensures r.Err? ==> r.error.index < |files|
    ensures r.Err? ==> var df := LoadsWith(load, files)[r.error.index]; df.Some? && df.value.samples == []
    ensures r.Ok? ==> r.value == StoredAfter(LoadsWith(load, files), |files|)
  {
    ghost var loads := LoadsWith(load, files);
    var dataDict: map<string, LoadedTable> := map[];
    var i := 0;
    while i < |files|
      invariant 0 <= i <= |files|
      invariant forall k :: 0 <= k < i ==> loads[k].None? || loads[k].value.samples != []
      invariant dataDict == StoredAfter(loads, i)
    {
      var df := load(files[i]);
      assert df == loads[i];
      if df.Some? && df.value.samples == [] {
        return Err(EmptyLoadedFile(i));
      }
      dataDict := Store(dataDict, df);
      i := i + 1;
    }
    r := Ok(dataDict);
  }
}
