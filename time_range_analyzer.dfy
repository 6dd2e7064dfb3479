// Time-range analysis of one measurement series: cleaning, range metadata,
// range validation, inclusive filtering and preview statistics.
// The analyzer's state (the cleaned table and its metadata) is written once
// when it is built and never changed afterwards, so it is modelled as a value.

module TimeRangeAnalysis {
  import opened Wrappers
  import opened Numbers
  import opened Tables
  import EH = ErrorHandling

  type RangeVerdict = EH.RangeVerdict

  /** A row as read: `time` is `None` for a missing or non-numeric cell; the
      other measurement columns may be missing too. */
  datatype RawRow = RawRow(time: Option<real>, voltage: Option<real>, current: Option<real>, power: Option<real>)

  /** The input table: its column names and its rows. */
  datatype Frame = Frame(columns: seq<string>, rows: seq<RawRow>)

  /** A row whose time is known. */
  datatype Row = Row(time: real, voltage: Option<real>, current: Option<real>, power: Option<real>)

  function TimeOf(x: Row): real { x.time }

  /** The raw row a cleaned row came from. */
  function RawOf(x: Row): RawRow
  {
    RawRow(Some(x.time), x.voltage, x.current, x.power)
  }

  /** The metadata computed once after cleaning; `timeResolution` is `None`
      where the source averages an empty array (a NaN). */
  datatype TimeRangeInfo = TimeRangeInfo(
    minTime: real, maxTime: real, totalDuration: real, dataPoints: nat, timeResolution: Option<real>)

  /** A built analyzer: the input's columns, the cleaned table and its metadata. */
  datatype Series = Series(columns: seq<string>, df: seq<Row>, info: TimeRangeInfo)

  datatype InitError = EmptyFrame | MissingTimeColumn | EmptyAfterCleaning

  /** Why a range was refused by filtering or by the preview statistics. */
  datatype RangeError = InvalidRange(verdict: RangeVerdict) | NoDataInRange

  // ---------------------------------------------------------------- cleaning

  /** `dropna(subset=['Time'])`: keeps the rows whose time is known. */
  function DropMissingTime(raw: seq<RawRow>): (r: seq<Row>)
    ensures |r| <= |raw|
    ensures forall x :: x in r <==> RawOf(x) in raw
  {
    if raw == [] then []
    else
      var rest := DropMissingTime(raw[1..]);
      assert raw == [raw[0]] + raw[1..];
      var x := raw[0];
      if x.time.Some? then
        assert RawOf(Row(x.time.value, x.voltage, x.current, x.power)) == x;
        [Row(x.time.value, x.voltage, x.current, x.power)] + rest
      else rest
  }

  /** `df[df['Time'] >= 0]`: drops negative times. */
  function DropNegativeTime(rows: seq<Row>): (r: seq<Row>)
    ensures |r| <= |rows|
    ensures forall x :: x in r <==> x in rows && x.time >= 0.0
  {
    if rows == [] then []
    else
      var rest := DropNegativeTime(rows[1..]);
      assert rows == [rows[0]] + rows[1..];
      if rows[0].time >= 0.0 then [rows[0]] + rest else rest
  }

  /** The rows the cleaning keeps, in input order. */
  function Admitted(raw: seq<RawRow>): seq<Row>
  {
    DropNegativeTime(DropMissingTime(raw))
  }

  /** `_clean_time_data`: drop missing times, drop negative times, sort by time. */
  function CleanTimeData(raw: seq<RawRow>): seq<Row>
  {
    SortBy(Admitted(raw), TimeOf)
  }

  /** The cleaned table is sorted, every time in it is non-negative, it holds exactly
      the admitted rows with their multiplicities, and a row is in it iff it came
      from an input row with a known, non-negative time. */
  lemma CleanTimeDataSpec(raw: seq<RawRow>)
    ensures SortedBy(CleanTimeData(raw), TimeOf)
    ensures multiset(CleanTimeData(raw)) == multiset(Admitted(raw))
    ensures forall x :: x in CleanTimeData(raw) <==> x.time >= 0.0 && RawOf(x) in raw
    ensures forall i :: 0 <= i < |CleanTimeData(raw)| ==> CleanTimeData(raw)[i].time >= 0.0
  {
    SortBySpec(Admitted(raw), TimeOf);
    var c := CleanTimeData(raw);
    forall x
      ensures x in c <==> x in Admitted(raw)
    {
      assert x in c <==> x in multiset(c);
      assert x in Admitted(raw) <==> x in multiset(Admitted(raw));
    }
    forall i | 0 <= i < |c|
      ensures c[i].time >= 0.0
    {
      assert c[i] in c;
    }
  }

  /** Cleaning leaves nothing exactly when no input row has a known, non-negative time. */
  lemma CleanedEmptyIff(raw: seq<RawRow>)
    ensures CleanTimeData(raw) == [] <==>
      forall i :: 0 <= i < |raw| ==> raw[i].time.None? || raw[i].time.value < 0.0
  {
    CleanTimeDataSpec(raw);
    var c := CleanTimeData(raw);
    if c != [] {
      assert c[0] in c;
      var k :| 0 <= k < |raw| && raw[k] == RawOf(c[0]);
    }
    if exists i :: 0 <= i < |raw| && raw[i].time.Some? && raw[i].time.value >= 0.0 {
      var i :| 0 <= i < |raw| && raw[i].time.Some? && raw[i].time.value >= 0.0;
      var x := Row(raw[i].time.value, raw[i].voltage, raw[i].current, raw[i].power);
      assert RawOf(x) == raw[i];
      assert x in c;
    }
  }

  // ---------------------------------------------------------------- metadata

  function Times(df: seq<Row>): (ts: seq<real>)
    ensures |ts| == |df|
    ensures forall i :: 0 <= i < |df| ==> ts[i] == df[i].time
  {
    if df == [] then [] else [df[0].time] + Times(df[1..])
  }

  ghost predicate Ascending(ts: seq<real>)
  {
    forall i, j :: 0 <= i < j < |ts| ==> ts[i] <= ts[j]
  }

  /** The strictly positive steps between consecutive times, in order. */
  function PositiveGaps(ts: seq<real>): (g: seq<real>)
    ensures |g| <= if |ts| == 0 then 0 else |ts| - 1
    ensures forall k :: 0 <= k < |g| ==> g[k] > 0.0
  {
    if |ts| <= 1 then []
    else
      var d := ts[|ts| - 1] - ts[|ts| - 2];
      PositiveGaps(ts[..|ts| - 1]) + (if d > 0.0 then [d] else [])
  }

  /** `time_resolution`: 0 for one row, otherwise the mean of the positive gaps,
      `None` when there is none. */
  function Resolution(ts: seq<real>): Option<real>
  {
    if |ts| > 1 then
      var g := PositiveGaps(ts);
      if g == [] then None else Some(Mean(g))
    else Some(0.0)
  }

  /** `_calculate_time_range_info`. */
  function CalculateTimeRangeInfo(df: seq<Row>): (info: TimeRangeInfo)
    requires df != []
    ensures info.minTime <= info.maxTime
    ensures info.totalDuration == info.maxTime - info.minTime >= 0.0
    ensures info.dataPoints == |df|
    ensures info.minTime in Times(df) && info.maxTime in Times(df)
    ensures forall i :: 0 <= i < |df| ==> info.minTime <= df[i].time <= info.maxTime
  {
    var ts := Times(df);
    var lo := MinOf(ts);
    var hi := MaxOf(ts);
    TimeRangeInfo(lo, hi, hi - lo, |df|, Resolution(ts))
  }

  /** What the analyzer holds after a successful build. */
  ghost predicate WellFormed(s: Series)
  {
    s.df != [] && SortedBy(s.df, TimeOf) &&
    (forall i :: 0 <= i < |s.df| ==> s.df[i].time >= 0.0) &&
    s.info == CalculateTimeRangeInfo(s.df)
  }

  /** `TimeRangeAnalyzer.__init__`: refuses a missing or empty table, a table
      without a `Time` column, and a table that cleaning empties, in that order. */
  function Build(frame: Option<Frame>): (r: Result<Series, InitError>)
    ensures r == Err(EmptyFrame) <==> frame.None? || frame.value.columns == [] || frame.value.rows == []
    ensures r == Err(MissingTimeColumn) <==>
      frame.Some? && frame.value.columns != [] && frame.value.rows != [] && "Time" !in frame.value.columns
    ensures r == Err(EmptyAfterCleaning) <==>
      frame.Some? && frame.value.columns != [] && frame.value.rows != [] && "Time" in frame.value.columns &&
      forall i :: 0 <= i < |frame.value.rows| ==>
        frame.value.rows[i].time.None? || frame.value.rows[i].time.value < 0.0
    ensures r.Ok? ==> WellFormed(r.value) && r.value.columns == frame.value.columns
    ensures r.Ok? ==> forall x :: x in r.value.df <==> x.time >= 0.0 && RawOf(x) in frame.value.rows
  {
    if frame.None? || frame.value.columns == [] || frame.value.rows == [] then Err(EmptyFrame)
    else if "Time" !in frame.value.columns then Err(MissingTimeColumn)
    else
      var df := CleanTimeData(frame.value.rows);
      CleanedEmptyIff(frame.value.rows);
      CleanTimeDataSpec(frame.value.rows);
      if df == [] then Err(EmptyAfterCleaning)
      else Ok(Series(frame.value.columns, df, CalculateTimeRangeInfo(df)))
  }

  // ------------------------------------------------- resolution and duration

  lemma SortedTimes(df: seq<Row>)
    requires SortedBy(df, TimeOf)
    ensures Ascending(Times(df))
  {
    var ts := Times(df);
    forall i, j | 0 <= i < j < |ts|
      ensures ts[i] <= ts[j]
    {
      assert TimeOf(df[i]) <= TimeOf(df[j]);
    }
  }

  /** For an ascending series the positive gaps add up to last minus first. */
  lemma {:induction false} GapSum(ts: seq<real>)
    requires ts != [] && Ascending(ts)
    ensures Sum(PositiveGaps(ts)) == ts[|ts| - 1] - ts[0]
  {
    if |ts| > 1 {
      var init := ts[..|ts| - 1];
      assert Ascending(init);
      GapSum(init);
      var d := ts[|ts| - 1] - ts[|ts| - 2];
      assert ts[|ts| - 2] <= ts[|ts| - 1];
      var g := PositiveGaps(init);
      if d > 0.0 {
        assert (g + [d])[..|g|] == g;
      } else {
        assert g + [] == g;
      }
    }
  }

  /** For a sorted table the minimum and maximum are its first and last times. */
  lemma EndsOfSorted(df: seq<Row>)
    requires df != [] && SortedBy(df, TimeOf)
    ensures CalculateTimeRangeInfo(df).minTime == df[0].time
    ensures CalculateTimeRangeInfo(df).maxTime == df[|df| - 1].time
  {
    var info := CalculateTimeRangeInfo(df);
    assert TimeOf(df[0]) <= TimeOf(df[|df| - 1]);
  }

  /** Number of strictly positive steps in the cleaned table. */
  function PositiveGapCount(s: Series): nat
  {
    |PositiveGaps(Times(s.df))|
  }

  /** The positive steps of the cleaned table add up to its total duration. */
  lemma GapsAddUpToDuration(s: Series)
    requires WellFormed(s)
    ensures Sum(PositiveGaps(Times(s.df))) == s.info.totalDuration
  {
    SortedTimes(s.df);
    GapSum(Times(s.df));
    EndsOfSorted(s.df);
  }

  /** The resolution is missing (a NaN) exactly when a multi-row column has no
      positive gap, and it is the positive mean of the gaps whenever there is one. */
  lemma ResolutionDefined(ts: seq<real>)
    ensures Resolution(ts).None? <==> |ts| > 1 && |PositiveGaps(ts)| == 0
    ensures |PositiveGaps(ts)| > 0 ==> Resolution(ts) == Some(Mean(PositiveGaps(ts))) && Resolution(ts).value > 0.0
    ensures |ts| <= 1 ==> Resolution(ts) == Some(0.0)
  {
    var g := PositiveGaps(ts);
    if g != [] {
      MeanPositive(g);
    }
  }

  /** With `total` what the positive gaps add up to, the resolution is `total`
      shared out over the positive gaps, so `total == resolution * #gaps`
      (`QuotientTimes`); with no positive gap the total is 0. */
  lemma ResolutionPerGap(ts: seq<real>, total: real)
    requires Sum(PositiveGaps(ts)) == total
    ensures |PositiveGaps(ts)| > 0 ==> Resolution(ts) == Some(total / |PositiveGaps(ts)| as real)
    ensures |PositiveGaps(ts)| == 0 ==> total == 0.0
  {
  }

  /** A quotient times its divisor gives back the dividend. */
  lemma QuotientTimes(total: real, n: real)
    requires n != 0.0
    ensures total / n * n == total
  {
  }

  /** A positive total shared out over `n` steps reaches two steps exactly when `n >= 2`. */
  lemma TwoStepsIff(total: real, n: nat)
    requires n > 0 && total > 0.0
    ensures !(total < total / n as real * 2.0) <==> n >= 2
  {
    var r := total / n as real;
    QuotientTimes(total, n as real);
    if n >= 2 {
      assert total - r * 2.0 == r * (n as real - 2.0);
    } else {
      assert n as real == 1.0;
    }
  }

  // -------------------------------------------------------------- validation

  /** The span a range must reach: twice the resolution; nothing when the
      resolution is a NaN, since every comparison with it is false. */
  predicate ShorterThanTwoSteps(info: TimeRangeInfo, start: real, end: real)
  {
    info.timeResolution.Some? && end - start < info.timeResolution.value * 2.0
  }

  /** `validate_time_range`: order, lower bound, upper bound, then twice the
      resolution; the first failing check decides. */
  function ValidateRange(s: Series, start: real, end: real): (v: RangeVerdict)
    ensures v == EH.RangeOk <==>
      start < end && s.info.minTime <= start && end <= s.info.maxTime && !ShorterThanTwoSteps(s.info, start, end)
    ensures v == EH.StartNotBeforeEnd <==> start >= end
    ensures v == EH.StartBeforeData <==> start < end && start < s.info.minTime
    ensures v == EH.EndAfterData <==> start < end && s.info.minTime <= start && end > s.info.maxTime
    ensures v == EH.RangeTooShort <==>
      start < end && s.info.minTime <= start && end <= s.info.maxTime && ShorterThanTwoSteps(s.info, start, end)
  {
    if start >= end then EH.StartNotBeforeEnd
    else if start < s.info.minTime then EH.StartBeforeData
    else if end > s.info.maxTime then EH.EndAfterData
    else if ShorterThanTwoSteps(s.info, start, end) then EH.RangeTooShort
    else EH.RangeOk
  }

  /** The whole recorded range passes validation exactly when the cleaned table
      has at least two strictly positive steps. */
  lemma FullRangeValidIff(s: Series)
    requires WellFormed(s)
    ensures ValidateRange(s, s.info.minTime, s.info.maxTime) == EH.RangeOk <==> PositiveGapCount(s) >= 2
  {
    GapsAddUpToDuration(s);
    TwoGapsIff(Times(s.df), s.info.totalDuration);
  }

  /** On the time column: a positive total that reaches twice the resolution
      means at least two positive gaps, and conversely. */
  lemma TwoGapsIff(ts: seq<real>, total: real)
    requires Sum(PositiveGaps(ts)) == total
    ensures (total > 0.0 && !(Resolution(ts).Some? && total < Resolution(ts).value * 2.0)) <==>
      |PositiveGaps(ts)| >= 2
  {
    var g := PositiveGaps(ts);
    ResolutionPerGap(ts, total);
    if g != [] {
      SumPositive(g);
      TwoStepsIff(total, |g|);
    }
  }


  /** Both validators agree on the three bound checks and differ only in the
      minimum span: the analyzer asks for two steps, the input validator for one millisecond. */
  lemma AgreesWithInputValidator(s: Series, start: real, end: real)
    ensures var v := ValidateRange(s, start, end);
      var w := EH.ValidateTimeRange(start, end, s.info.minTime, s.info.maxTime);
      (v == EH.StartNotBeforeEnd || v == EH.StartBeforeData || v == EH.EndAfterData) ==> v == w
    ensures var v := ValidateRange(s, start, end);
      var w := EH.ValidateTimeRange(start, end, s.info.minTime, s.info.maxTime);
      (w == EH.StartNotBeforeEnd || w == EH.StartBeforeData || w == EH.EndAfterData) ==> v == w
  {
  }

  // --------------------------------------------------------------- filtering

  predicate InRange(x: Row, start: real, end: real)
  {
    start <= x.time <= end
  }

  /** The boolean mask `start <= Time <= end`, order kept. */
  function Select(df: seq<Row>, start: real, end: real): (r: seq<Row>)
    ensures |r| <= |df|
  {
    if df == [] then []
    else if InRange(df[0], start, end) then [df[0]] + Select(df[1..], start, end)
    else Select(df[1..], start, end)
  }

  /** The mask keeps every row in range as often as it occurs, and no other row. */
  lemma {:induction false} SelectCounts(df: seq<Row>, start: real, end: real)
    ensures forall x :: multiset(Select(df, start, end))[x] == if InRange(x, start, end) then multiset(df)[x] else 0
  {
    if df != [] {
      var rest := Select(df[1..], start, end);
      SelectCounts(df[1..], start, end);
      assert df == [df[0]] + df[1..];
      assert multiset(df) == multiset{df[0]} + multiset(df[1..]);
      if InRange(df[0], start, end) {
        assert multiset([df[0]] + rest) == multiset{df[0]} + multiset(rest);
      }
    }
  }

  /** Filtering a sorted table keeps it sorted. */
  lemma {:induction false} SelectSorted(df: seq<Row>, start: real, end: real)
    requires SortedBy(df, TimeOf)
    ensures SortedBy(Select(df, start, end), TimeOf)
  {
    if df != [] {
      var tail := df[1..];
      assert SortedBy(tail, TimeOf);
      SelectSorted(tail, start, end);
      forall i | 0 <= i < |tail|
        ensures df[0].time <= tail[i].time
      {
        assert TimeOf(df[0]) <= TimeOf(df[i + 1]);
      }
      var rest := Select(tail, start, end);
      SelectAbove(tail, start, end, df[0].time);
      if InRange(df[0], start, end) {
        var r := [df[0]] + rest;
        assert Select(df, start, end) == r;
        forall i, j | 0 <= i < j < |r|
          ensures TimeOf(r[i]) <= TimeOf(r[j])
        {
          assert r[j] == rest[j - 1];
          if i > 0 {
            assert r[i] == rest[i - 1];
          }
        }
      } else {
        assert Select(df, start, end) == rest;
      }
    }
  }

  /** A lower bound on every time of a table bounds the times it selects. */
  lemma {:induction false} SelectAbove(df: seq<Row>, start: real, end: real, lo: real)
    requires forall i :: 0 <= i < |df| ==> lo <= df[i].time
    ensures forall k :: 0 <= k < |Select(df, start, end)| ==> lo <= Select(df, start, end)[k].time
  {
    if df != [] {
      SelectAbove(df[1..], start, end, lo);
    }
  }

  /** `filter_by_time_range`: the validator's refusal, or `NoDataInRange` when a
      valid range holds no row, or exactly the rows in `[start, end]`, sorted. */
  function FilterByTimeRange(s: Series, start: real, end: real): (r: Result<seq<Row>, RangeError>)
    requires WellFormed(s)
    ensures r.Err? && r.error.InvalidRange? <==> ValidateRange(s, start, end) != EH.RangeOk
    ensures r.Err? && r.error.InvalidRange? ==> r.error.verdict == ValidateRange(s, start, end)
    ensures r == Err(NoDataInRange) <==>
      ValidateRange(s, start, end) == EH.RangeOk && forall i :: 0 <= i < |s.df| ==> !InRange(s.df[i], start, end)
    ensures r.Ok? ==> r.value != [] && |r.value| <= |s.df| && SortedBy(r.value, TimeOf)
    ensures r.Ok? ==> forall x :: multiset(r.value)[x] == if InRange(x, start, end) then multiset(s.df)[x] else 0
  {
    var v := ValidateRange(s, start, end);
    if v != EH.RangeOk then Err(InvalidRange(v))
    else
      var sel := Select(s.df, start, end);
      SelectCounts(s.df, start, end);
      SelectEmptyIff(s.df, start, end);
      SelectSorted(s.df, start, end);
      if sel == [] then Err(NoDataInRange) else Ok(sel)
  }

  lemma SelectEmptyIff(df: seq<Row>, start: real, end: real)
    ensures Select(df, start, end) == [] <==> forall i :: 0 <= i < |df| ==> !InRange(df[i], start, end)
  {
    var sel := Select(df, start, end);
    SelectCounts(df, start, end);
    if sel != [] {
      assert multiset(sel)[sel[0]] > 0;
      assert sel[0] in multiset(df);
    }
    if exists i :: 0 <= i < |df| && InRange(df[i], start, end) {
      var i :| 0 <= i < |df| && InRange(df[i], start, end);
      assert multiset(df)[df[i]] > 0;
      assert multiset(sel)[df[i]] > 0;
    }
  }

  // ------------------------------------------------------- preview statistics

  /** Mean, maximum and minimum of one column. */
  datatype ColumnStats = ColumnStats(mean: real, max: real, min: real)

  /** A column reported both in its SI unit and in thousandths (mW, mA). */
  datatype ScaledStats = ScaledStats(si: ColumnStats, milli: ColumnStats)

  datatype PreviewStats = PreviewStats(
    startTime: real, endTime: real, duration: real,
    dataPoints: nat, totalDataPoints: nat, dataPercentage: real,
    power: Option<ScaledStats>, voltage: Option<ColumnStats>, current: Option<ScaledStats>)

  datatype Column = PowerColumn | VoltageColumn | CurrentColumn

  function ColumnName(c: Column): string
  {
    match c
    case PowerColumn => "Power"
    case VoltageColumn => "Voltage"
    case CurrentColumn => "Current"
  }

  function Cell(x: Row, c: Column): Option<real>
  {
    match c
    case PowerColumn => x.power
    case VoltageColumn => x.voltage
    case CurrentColumn => x.current
  }

  /** `filtered_df[c].dropna()`: the known values of one column, in row order. */
  function ColumnValues(rows: seq<Row>, c: Column): (vs: seq<real>)
    ensures |vs| <= |rows|
    ensures vs == [] <==> forall i :: 0 <= i < |rows| ==> Cell(rows[i], c).None?
  {
    if rows == [] then []
    else
      var rest := ColumnValues(rows[1..], c);
      assert forall i :: 1 <= i < |rows| ==> rows[i] == rows[1..][i - 1];
      match Cell(rows[0], c)
      case Some(v) => [v] + rest
      case None => rest
  }

  /** Mean, maximum and minimum of a non-empty column; the mean lies between the other two. */
  function Summarize(vs: seq<real>): (c: ColumnStats)
    requires vs != []
    ensures c.min <= c.mean <= c.max
    ensures c.min in vs && c.max in vs
    ensures forall i :: 0 <= i < |vs| ==> c.min <= vs[i] <= c.max
  {
    MeanBetween(vs);
    ColumnStats(Mean(vs), MaxOf(vs), MinOf(vs))
  }

  /** The SI figures together with the same figures times 1000. */
  function Scaled(c: ColumnStats): (s: ScaledStats)
    ensures s.si == c
    ensures s.milli.mean == c.mean * 1000.0 && s.milli.max == c.max * 1000.0 && s.milli.min == c.min * 1000.0
  {
    ScaledStats(c, ColumnStats(c.mean * 1000.0, c.max * 1000.0, c.min * 1000.0))
  }

  /** Statistics of a column, present when the column exists and has a known value. */
  function ColumnSummary(columns: seq<string>, rows: seq<Row>, c: Column): (r: Option<ColumnStats>)
    ensures r.Some? <==> ColumnName(c) in columns && exists i :: 0 <= i < |rows| && Cell(rows[i], c).Some?
    ensures r.Some? ==> r.value == Summarize(ColumnValues(rows, c))
  {
    var vs := ColumnValues(rows, c);
    if ColumnName(c) in columns && vs != [] then Some(Summarize(vs)) else None
  }

  function ScaledSummary(columns: seq<string>, rows: seq<Row>, c: Column): Option<ScaledStats>
  {
    match ColumnSummary(columns, rows, c)
    case Some(cs) => Some(Scaled(cs))
    case None => None
  }

  /** The preview record of a non-empty selection `rows` taken from a table of
      `total` rows: the requested span, both counts, the percentage, and the
      power, voltage and current figures with their thousandths. */
  function PreviewOf(columns: seq<string>, total: nat, rows: seq<Row>, start: real, end: real): (p: PreviewStats)
    requires 0 < |rows| <= total
    ensures p.startTime == start && p.endTime == end && p.duration == end - start
    ensures p.dataPoints == |rows| && p.totalDataPoints == total
    ensures p.dataPercentage == Percentage(|rows|, total)
    ensures p.power.Some? <==> "Power" in columns && exists i :: 0 <= i < |rows| && rows[i].power.Some?
    ensures p.voltage.Some? <==> "Voltage" in columns && exists i :: 0 <= i < |rows| && rows[i].voltage.Some?
    ensures p.current.Some? <==> "Current" in columns && exists i :: 0 <= i < |rows| && rows[i].current.Some?
    ensures p.power.Some? ==>
      var w := p.power.value;
      w.milli.mean == w.si.mean * 1000.0 && w.milli.max == w.si.max * 1000.0 && w.milli.min == w.si.min * 1000.0 &&
      w.si.min <= w.si.mean <= w.si.max
    ensures p.current.Some? ==>
      var a := p.current.value;
      a.milli.mean == a.si.mean * 1000.0 && a.milli.max == a.si.max * 1000.0 && a.milli.min == a.si.min * 1000.0 &&
      a.si.min <= a.si.mean <= a.si.max
    ensures p.voltage.Some? ==> p.voltage.value.min <= p.voltage.value.mean <= p.voltage.value.max
  {
    PreviewStats(
      start, end, end - start, |rows|, total, Percentage(|rows|, total),
      ScaledSummary(columns, rows, PowerColumn),
      ColumnSummary(columns, rows, VoltageColumn),
      ScaledSummary(columns, rows, CurrentColumn))
  }

  /** `get_preview_stats`: the filter's refusal, unchanged, or the preview record
      of the rows the filter returns. */
  function GetPreviewStats(s: Series, start: real, end: real): (r: Result<PreviewStats, RangeError>)
    requires WellFormed(s)
    ensures r.Err? <==> FilterByTimeRange(s, start, end).Err?
    ensures r.Err? ==> r.error == FilterByTimeRange(s, start, end).error
    ensures r.Ok? ==> start < end
    ensures r.Ok? ==> r.value == PreviewOf(s.columns, |s.df|, FilterByTimeRange(s, start, end).value, start, end)
  {
    match FilterByTimeRange(s, start, end)
    case Err(e) => Err(e)
    case Ok(rows) =>
      Ok(PreviewOf(s.columns, |s.df|, rows, start, end))
  }

  /** `len(filtered) / len(total) * 100` for a non-empty selection of a table. */
  function Percentage(n: nat, total: nat): (p: real)
    requires 0 < n <= total
    ensures 0.0 < p <= 100.0
    ensures p * total as real == n as real * 100.0
  {
    var q := n as real / total as real;
    DivideBounds(n as real, total as real, 0.0, 1.0);
    assert q * total as real == n as real;
    q * 100.0
  }
}
