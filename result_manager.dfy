/** The store of saved time-range analyses: the result record and the dict form
    it is exported and imported in, the session-backed list with its add /
    lookup / rename / delete / summary operations, and the label helpers. */
module ResultManager {
  import opened Wrappers
  import opened Numbers
  import opened Text
  import opened DateTimes
  import opened Collections

  /** One saved analysis (`TimeRangeAnalysisResult`). Only the numeric entries
      of `stats` and `battery_life` and the text entries of `metadata` are kept,
      and each other field has a single kind of value. */
  datatype AnalysisResult = AnalysisResult(
    id: string, labelText: string, filename: string, modeCn: string,
    startTime: real, endTime: real, duration: real,
    stats: map<string, real>, batteryLife: map<string, real>,
    timestamp: Timestamp, chartTheme: string, metadata: map<string, string>)

  function LabelOf(r: AnalysisResult): string { r.labelText }
  function ModeOf(r: AnalysisResult): string { r.modeCn }
  function FileOf(r: AnalysisResult): string { r.filename }
  function StartOf(r: AnalysisResult): real { r.startTime }
  function EndOf(r: AnalysisResult): real { r.endTime }

  // ---------------------------------------------------------------- dict form

  /** A value of the dict `to_dict` produces and `from_dict` consumes. */
  datatype Value =
    | Str(str: string)
    | Num(num: real)
    | Reals(reals: map<string, real>)
    | Texts(texts: map<string, string>)
    | Stamp(stamp: Timestamp)

  /** The dict `to_dict` produces and `from_dict` consumes: the entry under
      each of the dataclass's twelve field names, `None` where the key is
      absent, and the entries under any other key in `extra`. */
  datatype ResultDict = ResultDict(
    id: Option<Value>, labelText: Option<Value>, filename: Option<Value>, modeCn: Option<Value>,
    startTime: Option<Value>, endTime: Option<Value>, duration: Option<Value>,
    stats: Option<Value>, batteryLife: Option<Value>, timestamp: Option<Value>,
    chartTheme: Option<Value>, metadata: Option<Value>, extra: map<string, Value>)

  /** `to_dict`: every field under its own name, the timestamp as its ISO string. */
  function ToDict(r: AnalysisResult): ResultDict
  {
    ResultDict(Some(Str(r.id)), Some(Str(r.labelText)), Some(Str(r.filename)), Some(Str(r.modeCn)),
               Some(Num(r.startTime)), Some(Num(r.endTime)), Some(Num(r.duration)),
               Some(Reals(r.stats)), Some(Reals(r.batteryLife)), Some(Str(IsoFormat(r.timestamp))),
               Some(Str(r.chartTheme)), Some(Texts(r.metadata)), map[])
  }

  /** Why `from_dict` raised: no `timestamp` key (`KeyError`), a timestamp string
      `fromisoformat` rejects (`ValueError`), or keys or values the dataclass
      constructor does not take (`TypeError`). */
  datatype DictError = MissingTimestamp | BadTimestamp | FieldMismatch

  /** The dict holds exactly the dataclass's fields, each with a value of its kind. */
  predicate Fits(d: ResultDict)
  {
    && d.extra == map[]
    && d.id.Some? && d.id.value.Str? && d.labelText.Some? && d.labelText.value.Str?
    && d.filename.Some? && d.filename.value.Str? && d.modeCn.Some? && d.modeCn.value.Str?
    && d.startTime.Some? && d.startTime.value.Num? && d.endTime.Some? && d.endTime.value.Num?
    && d.duration.Some? && d.duration.value.Num?
    && d.stats.Some? && d.stats.value.Reals? && d.batteryLife.Some? && d.batteryLife.value.Reals?
    && d.timestamp.Some? && d.timestamp.value.Stamp?
    && d.chartTheme.Some? && d.chartTheme.value.Str? && d.metadata.Some? && d.metadata.value.Texts?
  }

  function FromFields(d: ResultDict): AnalysisResult
    requires Fits(d)
  {
    AnalysisResult(d.id.value.str, d.labelText.value.str, d.filename.value.str, d.modeCn.value.str,
                   d.startTime.value.num, d.endTime.value.num, d.duration.value.num,
                   d.stats.value.reals, d.batteryLife.value.reals, d.timestamp.value.stamp,
                   d.chartTheme.value.str, d.metadata.value.texts)
  }

  /** `from_dict`: a string timestamp is parsed first, then the dataclass is
      built from the (updated) dict. */
  function FromDict(d: ResultDict): (r: Result<AnalysisResult, DictError>)
    ensures r == Err(MissingTimestamp) <==> d.timestamp.None?
    ensures r.Ok? ==> d.extra == map[]
  {
    if d.timestamp.None? then Err(MissingTimestamp)
    else
      var ts := d.timestamp.value;
      if ts.Str? && FromIsoFormat(ts.str).None? then Err(BadTimestamp)
      else
        var parsed := d.(timestamp := Some(if ts.Str? then Stamp(FromIsoFormat(ts.str).value) else ts));
        if Fits(parsed) then Ok(FromFields(parsed)) else Err(FieldMismatch)
  }

  /** `from_dict(to_dict(r))` rebuilds every field of `r`. */
  lemma DictRoundTrip(r: AnalysisResult)
    ensures FromDict(ToDict(r)) == Ok(r)
  {
    IsoRoundTrip(r.timestamp);
    var parsed := ToDict(r).(timestamp := Some(Stamp(r.timestamp)));
    assert Fits(parsed) && FromFields(parsed) == r;
  }

  /** Conversely, a dict `from_dict` accepts is `to_dict` of the result, except
      that its timestamp may be the `datetime` itself or any string that parses
      to it. */
  lemma DictFromRoundTrip(d: ResultDict)
    requires FromDict(d).Ok?
    ensures var r := FromDict(d).value;
      && ToDict(r).(timestamp := d.timestamp) == d
      && (d.timestamp == Some(Stamp(r.timestamp))
          || (d.timestamp.value.Str? && FromIsoFormat(d.timestamp.value.str) == Some(r.timestamp)))
  {
  }

  // ------------------------------------------------------------- power info

  datatype PowerInfo = PowerInfo(avgPowerMW: real, maxPowerMW: real,
                                 avgCurrentMA: real, batteryHours: real)

  /** `get_power_info`: the figures a stats dict may carry, 0.0 where absent. */
  function GetPowerInfo(r: AnalysisResult): (p: PowerInfo)
    ensures p.avgPowerMW == (if "avg_power_mW" in r.stats then r.stats["avg_power_mW"] else 0.0)
    ensures p.maxPowerMW == (if "max_power_mW" in r.stats then r.stats["max_power_mW"] else 0.0)
    ensures p.avgCurrentMA == (if "avg_current_mA" in r.stats then r.stats["avg_current_mA"] else 0.0)
    ensures p.batteryHours == (if "hours" in r.batteryLife then r.batteryLife["hours"] else 0.0)
  {
    PowerInfo(GetOrZero(r.stats, "avg_power_mW"), GetOrZero(r.stats, "max_power_mW"),
              GetOrZero(r.stats, "avg_current_mA"), GetOrZero(r.batteryLife, "hours"))
  }

  /** `d.get(key, 0.0)`. */
  function GetOrZero(d: map<string, real>, key: string): real
  {
    if key in d then d[key] else 0.0
  }

  function AvgPower(r: AnalysisResult): real { GetPowerInfo(r).avgPowerMW }

  function AvgPowers(rs: seq<AnalysisResult>): seq<real> { MapSeq(rs, AvgPower) }

  // ---------------------------------------------------------- list queries

  /** Position of the first result carrying `id`, the one the `for` loops of
      lookup, rename and delete stop at. */
  function IndexOfId(rs: seq<AnalysisResult>, id: string): (k: Option<nat>)
    ensures k.Some? ==> k.value < |rs| && rs[k.value].id == id
    ensures k.Some? ==> forall j :: 0 <= j < k.value ==> rs[j].id != id
    ensures k.None? <==> forall j :: 0 <= j < |rs| ==> rs[j].id != id
  {
    if rs == [] then None
    else if rs[0].id == id then Some(0)
    else
      match IndexOfId(rs[1..], id)
      case None => None
      case Some(k) => Some(k + 1)
  }

  /** The label `add_result` gives a result when none is passed: "結果 n". */
  function DefaultLabel(n: nat): string
  {
    "結果 " + NatToString(n)
  }

  /** The default label depends on the count only: equal labels mean equal
      counts, so after a deletion a later default label repeats an earlier one. */
  lemma DefaultLabelInjective(n: nat, m: nat)
    requires DefaultLabel(n) == DefaultLabel(m)
    ensures n == m
  {
    assert DefaultLabel(n)[3..] == NatToString(n);
    assert DefaultLabel(m)[3..] == NatToString(m);
    NatToStringInjective(n, m);
  }

  datatype Range = Range(min: real, max: real)

  /** What `get_results_summary` reports. */
  datatype ResultsSummary = ResultsSummary(count: nat, modes: set<string>, files: set<string>,
                                           powerRange: Range, timeRange: Range)

  /** The summary of a store: zeros when empty, otherwise the distinct modes and
      files, the spread of average powers, the earliest start and latest end. */
  function Summary(rs: seq<AnalysisResult>): ResultsSummary
  {
    if rs == [] then ResultsSummary(0, {}, {}, Range(0.0, 0.0), Range(0.0, 0.0))
    else
      ResultsSummary(|rs|, Image(rs, ModeOf), Image(rs, FileOf),
                     Range(MinOf(AvgPowers(rs)), MaxOf(AvgPowers(rs))),
                     Range(MinOf(MapSeq(rs, StartOf)), MaxOf(MapSeq(rs, EndOf))))
  }

  /** The summary of a non-empty store counts every result and lists exactly
      the modes and files that occur. */
  lemma SummaryMembers(rs: seq<AnalysisResult>)
    requires rs != []
    ensures var s := Summary(rs);
      && s.count == |rs|
      && (forall m :: m in s.modes <==> exists i :: 0 <= i < |rs| && rs[i].modeCn == m)
      && (forall f :: f in s.files <==> exists i :: 0 <= i < |rs| && rs[i].filename == f)
  {
    ImageMembers(rs, ModeOf);
    ImageMembers(rs, FileOf);
  }

  /** The power range of a non-empty store's summary is ordered and bounds every
      result's average power; its time range covers every result's span. */
  lemma SummaryRanges(rs: seq<AnalysisResult>)
    requires rs != []
    ensures var s := Summary(rs);
      && s.powerRange.min <= s.powerRange.max
      && (forall i :: 0 <= i < |rs| ==> s.powerRange.min <= AvgPower(rs[i]) <= s.powerRange.max)
      && (forall i :: 0 <= i < |rs| ==> s.timeRange.min <= rs[i].startTime && rs[i].endTime <= s.timeRange.max)
  {
    var ps := AvgPowers(rs);
    assert ps[0] == AvgPower(rs[0]);
  }

  datatype ExportDoc = ExportDoc(exportTimestamp: string, resultCount: nat, results: seq<ResultDict>)

  /** The document `import_results_from_dict` reads: only its `results` entry matters. */
  datatype ImportDoc = ImportDoc(results: Option<seq<ResultDict>>)

  /** The results a list of dicts yields, in order, rows `from_dict` rejects skipped. */
  function Imported(rows: seq<ResultDict>): seq<AnalysisResult>
  {
    Decoded(rows, FromDict)
  }

  /** Importing an export gives back the exported results, all of them, in order. */
  lemma ImportExported(rs: seq<AnalysisResult>)
    ensures Imported(MapSeq(rs, ToDict)) == rs
  {
    forall r: AnalysisResult
      ensures FromDict(ToDict(r)) == Ok(r)
    {
      DictRoundTrip(r);
    }
    DecodeEncoded(rs, ToDict, FromDict);
  }

  /** Every imported result comes from a row: at most one per row, and one per
      row exactly when `from_dict` accepts every row. */
  lemma ImportedAtMostRows(rows: seq<ResultDict>)
    ensures |Imported(rows)| <= |rows|
    ensures |Imported(rows)| == |rows| <==> forall i :: 0 <= i < |rows| ==> FromDict(rows[i]).Ok?
  {
    DecodedAtMost(rows, FromDict);
  }

  /** One row of `get_comparison_data`'s table (the analysis time is kept as a
      timestamp rather than formatted). */
  datatype ComparisonRow = ComparisonRow(
    id: string, labelText: string, modeCn: string, filename: string,
    startTime: real, endTime: real, duration: real,
    avgPowerMW: real, maxPowerMW: real, avgCurrentMA: real, batteryHours: real,
    analysedAt: Timestamp)

  function RowOf(r: AnalysisResult): ComparisonRow
  {
    var p := GetPowerInfo(r);
    ComparisonRow(r.id, r.labelText, r.modeCn, r.filename, r.startTime, r.endTime, r.duration,
                  p.avgPowerMW, p.maxPowerMW, p.avgCurrentMA, p.batteryHours, r.timestamp)
  }

  datatype PowerStatistics = PowerStatistics(minPower: real, maxPower: real, avgPower: real,
                                             stdPower: real, powerRange: real)

  /** The list of results `st.session_state` holds under the manager's key. */
  class AnalysisResultManager {
    var results: seq<AnalysisResult>

    /** `_ensure_session_state`: an existing session list is kept, otherwise
        the store starts empty. */
    constructor(session: Option<seq<AnalysisResult>>)
      ensures results == session.GetOr([])
    {
      results := session.GetOr([]);
    }

    /** `add_result`, with the fresh id and the current time passed in. */
    method AddResult(id: string, now: Timestamp, filename: string, modeCn: string,
                     startTime: real, endTime: real,
                     stats: map<string, real>, batteryLife: map<string, real>,
                     chartTheme: string := "plotly_white", labelArg: Option<string> := None,
                     metadata: Option<map<string, string>> := None)
      returns (resultId: string)
      modifies this
      ensures resultId == id
      ensures results == old(results) + [AnalysisResult(
                id, labelArg.GetOr(DefaultLabel(|old(results)| + 1)), filename, modeCn,
                startTime, endTime, endTime - startTime, stats, batteryLife, now,
                chartTheme, metadata.GetOr(map[]))]
    {
      var l := if labelArg.Some? then labelArg.value else DefaultLabel(|results| + 1);
      var m := if metadata.Some? then metadata.value else map[];
      var r := AnalysisResult(id, l, filename, modeCn, startTime, endTime, endTime - startTime,
                              stats, batteryLife, now, chartTheme, m);
      results := results + [r];
      resultId := id;
    }

    /** `get_all_results`: a copy of the list. */
    function GetAllResults(): seq<AnalysisResult>
      reads this
    {
      results
    }

    /** `get_result_by_id`: the first result carrying `id`, or None. */
    method GetResultById(id: string) returns (r: Option<AnalysisResult>)
      ensures r.None? <==> forall j :: 0 <= j < |results| ==> results[j].id != id
      ensures r.Some? ==> r.value == results[IndexOfId(results, id).value]
    {
      for i := 0 to |results|
        invariant forall j :: 0 <= j < i ==> results[j].id != id
      {
        if results[i].id == id {
          return Some(results[i]);
        }
      }
      return None;
    }

    /** `get_result_by_index`: None unless the index is in range. */
    function GetResultByIndex(index: int): (r: Option<AnalysisResult>)
      reads this
      ensures r.Some? <==> 0 <= index < |results|
      ensures r.Some? ==> r.value == results[index]
    {
      if 0 <= index < |results| then Some(results[index]) else None
    }

    /** `update_result_label`: only the first result with `id` is renamed;
        the new label is not checked against the others. */
    method UpdateResultLabel(id: string, newLabel: string) returns (updated: bool)
      modifies this
      ensures updated <==> IndexOfId(old(results), id).Some?
      ensures updated ==> var k := IndexOfId(old(results), id).value;
                results == old(results)[k := old(results)[k].(labelText := newLabel)]
      ensures !updated ==> results == old(results)
    {
      for i := 0 to |results|
        invariant results == old(results)
        invariant forall j :: 0 <= j < i ==> results[j].id != id
      {
        if results[i].id == id {
          results := results[i := results[i].(labelText := newLabel)];
          return true;
        }
      }
      return false;
    }

    /** `delete_result`: the first result with `id` is removed, the rest keep
        their order. */
    method DeleteResult(id: string) returns (deleted: bool)
      modifies this
      ensures deleted <==> IndexOfId(old(results), id).Some?
      ensures deleted ==> var k := IndexOfId(old(results), id).value;
                results == old(results)[..k] + old(results)[k + 1..]
      ensures !deleted ==> results == old(results)
    {
      for i := 0 to |results|
        invariant results == old(results)
        invariant forall j :: 0 <= j < i ==> results[j].id != id
      {
        if results[i].id == id {
          results := results[..i] + results[i + 1..];
          return true;
        }
      }
      return false;
    }

    /** `delete_result_by_index`. */
    method DeleteResultByIndex(index: int) returns (deleted: bool)
      modifies this
      ensures deleted <==> 0 <= index < |old(results)|
      ensures deleted ==> results == old(results)[..index] + old(results)[index + 1..]
      ensures !deleted ==> results == old(results)
    {
      if 0 <= index < |results| {
        results := results[..index] + results[index + 1..];
        return true;
      }
      return false;
    }

    /** `clear_all_results`: reports how many results there were. */
    method ClearAllResults() returns (count: nat)
      modifies this
      ensures count == |old(results)|
      ensures results == []
    {
      count := |results|;
      results := [];
    }

    function GetResultCount(): nat
      reads this
    {
      |results|
    }

    /** `has_results` agrees with `get_result_count`. */
    function HasResults(): (b: bool)
      reads this
      ensures b <==> GetResultCount() > 0
    {
      |results| > 0
    }

    /** `get_results_summary`: the loop collects modes, files, powers, starts
        and ends. */
    method GetResultsSummary() returns (s: ResultsSummary)
      ensures s == Summary(results)
    {
      if results == [] {
        return ResultsSummary(0, {}, {}, Range(0.0, 0.0), Range(0.0, 0.0));
      }
      var modes: set<string> := {};
      var files: set<string> := {};
      var powers: seq<real> := [];
      var starts: seq<real> := [];
      var ends: seq<real> := [];
      for i := 0 to |results|
        invariant modes == Image(results[..i], ModeOf)
        invariant files == Image(results[..i], FileOf)
        invariant powers == AvgPowers(results[..i])
        invariant starts == MapSeq(results[..i], StartOf)
        invariant ends == MapSeq(results[..i], EndOf)
      {
        assert results[..i + 1][..i] == results[..i];
        modes := modes + {results[i].modeCn};
        files := files + {results[i].filename};
        powers := powers + [GetPowerInfo(results[i]).avgPowerMW];
        starts := starts + [results[i].startTime];
        ends := ends + [results[i].endTime];
      }
      assert results[..|results|] == results;
      s := ResultsSummary(|results|, modes, files, Range(MinOf(powers), MaxOf(powers)),
                          Range(MinOf(starts), MaxOf(ends)));
    }

    /** `export_results_to_dict`, stamped with the current time passed in. */
    function ExportResultsToDict(now: Timestamp): (e: ExportDoc)
      reads this
      ensures e.resultCount == |e.results| == |results|
      ensures Imported(e.results) == results
    {
      ImportExported(results);
      ExportDoc(IsoFormat(now), |results|, MapSeq(results, ToDict))
    }

    /** `import_results_from_dict`: rows `from_dict` rejects are skipped, the
        others appended in order and counted. */
    method ImportResultsFromDict(data: ImportDoc) returns (count: nat)
      modifies this
      ensures data.results.None? ==> count == 0 && results == old(results)
      ensures data.results.Some? ==>
                results == old(results) + Imported(data.results.value)
                && count == |Imported(data.results.value)|
    {
      if data.results.None? {
        return 0;
      }
      var rows := data.results.value;
      count := 0;
      for i := 0 to |rows|
        invariant results == old(results) + Imported(rows[..i])
        invariant count == |Imported(rows[..i])|
      {
        assert rows[..i + 1][..i] == rows[..i];
        var r := FromDict(rows[i]);
        if r.Ok? {
          results := results + [r.value];
          count := count + 1;
        }
      }
      assert rows[..|rows|] == rows;
    }

    /** `get_comparison_data`: one row per result, in store order. */
    method GetComparisonData() returns (rows: seq<ComparisonRow>)
      ensures |rows| == |results|
      ensures forall i :: 0 <= i < |results| ==> rows[i] == RowOf(results[i])
    {
      rows := [];
      for i := 0 to |results|
        invariant |rows| == i
        invariant forall j :: 0 <= j < i ==> rows[j] == RowOf(results[j])
      {
        rows := rows + [RowOf(results[i])];
      }
    }

    /** `find_results_by_mode`: the results of that mode, each as often as
        stored. */
    function FindResultsByMode(modeCn: string): (r: seq<AnalysisResult>)
      reads this
      ensures forall x :: x in r <==> x in results && x.modeCn == modeCn
      ensures forall x :: multiset(r)[x] == if x.modeCn == modeCn then multiset(results)[x] else 0
    {
      WhereCounts(results, x => ModeOf(x) == modeCn);
      Where(results, x => ModeOf(x) == modeCn)
    }

    /** `find_results_by_file`: the results of that file, each as often as
        stored. */
    function FindResultsByFile(filename: string): (r: seq<AnalysisResult>)
      reads this
      ensures forall x :: x in r <==> x in results && x.filename == filename
      ensures forall x :: multiset(r)[x] == if x.filename == filename then multiset(results)[x] else 0
    {
      WhereCounts(results, x => FileOf(x) == filename);
      Where(results, x => FileOf(x) == filename)
    }

    /** `get_power_statistics` over the results' average powers; `np.std` is
        passed in. */
    method GetPowerStatistics(std: seq<real> -> real) returns (p: Option<PowerStatistics>)
      ensures p.None? <==> results == []
      ensures p.Some? ==> var ps := AvgPowers(results);
                p.value == PowerStatistics(MinOf(ps), MaxOf(ps), Mean(ps), std(ps), MaxOf(ps) - MinOf(ps))
      ensures p.Some? ==> p.value.minPower <= p.value.avgPower <= p.value.maxPower
      ensures p.Some? ==> p.value.powerRange >= 0.0
    {
      if results == [] {
        return None;
      }
      var powers: seq<real> := [];
      for i := 0 to |results|
        invariant powers == AvgPowers(results[..i])
      {
        assert results[..i + 1][..i] == results[..i];
        powers := powers + [GetPowerInfo(results[i]).avgPowerMW];
      }
      assert results[..|results|] == results;
      MeanBetween(powers);
      p := Some(PowerStatistics(MinOf(powers), MaxOf(powers), Mean(powers), std(powers),
                                MaxOf(powers) - MinOf(powers)));
    }
  }

  // --------------------------------------------------------------- labels

  /** The verdicts of `validate_label`, with the messages it returns. */
  datatype LabelVerdict = LabelOk | EmptyLabel | LabelTooLong | DuplicateLabel
  {
    function Message(): string
    {
      match this
      case LabelOk => ""
      case EmptyLabel => "標籤不能為空"
      case LabelTooLong => "標籤長度不能超過50個字元"
      case DuplicateLabel => "標籤已存在，請使用不同的標籤"
    }
  }

  /** The candidate `get_unique_label` tries for counter `n`: "base (n)". */
  function Suffixed(base: string, n: nat): string
  {
    base + " (" + NatToString(n) + ")"
  }

  /** Different counters give different candidates. */
  lemma SuffixedInjective(base: string, n: nat, m: nat)
    requires Suffixed(base, n) == Suffixed(base, m)
    ensures n == m
  {
    var a, b := Suffixed(base, n), Suffixed(base, m);
    assert a[|base| + 2 .. |a| - 1] == NatToString(n);
    assert b[|base| + 2 .. |b| - 1] == NatToString(m);
    NatToStringInjective(n, m);
  }

  /** The duration class `generate_auto_label` names. */
  function TimeDescription(duration: real): (d: string)
    ensures d == "短時" <==> duration < 10.0
    ensures d == "長時" <==> duration >= 60.0
    ensures |d| == 2
  {
    if duration < 10.0 then "短時" else if duration < 60.0 then "中時" else "長時"
  }

  /** The length class of the first suggestion of `suggest_labels`. */
  function PhaseSuggestion(duration: real): string
  {
    if duration < 5.0 then "啟動階段"
    else if duration < 30.0 then "短期測試"
    else if duration < 300.0 then "標準測試"
    else "長期測試"
  }

  /** The power class of the second suggestion. */
  function PowerSuggestion(avgPowerMW: real): string
  {
    if avgPowerMW < 50.0 then "低功耗" else if avgPowerMW < 100.0 then "中功耗" else "高功耗"
  }

  /** The position class of the third suggestion. */
  function PositionSuggestion(startRatio: real): string
  {
    if startRatio < 0.1 then "開始段" else if startRatio > 0.8 then "結束段" else "中間段"
  }

  /** `result_manager.result_manager` as `ResultLabelManager` holds it. */
  class ResultLabelManager {
    const resultManager: AnalysisResultManager

    constructor(resultManager: AnalysisResultManager)
      ensures this.resultManager == resultManager
    {
      this.resultManager := resultManager;
    }

    /** The labels of the stored results, in store order. */
    function ExistingLabels(): seq<string>
      reads resultManager
    {
      MapSeq(resultManager.results, LabelOf)
    }

    /** `generate_auto_label`: mode, a dash, the duration class and the
        duration as `format_one_decimal` renders it (the `.1f` format). */
    function GenerateAutoLabel(r: AnalysisResult, formatOneDecimal: real -> string): (l: string)
      ensures |l| > |r.modeCn| + 3 && l[..|r.modeCn| + 1] == r.modeCn + "-"
      ensures |l| > |r.modeCn| + 3 && l[|r.modeCn| + 1 .. |r.modeCn| + 3] == TimeDescription(r.duration)
    {
      r.modeCn + "-" + TimeDescription(r.duration) + "(" + formatOneDecimal(r.duration) + "s)"
    }

    /** `suggest_labels`: three suggestions "mode-class". None stands for the
        `ZeroDivisionError` raised when the duration is positive but start plus
        duration is zero. */
    function SuggestLabels(r: AnalysisResult): (s: Option<seq<string>>)
      ensures s.None? <==> r.duration > 0.0 && r.startTime + r.duration == 0.0
      ensures s.Some? ==> |s.value| == 3
      ensures s.Some? ==> forall i :: 0 <= i < 3 ==> |s.value[i]| > |r.modeCn| + 1 && s.value[i][..|r.modeCn| + 1] == r.modeCn + "-"
    {
      if r.duration > 0.0 && r.startTime + r.duration == 0.0 then None
      else
        var ratio := if r.duration > 0.0 then r.startTime / (r.startTime + r.duration) else 0.0;
        Some([r.modeCn + "-" + PhaseSuggestion(r.duration),
              r.modeCn + "-" + PowerSuggestion(AvgPower(r)),
              r.modeCn + "-" + PositionSuggestion(ratio)])
    }

    /** `validate_label`: blank, then too long after stripping, then already a
        label of some stored result; the first failing check decides. */
    function ValidateLabel(candidate: string): (v: LabelVerdict)
      reads resultManager
      ensures v == EmptyLabel <==> forall i :: 0 <= i < |candidate| ==> IsSpace(candidate[i])
      ensures v == LabelTooLong <==> Strip(candidate) != [] && |Strip(candidate)| > 50
      ensures v == DuplicateLabel <==>
                Strip(candidate) != [] && |Strip(candidate)| <= 50
                && exists i :: 0 <= i < |resultManager.results| && resultManager.results[i].labelText == Strip(candidate)
      ensures v == LabelOk <==>
                Strip(candidate) != [] && |Strip(candidate)| <= 50
                && forall i :: 0 <= i < |resultManager.results| ==> resultManager.results[i].labelText != Strip(candidate)
    {
      StripEmptyIffBlank(candidate);
      var t := Strip(candidate);
      if candidate == [] || t == [] then EmptyLabel
      else if |t| > 50 then LabelTooLong
      else if t in ExistingLabels() then DuplicateLabel
      else LabelOk
    }

    /** `get_unique_label`: the base when no result carries it, otherwise
        "base (n)" for the smallest n >= 1 no result carries. */
    method GetUniqueLabel(base: string) returns (unique: string)
      ensures unique !in ExistingLabels()
      ensures base !in ExistingLabels() ==> unique == base
      ensures base in ExistingLabels() ==>
                exists n: nat :: n >= 1 && unique == Suffixed(base, n)
                  && forall k: nat :: 1 <= k < n ==> Suffixed(base, k) in ExistingLabels()
    {
      unique := UniqueAgainst(ExistingLabels(), base);
      UniqueLabelSpec(ExistingLabels(), base);
    }
  }

  /** The first counter from `n` on whose candidate "base (k)" is not taken.
      `unseen` holds the taken labels the search can still meet, which bounds it. */
  function FreeCounter(base: string, existing: seq<string>, n: nat, unseen: set<string>): (m: nat)
    requires forall k: nat :: k >= n && Suffixed(base, k) in existing ==> Suffixed(base, k) in unseen
    ensures m >= n && Suffixed(base, m) !in existing
    ensures forall k: nat :: n <= k < m ==> Suffixed(base, k) in existing
    decreases unseen
  {
    if Suffixed(base, n) !in existing then n
    else
      var taken := Suffixed(base, n);
      assert forall k: nat :: k >= n + 1 && Suffixed(base, k) in existing ==> Suffixed(base, k) in unseen - {taken} by {
        forall k: nat | k >= n + 1 && Suffixed(base, k) in existing
          ensures Suffixed(base, k) in unseen - {taken}
        {
          if Suffixed(base, k) == taken {
            SuffixedInjective(base, k, n);
          }
        }
      }
      FreeCounter(base, existing, n + 1, unseen - {taken})
  }

  /** The label the de-duplicating loops settle on against the labels `existing`. */
  function UniqueLabel(existing: seq<string>, base: string): string
  {
    if base !in existing then base
    else Suffixed(base, FreeCounter(base, existing, 1, set l | l in existing))
  }

  /** The settled label is free; it is the base when the base is free, and
      otherwise "base (n)" for the smallest free n >= 1. */
  lemma UniqueLabelSpec(existing: seq<string>, base: string)
    ensures UniqueLabel(existing, base) !in existing
    ensures base !in existing ==> UniqueLabel(existing, base) == base
    ensures base in existing ==>
              exists n: nat :: n >= 1 && UniqueLabel(existing, base) == Suffixed(base, n)
                && forall k: nat :: 1 <= k < n ==> Suffixed(base, k) in existing
  {
    if base in existing {
      var n := FreeCounter(base, existing, 1, set l | l in existing);
      assert UniqueLabel(existing, base) == Suffixed(base, n);
    }
  }

  /** The `while new_label in existing_labels` loop: try "base (1)", "base (2)",
      ... until one is not taken. */
  method UniqueAgainst(existing: seq<string>, base: string) returns (unique: string)
    ensures unique == UniqueLabel(existing, base)
  {
    if base !in existing {
      return base;
    }
    var counter: nat := 1;
    ghost var unseen := set l | l in existing;
    while Suffixed(base, counter) in existing
      invariant forall k: nat :: k >= counter && Suffixed(base, k) in existing ==> Suffixed(base, k) in unseen
      invariant FreeCounter(base, existing, counter, unseen) == FreeCounter(base, existing, 1, set l | l in existing)
      decreases unseen
    {
      var taken := Suffixed(base, counter);
      forall k: nat | k >= counter + 1 && Suffixed(base, k) in existing
        ensures Suffixed(base, k) in unseen - {taken}
      {
        if Suffixed(base, k) == taken {
          SuffixedInjective(base, k, counter);
        }
      }
      unseen := unseen - {taken};
      counter := counter + 1;
    }
    unique := Suffixed(base, counter);
  }

  /** Where the start sits in the recorded range decides the third suggestion:
      for a non-negative start and a positive duration it is the start class
      exactly when the start is below a ninth of the duration, and the end
      class exactly when it is beyond four durations. */
  lemma PositionByStart(m: ResultLabelManager, r: AnalysisResult)
    requires r.startTime >= 0.0 && r.duration > 0.0
    ensures m.SuggestLabels(r).Some?
    ensures m.SuggestLabels(r).value[2] == r.modeCn + "-開始段" <==> 9.0 * r.startTime < r.duration
    ensures m.SuggestLabels(r).value[2] == r.modeCn + "-結束段" <==> r.startTime > 4.0 * r.duration
  {
    var s, d := r.startTime, r.duration;
    var ratio := s / (s + d);
    assert ratio * (s + d) == s;
    RatioBelow(s, s + d, ratio, 0.1);
    RatioAbove(s, s + d, ratio, 0.8);
    var l := m.SuggestLabels(r).value[2];
    assert l == r.modeCn + "-" + PositionSuggestion(ratio);
    assert l[|r.modeCn| + 1..] == PositionSuggestion(ratio);
    assert (r.modeCn + "-開始段")[|r.modeCn| + 1..] == "開始段";
    assert (r.modeCn + "-結束段")[|r.modeCn| + 1..] == "結束段";
  }

  /** Scaling by the positive whole `t` turns the ratio thresholds into
      thresholds on the part `s`. */
  lemma RatioBelow(s: real, t: real, ratio: real, bound: real)
    requires t > 0.0 && ratio * t == s
    ensures ratio < bound <==> s < bound * t
  {
    if ratio < bound { MulMonotone(ratio, bound, t); } else { MulMonotone(bound, ratio, t); }
  }

  lemma RatioAbove(s: real, t: real, ratio: real, bound: real)
    requires t > 0.0 && ratio * t == s
    ensures ratio > bound <==> s > bound * t
  {
    if ratio > bound { MulMonotone(bound, ratio, t); } else { MulMonotone(ratio, bound, t); }
  }

  lemma MulMonotone(a: real, b: real, c: real)
    requires c > 0.0
    ensures a < b ==> a * c < b * c
    ensures a <= b ==> a * c <= b * c
  {
    if a < b {
      assert (b - a) * c > 0.0;
    }
  }
}
