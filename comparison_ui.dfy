/** The computations behind the comparison views: filtering the stored results,
    the statistical summary and the recommendations over a list of ids, and the
    0-100 scaling of the radar chart. Each view holds only the result manager. */
module ComparisonUI {
  import opened Wrappers
  import opened Numbers
  import opened Collections
  import opened ResultManager

  // ------------------------------------------------------------ id lookups

  /** `get_result_by_id` as a value: the first result carrying `id`. */
  function Lookup(rs: seq<AnalysisResult>, id: string): Option<AnalysisResult>
  {
    match IndexOfId(rs, id)
    case None => None
    case Some(k) => Some(rs[k])
  }

  /** The results the ids name, in id order, the unknown ids skipped: what the
      `for result_id in result_ids: ... if result:` loops visit. */
  function Found(rs: seq<AnalysisResult>, ids: seq<string>): seq<AnalysisResult>
  {
    if ids == [] then []
    else
      Found(rs, ids[..|ids| - 1]) +
        match Lookup(rs, ids[|ids| - 1])
        case Some(r) => [r]
        case None => []
  }

  /** At most one result per id, and none exactly when no id is known. */
  lemma {:induction false} FoundLength(rs: seq<AnalysisResult>, ids: seq<string>)
    ensures |Found(rs, ids)| <= |ids|
    ensures Found(rs, ids) == [] <==> forall i :: 0 <= i < |ids| ==> Lookup(rs, ids[i]).None?
  {
    if ids != [] {
      var n := |ids| - 1;
      FoundLength(rs, ids[..n]);
      assert forall i :: 0 <= i < n ==> ids[..n][i] == ids[i];
    }
  }

  /** What `get_result_by_id` promises pins down the lookup. */
  lemma LookupAgrees(rs: seq<AnalysisResult>, id: string, r: Option<AnalysisResult>)
    requires r.None? <==> forall j :: 0 <= j < |rs| ==> rs[j].id != id
    requires r.Some? ==> r.value == rs[IndexOfId(rs, id).value]
    ensures r == Lookup(rs, id)
  {
  }

  /** One more id visits its result, if it has one, after the others. */
  lemma FoundStep(rs: seq<AnalysisResult>, ids: seq<string>, i: nat)
    requires i < |ids|
    ensures Found(rs, ids[..i + 1]) ==
              Found(rs, ids[..i]) + match Lookup(rs, ids[i]) case Some(r) => [r] case None => []
  {
    assert ids[..i + 1][..i] == ids[..i];
  }

  /** Every visited result is a stored one. */
  lemma {:induction false} FoundInStore(rs: seq<AnalysisResult>, ids: seq<string>)
    ensures forall r :: r in Found(rs, ids) ==> r in rs
  {
    if ids != [] {
      var n := |ids| - 1;
      FoundInStore(rs, ids[..n]);
      match IndexOfId(rs, ids[n])
      case None =>
      case Some(k) => assert rs[k] in rs;
    }
  }

  function BatteryHours(r: AnalysisResult): real { GetPowerInfo(r).batteryHours }

  function DurationOf(r: AnalysisResult): real { r.duration }

  function Batteries(rs: seq<AnalysisResult>): seq<real> { MapSeq(rs, BatteryHours) }

  /** One more element at the end of a comprehension's input adds its image at the end. */
  lemma MapSeqSnoc<T, U>(s: seq<T>, x: T, f: T -> U)
    ensures MapSeq(s + [x], f) == MapSeq(s, f) + [f(x)]
  {
    assert (s + [x])[..|s|] == s;
  }

  lemma ImageSnoc<T, U>(s: seq<T>, x: T, f: T -> U)
    ensures Image(s + [x], f) == Image(s, f) + {f(x)}
  {
    assert (s + [x])[..|s|] == s;
  }

  // ----------------------------------------------------------------- filters

  /** An inclusive range whose upper end may be `float('inf')` (None). */
  datatype Interval = Interval(lo: real, hi: Option<real>)

  predicate InInterval(x: real, i: Interval)
  {
    i.lo <= x && (i.hi.None? || x <= i.hi.value)
  }

  /** The filter dict; an absent key is None. */
  datatype Filters = Filters(modes: Option<seq<string>>, files: Option<seq<string>>,
                             powerRange: Option<Interval>, durationRange: Option<Interval>)

  /** The defaults `filters.get` supplies: no mode, no file, `(0, inf)`. */
  const DefaultRange := Interval(0.0, None)

  /** The four tests of `apply_filters`. */
  predicate Passes(f: Filters, r: AnalysisResult)
  {
    && r.modeCn in f.modes.GetOr([])
    && r.filename in f.files.GetOr([])
    && InInterval(AvgPower(r), f.powerRange.GetOr(DefaultRange))
    && InInterval(r.duration, f.durationRange.GetOr(DefaultRange))
  }

  /** The ids of the passing results, in store order. */
  function FilteredIds(rs: seq<AnalysisResult>, f: Filters): (ids: seq<string>)
    ensures |ids| <= |rs|
  {
    if rs == [] then []
    else
      var n := |rs| - 1;
      FilteredIds(rs[..n], f) + if Passes(f, rs[n]) then [rs[n].id] else []
  }

  /** An id is kept exactly when a result carrying it passes all four tests. */
  lemma {:induction false} FilteredIdsMembers(rs: seq<AnalysisResult>, f: Filters)
    ensures forall id :: id in FilteredIds(rs, f) <==>
              exists i :: 0 <= i < |rs| && rs[i].id == id && Passes(f, rs[i])
  {
    if rs != [] {
      var n := |rs| - 1;
      FilteredIdsMembers(rs[..n], f);
      assert forall i :: 0 <= i < n ==> rs[..n][i] == rs[i];
      forall id
        ensures id in FilteredIds(rs, f) <==> exists i :: 0 <= i < |rs| && rs[i].id == id && Passes(f, rs[i])
      {
        if exists i :: 0 <= i < |rs| && rs[i].id == id && Passes(f, rs[i]) {
          var i :| 0 <= i < |rs| && rs[i].id == id && Passes(f, rs[i]);
          if i < n {
            assert rs[..n][i].id == id && Passes(f, rs[..n][i]);
          }
        }
      }
    }
  }

  /** Filtering keeps store order: the results of a longer store come after. */
  lemma {:induction false} FilteredIdsAppend(a: seq<AnalysisResult>, b: seq<AnalysisResult>, f: Filters)
    ensures FilteredIds(a + b, f) == FilteredIds(a, f) + FilteredIds(b, f)
    decreases |b|
  {
    if b == [] {
      assert a + b == a;
    } else {
      var n := |b| - 1;
      assert (a + b)[..|a + b| - 1] == a + b[..n];
      assert (a + b)[|a + b| - 1] == b[n];
      FilteredIdsAppend(a, b[..n], f);
    }
  }

  /** A filter dict without modes or without files keeps nothing. */
  lemma {:induction false} MissingSelectionKeepsNothing(rs: seq<AnalysisResult>, f: Filters)
    requires f.modes.None? || f.files.None?
    ensures FilteredIds(rs, f) == []
  {
    if rs != [] {
      MissingSelectionKeepsNothing(rs[..|rs| - 1], f);
    }
  }

  /** `ResultSelector`. */
  class ResultSelector {
    const resultManager: AnalysisResultManager

    constructor(resultManager: AnalysisResultManager)
      ensures this.resultManager == resultManager
    {
      this.resultManager := resultManager;
    }

    /** `apply_filters`. */
    method ApplyFilters(filters: Filters) returns (ids: seq<string>)
      ensures ids == FilteredIds(resultManager.results, filters)
    {
      var results := resultManager.GetAllResults();
      ids := [];
      for i := 0 to |results|
        invariant ids == FilteredIds(results[..i], filters)
      {
        assert results[..i + 1][..i] == results[..i];
        var result := results[i];
        if result.modeCn !in filters.modes.GetOr([]) {
          continue;
        }
        if result.filename !in filters.files.GetOr([]) {
          continue;
        }
        var powerRange := filters.powerRange.GetOr(DefaultRange);
        if !InInterval(GetPowerInfo(result).avgPowerMW, powerRange) {
          continue;
        }
        var durationRange := filters.durationRange.GetOr(DefaultRange);
        if !InInterval(result.duration, durationRange) {
          continue;
        }
        ids := ids + [result.id];
      }
      assert results[..|results|] == results;
    }
  }

  // -------------------------------------------------------------- radar chart

  /** `(x - lo) / (hi - lo) * 100`, or 50 when the column is constant. */
  function Normalize(x: real, lo: real, hi: real): real
  {
    if hi > lo then (x - lo) / (hi - lo) * 100.0 else 50.0
  }

  /** A value inside the column's range scales into `[0, 100]`, the minimum to 0
      and the maximum to 100 when they differ. */
  lemma NormalizeBounds(x: real, lo: real, hi: real)
    requires lo <= x <= hi
    ensures 0.0 <= Normalize(x, lo, hi) <= 100.0
    ensures hi > lo ==> Normalize(lo, lo, hi) == 0.0 && Normalize(hi, lo, hi) == 100.0
  {
    if hi > lo {
      DivideBounds(x - lo, hi - lo, 0.0, 1.0);
    }
  }

  /** The four radar coordinates of one result. */
  datatype RadarScore = RadarScore(power: real, battery: real, duration: real, efficiency: real)

  /** Low power and long battery life score high. */
  function Efficiency(batteryNorm: real, powerNorm: real): real
  {
    (batteryNorm + (100.0 - powerNorm)) / 2.0
  }

  /** The `(min, max)` of each column over all stored results. */
  datatype Ranges = Ranges(powerLo: real, powerHi: real, batteryLo: real, batteryHi: real,
                           durationLo: real, durationHi: real)

  function RangesOf(all: seq<AnalysisResult>): Ranges
    requires all != []
  {
    var ps, bs, ds := AvgPowers(all), Batteries(all), MapSeq(all, DurationOf);
    Ranges(MinOf(ps), MaxOf(ps), MinOf(bs), MaxOf(bs), MinOf(ds), MaxOf(ds))
  }

  /** Every stored result lies inside each column's range. */
  lemma RangesOfBound(all: seq<AnalysisResult>, r: AnalysisResult)
    requires r in all
    ensures var g := RangesOf(all);
      && g.powerLo <= AvgPower(r) <= g.powerHi
      && g.batteryLo <= BatteryHours(r) <= g.batteryHi
      && g.durationLo <= r.duration <= g.durationHi
  {
    var k :| 0 <= k < |all| && all[k] == r;
    var ps, bs, ds := AvgPowers(all), Batteries(all), MapSeq(all, DurationOf);
    assert ps[k] == AvgPower(r) && bs[k] == BatteryHours(r) && ds[k] == r.duration;
  }

  /** The scores of `r` against the column ranges. */
  function RadarOf(g: Ranges, r: AnalysisResult): RadarScore
  {
    var p := Normalize(AvgPower(r), g.powerLo, g.powerHi);
    var b := Normalize(BatteryHours(r), g.batteryLo, g.batteryHi);
    RadarScore(p, b, Normalize(r.duration, g.durationLo, g.durationHi), Efficiency(b, p))
  }

  /** A result inside the ranges scores in `[0, 100]` on all four axes. */
  lemma RadarInRange(g: Ranges, r: AnalysisResult)
    requires g.powerLo <= AvgPower(r) <= g.powerHi
    requires g.batteryLo <= BatteryHours(r) <= g.batteryHi
    requires g.durationLo <= r.duration <= g.durationHi
    ensures var s := RadarOf(g, r);
      && 0.0 <= s.power <= 100.0 && 0.0 <= s.battery <= 100.0
      && 0.0 <= s.duration <= 100.0 && 0.0 <= s.efficiency <= 100.0
  {
    NormalizeBounds(AvgPower(r), g.powerLo, g.powerHi);
    NormalizeBounds(BatteryHours(r), g.batteryLo, g.batteryHi);
    NormalizeBounds(r.duration, g.durationLo, g.durationHi);
  }

  /** One trace of the radar chart. */
  datatype RadarTrace = RadarTrace(name: string, score: RadarScore)

  function TraceOf(g: Ranges, r: AnalysisResult): RadarTrace
  {
    RadarTrace(r.labelText, RadarOf(g, r))
  }

  /** One trace per visited result, in order. */
  function Traces(g: Ranges, found: seq<AnalysisResult>): (ts: seq<RadarTrace>)
    ensures |ts| == |found|
  {
    if found == [] then [] else Traces(g, found[..|found| - 1]) + [TraceOf(g, found[|found| - 1])]
  }

  /** The trace at a position is the trace of the result at that position. */
  lemma {:induction false} TraceAt(g: Ranges, found: seq<AnalysisResult>, i: nat)
    requires i < |found|
    ensures Traces(g, found)[i] == TraceOf(g, found[i])
  {
    var n := |found| - 1;
    if i < n {
      TraceAt(g, found[..n], i);
      assert found[..n][i] == found[i];
    }
  }

  lemma TracesSnoc(g: Ranges, found: seq<AnalysisResult>, r: AnalysisResult)
    ensures Traces(g, found + [r]) == Traces(g, found) + [TraceOf(g, r)]
  {
    assert (found + [r])[..|found|] == found;
  }

  /** Every trace drawn for known ids names its result, and all its scores
      lie in `[0, 100]`. */
  lemma RadarChartInRange(all: seq<AnalysisResult>, ids: seq<string>)
    requires all != []
    ensures var found, g := Found(all, ids), RangesOf(all);
      forall i :: 0 <= i < |found| ==>
        var t := Traces(g, found)[i];
        && t.name == found[i].labelText
        && 0.0 <= t.score.power <= 100.0 && 0.0 <= t.score.battery <= 100.0
        && 0.0 <= t.score.duration <= 100.0 && 0.0 <= t.score.efficiency <= 100.0
  {
    var found, g := Found(all, ids), RangesOf(all);
    FoundInStore(all, ids);
    forall i | 0 <= i < |found|
      ensures var t := Traces(g, found)[i];
        && t.name == found[i].labelText
        && 0.0 <= t.score.power <= 100.0 && 0.0 <= t.score.battery <= 100.0
        && 0.0 <= t.score.duration <= 100.0 && 0.0 <= t.score.efficiency <= 100.0
    {
      TraceAt(g, found, i);
      RangesOfBound(all, found[i]);
      RadarInRange(g, found[i]);
    }
  }

  /** `ComparisonVisualizer`. */
  class ComparisonVisualizer {
    const resultManager: AnalysisResultManager

    constructor(resultManager: AnalysisResultManager)
      ensures this.resultManager == resultManager
    {
      this.resultManager := resultManager;
    }

    /** The traces of `create_radar_chart`: an empty figure for no ids, the
        `ValueError` of `min([])` (None) when the store is empty, otherwise
        one trace per known id, in id order. */
    method CreateRadarChart(ids: seq<string>) returns (traces: Option<seq<RadarTrace>>)
      ensures ids == [] ==> traces == Some([])
      ensures ids != [] && resultManager.results == [] ==> traces.None?
      ensures ids != [] && resultManager.results != [] ==>
                traces == Some(Traces(RangesOf(resultManager.results), Found(resultManager.results, ids)))
    {
      if ids == [] {
        return Some([]);
      }
      if resultManager.results == [] {
        return None;
      }
      var ranges := RangesOf(resultManager.results);
      var out: seq<RadarTrace> := [];
      ghost var found: seq<AnalysisResult> := [];
      for i := 0 to |ids|
        invariant found == Found(resultManager.results, ids[..i])
        invariant out == Traces(ranges, found)
      {
        var result := resultManager.GetResultById(ids[i]);
        LookupAgrees(resultManager.results, ids[i], result);
        FoundStep(resultManager.results, ids, i);
        if result.Some? {
          TracesSnoc(ranges, found, result.value);
          found := found + [result.value];
          out := out + [TraceOf(ranges, result.value)];
        }
      }
      assert ids[..|ids|] == ids;
      return Some(out);
    }
  }

  // ------------------------------------------------------ statistical summary

  /** `min`, `max`, `np.mean`, `np.std` and the spread of one column. */
  datatype Stats = Stats(min: real, max: real, mean: real, std: real, range: real)

  function StatsOf(xs: seq<real>, std: seq<real> -> real): Stats
    requires xs != []
  {
    Stats(MinOf(xs), MaxOf(xs), Mean(xs), std(xs), MaxOf(xs) - MinOf(xs))
  }

  /** The minimum and maximum are values of the column, the mean lies between
      them, and the range is their non-negative difference. */
  lemma StatsOfSpec(xs: seq<real>, std: seq<real> -> real)
    requires xs != []
    ensures var s := StatsOf(xs, std);
      && s.min in xs && s.max in xs
      && s.min <= s.mean <= s.max
      && s.range == s.max - s.min >= 0.0
      && forall i :: 0 <= i < |xs| ==> s.min <= xs[i] <= s.max
  {
    MeanBetween(xs);
  }

  /** The dict `generate_statistical_summary` returns when something was found. */
  datatype StatSummary = StatSummary(count: nat, modes: set<string>, files: set<string>,
                                     powerStats: Stats, batteryStats: Stats, durationStats: Stats)

  function SummaryOf(count: nat, found: seq<AnalysisResult>, std: seq<real> -> real): StatSummary
    requires found != []
  {
    StatSummary(count, Image(found, ModeOf), Image(found, FileOf),
                StatsOf(AvgPowers(found), std), StatsOf(Batteries(found), std),
                StatsOf(MapSeq(found, DurationOf), std))
  }

  /** The summary lists the modes and files of the found results and nothing else. */
  lemma SummaryOfMembers(count: nat, found: seq<AnalysisResult>, std: seq<real> -> real)
    requires found != []
    ensures var s := SummaryOf(count, found, std);
      && (forall m :: m in s.modes <==> exists i :: 0 <= i < |found| && ModeOf(found[i]) == m)
      && (forall f :: f in s.files <==> exists i :: 0 <= i < |found| && FileOf(found[i]) == f)
  {
    ImageMembers(found, ModeOf);
    ImageMembers(found, FileOf);
  }

  /** Each column's statistics are ordered and its range is not negative. */
  lemma SummaryOfStats(count: nat, found: seq<AnalysisResult>, std: seq<real> -> real)
    requires found != []
    ensures var s := SummaryOf(count, found, std);
      && s.powerStats.min <= s.powerStats.mean <= s.powerStats.max
      && s.batteryStats.min <= s.batteryStats.mean <= s.batteryStats.max
      && s.durationStats.min <= s.durationStats.mean <= s.durationStats.max
      && s.powerStats.range >= 0.0 && s.batteryStats.range >= 0.0 && s.durationStats.range >= 0.0
  {
    MeanBetween(AvgPowers(found));
    MeanBetween(Batteries(found));
    MeanBetween(MapSeq(found, DurationOf));
  }

  // ---------------------------------------------------------- recommendations

  /** The running extremes of `generate_recommendations`, kept as the index of
      the result that set them. */

  /** A smaller value than `e`, where `e` may be `float('inf')`. */
  predicate Below(x: real, e: ExtReal)
  {
    match e
    case Finite(r) => x < r
    case PosInf => true
  }

  /** Running minimum from `float('inf')` with a strict `<`: where it was last
      lowered, and its value. */
  function MinScan(xs: seq<real>): (r: (Option<nat>, ExtReal))
    ensures r.0.Some? ==> r.0.value < |xs|
  {
    if xs == [] then (None, PosInf)
    else
      var n := |xs| - 1;
      var prev := MinScan(xs[..n]);
      if Below(xs[n], prev.1) then (Some(n), Finite(xs[n])) else prev
  }

  /** Running maximum from `start` with a strict `>`: where it was last raised,
      and its value. */
  function MaxScan(start: real, xs: seq<real>): (r: (Option<nat>, real))
    ensures r.0.Some? ==> r.0.value < |xs|
  {
    if xs == [] then (None, start)
    else
      var n := |xs| - 1;
      var prev := MaxScan(start, xs[..n]);
      if xs[n] > prev.1 then (Some(n), xs[n]) else prev
  }

  /** `k` holds the minimum and every earlier element is larger. */
  predicate IsFirstMin(xs: seq<real>, k: nat)
  {
    && k < |xs|
    && (forall j :: 0 <= j < |xs| ==> xs[k] <= xs[j])
    && (forall j :: 0 <= j < k ==> xs[j] > xs[k])
  }

  /** `k` holds the maximum and every earlier element is smaller. */
  predicate IsFirstMax(xs: seq<real>, k: nat)
  {
    && k < |xs|
    && (forall j :: 0 <= j < |xs| ==> xs[j] <= xs[k])
    && (forall j :: 0 <= j < k ==> xs[j] < xs[k])
  }

  /** The strict running minimum ends at the first position of the minimum. */
  lemma {:induction false} MinScanSpec(xs: seq<real>)
    ensures MinScan(xs).0.None? <==> xs == []
    ensures xs == [] ==> MinScan(xs).1 == PosInf
    ensures MinScan(xs).0.Some? ==>
              IsFirstMin(xs, MinScan(xs).0.value) && MinScan(xs).1 == Finite(xs[MinScan(xs).0.value])
  {
    if xs != [] {
      var n := |xs| - 1;
      MinScanSpec(xs[..n]);
      assert forall j :: 0 <= j < n ==> xs[..n][j] == xs[j];
    }
  }

  /** The strict running maximum from `start` moves exactly when some element
      exceeds `start`, and then ends at the first position of the maximum. */
  lemma {:induction false} MaxScanSpec(start: real, xs: seq<real>)
    ensures MaxScan(start, xs).1 >= start
    ensures forall j :: 0 <= j < |xs| ==> xs[j] <= MaxScan(start, xs).1
    ensures MaxScan(start, xs).0.None? <==> forall j :: 0 <= j < |xs| ==> xs[j] <= start
    ensures MaxScan(start, xs).0.None? ==> MaxScan(start, xs).1 == start
    ensures MaxScan(start, xs).0.Some? ==>
              IsFirstMax(xs, MaxScan(start, xs).0.value)
              && MaxScan(start, xs).1 == xs[MaxScan(start, xs).0.value] > start
  {
    if xs != [] {
      var n := |xs| - 1;
      MaxScanSpec(start, xs[..n]);
      assert forall j :: 0 <= j < n ==> xs[..n][j] == xs[j];
    }
  }

  function At(found: seq<AnalysisResult>, k: Option<nat>): Option<AnalysisResult>
    requires k.Some? ==> k.value < |found|
  {
    if k.Some? then Some(found[k.value]) else None
  }

  /** The variables the loop of `generate_recommendations` leaves behind. */
  datatype Extremes = Extremes(bestPower: Option<AnalysisResult>, minPower: ExtReal,
                               worstPower: Option<AnalysisResult>, maxPower: real,
                               bestBattery: Option<AnalysisResult>, maxBattery: real)

  /** The extremes over the visited results: the minimum power from infinity,
      the maximum power and the maximum battery life from 0. */
  function ExtremesOf(found: seq<AnalysisResult>): Extremes
  {
    var ps, bs := AvgPowers(found), Batteries(found);
    var lo, hi, long := MinScan(ps), MaxScan(0.0, ps), MaxScan(0.0, bs);
    Extremes(At(found, lo.0), lo.1, At(found, hi.0), hi.1, At(found, long.0), long.1)
  }

  /** The best-power result is the first result of the lowest power. */
  lemma BestPowerIsFirstMin(found: seq<AnalysisResult>)
    ensures ExtremesOf(found).bestPower.None? <==> found == []
    ensures found != [] ==>
              var e, ps := ExtremesOf(found), AvgPowers(found);
              exists k: nat :: IsFirstMin(ps, k) && e.bestPower == Some(found[k]) && e.minPower == Finite(ps[k])
  {
    MinScanSpec(AvgPowers(found));
  }

  /** The worst-power result is the first result of the highest power, and
      exists only when that power is positive. */
  lemma WorstPowerIsFirstMax(found: seq<AnalysisResult>)
    ensures var e, ps := ExtremesOf(found), AvgPowers(found);
      && (e.worstPower.None? <==> forall j :: 0 <= j < |ps| ==> ps[j] <= 0.0)
      && (e.worstPower.Some? ==>
            exists k: nat :: IsFirstMax(ps, k) && e.worstPower == Some(found[k]) && e.maxPower == ps[k] > 0.0)
  {
    MaxScanSpec(0.0, AvgPowers(found));
  }

  /** The best-battery result is the first result of the longest battery
      life, and exists only when that life is positive. */
  lemma BestBatteryIsFirstMax(found: seq<AnalysisResult>)
    ensures var e, bs := ExtremesOf(found), Batteries(found);
      && (e.bestBattery.None? <==> forall j :: 0 <= j < |bs| ==> bs[j] <= 0.0)
      && (e.bestBattery.Some? ==>
            exists k: nat :: IsFirstMax(bs, k) && e.bestBattery == Some(found[k]) && e.maxBattery == bs[k] > 0.0)
  {
    MaxScanSpec(0.0, Batteries(found));
  }

  /** The three message buckets of the power spread. */
  datatype SpreadLevel = Marked | Moderate | Slight

  function LevelOf(percent: real): (l: SpreadLevel)
    ensures l == Marked <==> percent > 50.0
    ensures l == Moderate <==> 20.0 < percent <= 50.0
  {
    if percent > 50.0 then Marked else if percent > 20.0 then Moderate else Slight
  }

  /** The messages of `generate_recommendations`, with their figures. A
      spread of None stands for the `-inf` difference and `nan` percentage
      left when no id was found. */
  datatype Recommendation =
    | NeedTwoResults
    | BestPowerShown(name: string, powerMW: real)
    | BestBatteryShown(name: string, hours: real)
    | HighPowerShown(name: string, powerMW: real)
    | PowerSpread(level: SpreadLevel, diff: Option<real>, percent: Option<real>)
    | BestAtBoth(name: string)
    | ChooseBetween(lowPowerLabel: string, longBatteryLabel: string)

  /** `(max - min) / min * 100`, or 0 unless `min > 0`. */
  function Spread(minPower: ExtReal, maxPower: real): (r: Recommendation)
    ensures r.PowerSpread?
  {
    match minPower
    case PosInf => PowerSpread(Slight, None, None)
    case Finite(m) =>
      var diff := maxPower - m;
      var percent := if m > 0.0 then diff / m * 100.0 else 0.0;
      PowerSpread(LevelOf(percent), Some(diff), Some(percent))
  }

  function RecommendationsOf(e: Extremes): seq<Recommendation>
  {
    (if e.bestPower.Some? && e.minPower.Finite?
     then [BestPowerShown(e.bestPower.value.labelText, e.minPower.r)] else [])
    + (if e.bestBattery.Some? then [BestBatteryShown(e.bestBattery.value.labelText, e.maxBattery)] else [])
    + (if e.worstPower.Some? && e.worstPower != e.bestPower
       then [HighPowerShown(e.worstPower.value.labelText, e.maxPower)] else [])
    + [Spread(e.minPower, e.maxPower)]
    + (if e.bestPower.Some? && e.bestBattery.Some? then
         if e.bestPower.value.id == e.bestBattery.value.id then [BestAtBoth(e.bestPower.value.labelText)]
         else [ChooseBetween(e.bestPower.value.labelText, e.bestBattery.value.labelText)]
       else [])
  }

  /** The "best at both" message appears exactly when there are a best-power
      and a best-battery result and they share an id. */
  lemma BestAtBothIff(e: Extremes)
    ensures (exists i :: 0 <= i < |RecommendationsOf(e)| && RecommendationsOf(e)[i].BestAtBoth?) <==>
              e.bestPower.Some? && e.bestBattery.Some? && e.bestPower.value.id == e.bestBattery.value.id
  {
    var recs := RecommendationsOf(e);
    if e.bestPower.Some? && e.bestBattery.Some? && e.bestPower.value.id == e.bestBattery.value.id {
      assert recs[|recs| - 1].BestAtBoth?;
    }
  }

  /** Once a result was found, the first message names the lowest power, and
      the spread and its percentage are not negative. */
  lemma FoundRecommendations(found: seq<AnalysisResult>)
    requires found != []
    ensures var e := ExtremesOf(found);
      var spread := Spread(e.minPower, e.maxPower);
      && e.bestPower.Some?
      && RecommendationsOf(e)[0] == BestPowerShown(e.bestPower.value.labelText, MinOf(AvgPowers(found)))
      && spread.diff.Some? && spread.diff.value >= 0.0 && spread.percent.value >= 0.0
  {
    var e, ps := ExtremesOf(found), AvgPowers(found);
    MinScanSpec(ps);
    MaxScanSpec(0.0, ps);
    var k := MinScan(ps).0.value;
    SpreadNonNegative(MinOf(ps), e.maxPower);
  }

  lemma SpreadNonNegative(m: real, hi: real)
    requires m <= hi
    ensures Spread(Finite(m), hi).diff == Some(hi - m)
    ensures Spread(Finite(m), hi).percent.value >= 0.0
  {
    if m > 0.0 {
      assert (hi - m) / m >= 0.0;
    }
  }

  /** `ComparisonReportGenerator`. */
  class ComparisonReportGenerator {
    const resultManager: AnalysisResultManager

    constructor(resultManager: AnalysisResultManager)
      ensures this.resultManager == resultManager
    {
      this.resultManager := resultManager;
    }

    /** `generate_statistical_summary`, `np.std` passed in: `{}` (None) when no
        id is given or none is found. */
    method GenerateStatisticalSummary(ids: seq<string>, std: seq<real> -> real)
      returns (s: Option<StatSummary>)
      ensures s.None? <==> Found(resultManager.results, ids) == []
      ensures s.Some? ==> s.value == SummaryOf(|ids|, Found(resultManager.results, ids), std)
    {
      if ids == [] {
        return None;
      }
      ghost var found: seq<AnalysisResult> := [];
      var powers: seq<real> := [];
      var batteries: seq<real> := [];
      var durations: seq<real> := [];
      var modes: set<string> := {};
      var files: set<string> := {};
      for i := 0 to |ids|
        invariant found == Found(resultManager.results, ids[..i])
        invariant powers == AvgPowers(found) && batteries == Batteries(found)
        invariant durations == MapSeq(found, DurationOf)
        invariant modes == Image(found, ModeOf) && files == Image(found, FileOf)
      {
        var result := resultManager.GetResultById(ids[i]);
        LookupAgrees(resultManager.results, ids[i], result);
        FoundStep(resultManager.results, ids, i);
        if result.Some? {
          var r := result.value;
          MapSeqSnoc(found, r, AvgPower);
          MapSeqSnoc(found, r, BatteryHours);
          MapSeqSnoc(found, r, DurationOf);
          ImageSnoc(found, r, ModeOf);
          ImageSnoc(found, r, FileOf);
          found := found + [r];
          var info := GetPowerInfo(r);
          powers := powers + [info.avgPowerMW];
          batteries := batteries + [info.batteryHours];
          durations := durations + [r.duration];
          modes := modes + {r.modeCn};
          files := files + {r.filename};
        }
      }
      assert ids[..|ids|] == ids;
      if powers == [] {
        return None;
      }
      s := Some(StatSummary(|ids|, modes, files, StatsOf(powers, std), StatsOf(batteries, std),
                            StatsOf(durations, std)));
    }

    /** `generate_recommendations`: the single "need two" message for fewer than
        two ids, otherwise the messages built from the extremes of the found results. */
    method GenerateRecommendations(ids: seq<string>) returns (recs: seq<Recommendation>)
      ensures |ids| < 2 ==> recs == [NeedTwoResults]
      ensures |ids| >= 2 ==> recs == RecommendationsOf(ExtremesOf(Found(resultManager.results, ids)))
    {
      if |ids| < 2 {
        return [NeedTwoResults];
      }
      ghost var found: seq<AnalysisResult> := [];
      var bestPower: Option<AnalysisResult> := None;
      var worstPower: Option<AnalysisResult> := None;
      var bestBattery: Option<AnalysisResult> := None;
      var minPower := PosInf;
      var maxPower := 0.0;
      var maxBattery := 0.0;
      for i := 0 to |ids|
        invariant found == Found(resultManager.results, ids[..i])
        invariant Extremes(bestPower, minPower, worstPower, maxPower, bestBattery, maxBattery) == ExtremesOf(found)
      {
        var result := resultManager.GetResultById(ids[i]);
        LookupAgrees(resultManager.results, ids[i], result);
        FoundStep(resultManager.results, ids, i);
        if result.Some? {
          var r := result.value;
          ExtremesStep(found, r);
          found := found + [r];
          var info := GetPowerInfo(r);
          if Below(info.avgPowerMW, minPower) {
            minPower := Finite(info.avgPowerMW);
            bestPower := Some(r);
          }
          if info.avgPowerMW > maxPower {
            maxPower := info.avgPowerMW;
            worstPower := Some(r);
          }
          if info.batteryHours > maxBattery {
            maxBattery := info.batteryHours;
            bestBattery := Some(r);
          }
        }
      }
      assert ids[..|ids|] == ids;
      recs := RecommendationsOf(Extremes(bestPower, minPower, worstPower, maxPower, bestBattery, maxBattery));
    }
  }

  /** One more visited result updates the extremes as one pass of the loop does. */
  lemma ExtremesStep(found: seq<AnalysisResult>, r: AnalysisResult)
    ensures var e, p, b := ExtremesOf(found), AvgPower(r), BatteryHours(r);
      ExtremesOf(found + [r]) ==
        Extremes(if Below(p, e.minPower) then Some(r) else e.bestPower,
                 if Below(p, e.minPower) then Finite(p) else e.minPower,
                 if p > e.maxPower then Some(r) else e.worstPower,
                 if p > e.maxPower then p else e.maxPower,
                 if b > e.maxBattery then Some(r) else e.bestBattery,
                 if b > e.maxBattery then b else e.maxBattery)
  {
    var ps, bs := AvgPowers(found), Batteries(found);
    MapSeqSnoc(found, r, AvgPower);
    MapSeqSnoc(found, r, BatteryHours);
    MinScanSnoc(ps, AvgPower(r));
    MaxScanSnoc(0.0, ps, AvgPower(r));
    MaxScanSnoc(0.0, bs, BatteryHours(r));
    AtSnoc(found, r, MinScan(ps).0);
    AtSnoc(found, r, MaxScan(0.0, ps).0);
    AtSnoc(found, r, MaxScan(0.0, bs).0);
    AtSnoc(found, r, Some(|found|));
  }

  lemma MinScanSnoc(xs: seq<real>, x: real)
    ensures MinScan(xs + [x]) == if Below(x, MinScan(xs).1) then (Some(|xs|), Finite(x)) else MinScan(xs)
  {
    assert (xs + [x])[..|xs|] == xs;
  }

  lemma MaxScanSnoc(start: real, xs: seq<real>, x: real)
    ensures MaxScan(start, xs + [x]) == if x > MaxScan(start, xs).1 then (Some(|xs|), x) else MaxScan(start, xs)
  {
    assert (xs + [x])[..|xs|] == xs;
  }

  lemma AtSnoc(found: seq<AnalysisResult>, r: AnalysisResult, k: Option<nat>)
    requires k.Some? ==> k.value <= |found|
    ensures At(found + [r], k) == if k == Some(|found|) then Some(r) else At(found, k)
  {
  }
}
