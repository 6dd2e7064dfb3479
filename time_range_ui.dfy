/** The logic inside the time-range selection interface: the time display
    split into hours, minutes and seconds, the preset ranges, the values the
    complete selector returns, and the preview cache keyed by the rounded range. */
module TimeRangeUI {
  import opened Wrappers
  import opened Numbers
  import opened TimeRangeAnalysis
  import EH = ErrorHandling

  // ------------------------------------------------------------ time display

  /** The parts `format_time_display` prints: "{s:.3f}s", "{m}m {s:.1f}s" or
      "{h}h {m}m {s:.1f}s" (the decimal rendering itself is not modelled). */
  datatype TimeDisplay =
    | SecondsOnly(seconds: real)
    | MinutesAndSeconds(minutes: int, seconds: real)
    | HoursMinutesAndSeconds(hours: int, minutes: int, seconds: real)

  /** `format_time_display`: the branch is chosen by `t < 60` and `t < 3600`;
      the parts use Python's floor division and modulo. */
  function FormatTimeDisplay(t: real): (d: TimeDisplay)
    ensures d.SecondsOnly? <==> t < 60.0
    ensures d.MinutesAndSeconds? <==> 60.0 <= t < 3600.0
    ensures d.HoursMinutesAndSeconds? <==> t >= 3600.0
  {
    if t < 60.0 then SecondsOnly(t)
    else if t < 3600.0 then MinutesAndSeconds(FloorDiv(t, 60.0), PyMod(t, 60.0))
    else HoursMinutesAndSeconds(FloorDiv(t, 3600.0), FloorDiv(PyMod(t, 3600.0), 60.0), PyMod(t, 60.0))
  }

  /** The displayed parts add back up to the time, with minutes and seconds
      below 60 and the leading part at least 1. */
  lemma FormatTimeDisplaySpec(t: real)
    ensures var d := FormatTimeDisplay(t);
      && (d.SecondsOnly? ==> d.seconds == t)
      && (d.MinutesAndSeconds? ==>
            d.minutes as real * 60.0 + d.seconds == t && 1 <= d.minutes < 60 && 0.0 <= d.seconds < 60.0)
      && (d.HoursMinutesAndSeconds? ==>
            d.hours as real * 3600.0 + d.minutes as real * 60.0 + d.seconds == t
            && d.hours >= 1 && 0 <= d.minutes < 60 && 0.0 <= d.seconds < 60.0)
  {
    if 60.0 <= t < 3600.0 {
      var m := FloorDiv(t, 60.0);
      QuotientRange(t, 60.0, 1, 60);
    } else if t >= 3600.0 {
      var h := FloorDiv(t, 3600.0);
      var rest := PyMod(t, 3600.0);
      var m := FloorDiv(rest, 60.0);
      var s := PyMod(rest, 60.0);
      QuotientRange(t, 3600.0, 1, h + 1);
      QuotientRange(rest, 60.0, 0, 60);
      assert t == (h * 60 + m) as real * 60.0 + s;
      FloorDivUnique(t, 60.0, h * 60 + m, s);
    }
  }

  /** A quotient is pinned down by its remainder lying in `[0, y)`. */
  lemma FloorDivUnique(x: real, y: real, q: int, r: real)
    requires y > 0.0 && 0.0 <= r < y && x == q as real * y + r
    ensures FloorDiv(x, y) == q && PyMod(x, y) == r
  {
    assert x / y == q as real + r / y;
    Quotient(r, y, 0.0);
    Quotient(r, y, 1.0);
  }

  /** Dividing by a positive `y` keeps the comparison with a multiple of `y`. */
  lemma Quotient(x: real, y: real, c: real)
    requires y > 0.0
    ensures x >= c * y <==> x / y >= c
  {
    var t := x / y;
    assert t * y == x;
    assert (t - c) * y == x - c * y;
    if t < c {
      assert (c - t) * y > 0.0;
    }
  }

  /** `lo * y <= x < hi * y` puts the floor quotient in `[lo, hi)`. */
  lemma QuotientRange(x: real, y: real, lo: int, hi: int)
    requires y > 0.0 && lo as real * y <= x < hi as real * y
    ensures lo <= FloorDiv(x, y) < hi
  {
    Quotient(x, y, lo as real);
    Quotient(x, y, hi as real);
  }

  // ------------------------------------------------------------------ presets

  /** The eight buttons of `render_preset_buttons`. */
  datatype Preset = First25 | First50 | Last50 | All | Middle50 | First10 | Last10 | Reset

  /** The range a preset selects: offsets into the total duration from the
      minimum time, or the maximum time itself. */
  function PresetRange(info: TimeRangeInfo, p: Preset): (r: (real, real))
  {
    var lo, hi, total := info.minTime, info.maxTime, info.totalDuration;
    match p
    case First25 => (lo, lo + total * 0.25)
    case First50 => (lo, lo + total * 0.5)
    case Last50 => (lo + total * 0.5, hi)
    case All => (lo, hi)
    case Middle50 => (lo + total * 0.25, lo + total * 0.75)
    case First10 => (lo, lo + total * 0.1)
    case Last10 => (lo + total * 0.9, hi)
    case Reset => (lo, hi)
  }

  /** The fractions of the total duration at which a preset starts and ends. */
  function PresetFractions(p: Preset): (real, real)
  {
    match p
    case First25 => (0.0, 0.25)
    case First50 => (0.0, 0.5)
    case Last50 => (0.5, 1.0)
    case All => (0.0, 1.0)
    case Middle50 => (0.25, 0.75)
    case First10 => (0.0, 0.1)
    case Last10 => (0.9, 1.0)
    case Reset => (0.0, 1.0)
  }

  /** Every preset of a built analyzer is `min + total * f` at both ends, with
      `f` one of 0, .1, .25, .5, .75, .9 and 1, and lies inside the data. */
  lemma PresetWithinData(info: TimeRangeInfo, p: Preset)
    requires info.minTime <= info.maxTime && info.totalDuration == info.maxTime - info.minTime
    ensures var (a, b) := PresetRange(info, p);
      var (fa, fb) := PresetFractions(p);
      && 0.0 <= fa <= fb <= 1.0
      && (fa == 0.0 || fa == 0.25 || fa == 0.5 || fa == 0.9)
      && (fb == 0.1 || fb == 0.25 || fb == 0.5 || fb == 0.75 || fb == 1.0)
      && a == info.minTime + info.totalDuration * fa
      && b == info.minTime + info.totalDuration * fb
      && info.minTime <= a <= b <= info.maxTime
  {
  }

  /** A built analyzer's metadata meets the requirement of `PresetWithinData`. */
  lemma BuiltInfoSpansData(s: Series)
    requires WellFormed(s)
    ensures s.info.minTime <= s.info.maxTime && s.info.totalDuration == s.info.maxTime - s.info.minTime
  {
    assert s.info == CalculateTimeRangeInfo(s.df);
  }

  /** `render_preset_buttons`: nothing before data is loaded, otherwise the
      range of the pressed button, if any. */
  function RenderPresetButtons(timeInfo: Option<TimeRangeInfo>, pressed: Option<Preset>): (r: Option<(real, real)>)
    ensures r.Some? <==> timeInfo.Some? && pressed.Some?
    ensures r.Some? ==> r.value == PresetRange(timeInfo.value, pressed.value)
  {
    if timeInfo.None? || pressed.None? then None else Some(PresetRange(timeInfo.value, pressed.value))
  }

  // ---------------------------------------------------------------- selector

  /** The selector's analyzer, its metadata, and the current range it keeps in
      the session. */
  class TimeRangeSelector {
    var analyzer: Option<Series>
    var timeInfo: Option<TimeRangeInfo>
    var currentStart: Option<real>
    var currentEnd: Option<real>

    constructor()
      ensures analyzer.None? && timeInfo.None? && currentStart.None? && currentEnd.None?
    {
      analyzer, timeInfo, currentStart, currentEnd := None, None, None, None;
    }

    /** `render_complete_selector`: when the analyzer cannot be built it
        returns `(0, 0, False)` and keeps its previous state; otherwise the
        number-input values (which override the slider) are the result,
        are stored as the current range, and come with the analyzer's verdict. */
    method RenderCompleteSelector(frame: Option<Frame>, inputStart: real, inputEnd: real)
      returns (start: real, end: real, valid: bool)
      modifies this
      ensures Build(frame).Err? ==>
                start == 0.0 && end == 0.0 && !valid
                && analyzer == old(analyzer) && timeInfo == old(timeInfo)
                && currentStart == old(currentStart) && currentEnd == old(currentEnd)
      ensures Build(frame).Ok? ==>
                var s := Build(frame).value;
                && analyzer == Some(s) && timeInfo == Some(s.info)
                && start == inputStart && end == inputEnd
                && currentStart == Some(inputStart) && currentEnd == Some(inputEnd)
                && (valid <==> ValidateRange(s, inputStart, inputEnd) == EH.RangeOk)
    {
      var built := Build(frame);
      if built.Err? {
        return 0.0, 0.0, false;
      }
      var s := built.value;
      analyzer := Some(s);
      timeInfo := Some(s.info);
      start, end := inputStart, inputEnd;
      currentStart, currentEnd := Some(start), Some(end);
      valid := ValidateRange(s, start, end) == EH.RangeOk;
    }
  }

  // ----------------------------------------------------------- preview cache

  /** One half of `f"{x:.6f}"`: the sign and the magnitude in whole
      millionths, rounded half up over exact reals. Python rounds the binary
      value half to even, which differs only on an exact tie such as
      `0.0078125`; `Rendered6Close` holds under either rule. */
  datatype KeyPart = KeyPart(negative: bool, micros: int)

  function Rendered6(x: real): KeyPart
  {
    var a := if x < 0.0 then -x else x;
    KeyPart(x < 0.0, (a * 1000000.0 + 0.5).Floor)
  }

  /** `_get_cache_key`: both ends rendered to six decimals. */
  datatype CacheKey = CacheKey(start: KeyPart, end: KeyPart)

  function GetCacheKey(start: real, end: real): CacheKey
  {
    CacheKey(Rendered6(start), Rendered6(end))
  }

  /** Equal renderings mean values less than a millionth apart. */
  lemma Rendered6Close(x: real, y: real)
    requires Rendered6(x) == Rendered6(y)
    ensures -0.000001 < x - y < 0.000001
  {
    var a := if x < 0.0 then -x else x;
    var b := if y < 0.0 then -y else y;
    assert -1.0 < a * 1000000.0 - b * 1000000.0 < 1.0;
  }

  /** Two different ranges can share a cache entry. */
  lemma NearbyRangesShareKey()
    ensures GetCacheKey(1.0, 2.0) == GetCacheKey(1.0000001, 2.0)
  {
    assert (1.0 * 1000000.0 + 0.5).Floor == 1000000;
    assert (1.0000001 * 1000000.0 + 0.5).Floor == 1000000;
  }

  /** The dict `_calculate_preview_data` returns. */
  datatype PreviewData = PreviewData(stats: Option<PreviewStats>, filteredDf: Option<seq<Row>>,
                                     isValid: bool, errorMsg: Option<RangeError>)

  /** The preview of a range as computed on a cache miss: the statistics and the
      filtered rows, or the error both raise. */
  function ComputePreview(s: Series, start: real, end: real): (p: PreviewData)
    requires WellFormed(s)
    ensures p.isValid <==> FilterByTimeRange(s, start, end).Ok?
    ensures p.isValid ==>
              p.stats == Some(GetPreviewStats(s, start, end).value)
              && p.filteredDf == Some(FilterByTimeRange(s, start, end).value) && p.errorMsg.None?
    ensures !p.isValid ==>
              p.stats.None? && p.filteredDf.None? && p.errorMsg == Some(FilterByTimeRange(s, start, end).error)
  {
    match GetPreviewStats(s, start, end)
    case Err(e) => PreviewData(None, None, false, Some(e))
    case Ok(stats) => PreviewData(Some(stats), Some(FilterByTimeRange(s, start, end).value), true, None)
  }

  /** `RealTimePreview`: the analyzer and the memo of previews by range key.
      `origins` records, for the proof only, the range each entry was computed for. */
  class RealTimePreview {
    const analyzer: Series
    var previewCache: map<CacheKey, PreviewData>
    ghost var origins: map<CacheKey, (real, real)>

    /** Every entry is the successful preview of a range with its key. */
    ghost predicate Valid()
      reads this
    {
      && WellFormed(analyzer)
      && origins.Keys == previewCache.Keys
      && forall k :: k in previewCache ==>
           && GetCacheKey(origins[k].0, origins[k].1) == k
           && previewCache[k] == ComputePreview(analyzer, origins[k].0, origins[k].1)
           && previewCache[k].isValid
    }

    constructor(analyzer: Series)
      requires WellFormed(analyzer)
      ensures Valid() && this.analyzer == analyzer && previewCache == map[]
    {
      this.analyzer := analyzer;
      previewCache := map[];
      origins := map[];
    }

    /** `_calculate_preview_data`: a hit returns the stored entry and changes
        nothing; a miss computes the preview and stores it only when it
        succeeded. */
    method CalculatePreviewData(start: real, end: real) returns (p: PreviewData)
      requires Valid()
      modifies this
      ensures Valid()
      ensures GetCacheKey(start, end) in old(previewCache) ==>
                p == old(previewCache)[GetCacheKey(start, end)] && previewCache == old(previewCache)
      ensures GetCacheKey(start, end) !in old(previewCache) ==>
                p == ComputePreview(analyzer, start, end)
                && previewCache == (if p.isValid then old(previewCache)[GetCacheKey(start, end) := p]
                                    else old(previewCache))
    {
      var key := GetCacheKey(start, end);
      if key in previewCache {
        return previewCache[key];
      }
      p := ComputePreview(analyzer, start, end);
      if p.isValid {
        previewCache := previewCache[key := p];
        origins := origins[key := (start, end)];
      }
    }

    /** `clear_cache`. */
    method ClearCache()
      requires Valid()
      modifies this
      ensures Valid() && previewCache == map[]
    {
      previewCache := map[];
      origins := map[];
    }
  }

  /** A cache hit never reports an error: it is the successful preview of a
      range whose ends lie within a millionth of the requested ones. */
  lemma HitIsNearbyPreview(c: RealTimePreview, start: real, end: real)
    requires c.Valid() && GetCacheKey(start, end) in c.previewCache
    ensures var p := c.previewCache[GetCacheKey(start, end)];
      && p.isValid
      && exists a, b ::
           && -0.000001 < a - start < 0.000001 && -0.000001 < b - end < 0.000001
           && p == ComputePreview(c.analyzer, a, b)
  {
    var k := GetCacheKey(start, end);
    var (a, b) := c.origins[k];
    Rendered6Close(a, start);
    Rendered6Close(b, end);
  }
}
