/** The bulk operations of the result-management panel: the settings of the
    latest analysis, the results an export covers, label de-duplication on
    import, and the batch-delete and selective-clear loops. Every controller
    holds only the result manager. */
module ResultControls {
  import opened Wrappers
  import opened Collections
  import opened DateTimes
  import opened ResultManager
  import ComparisonUI

  // ------------------------------------------------- last analysis settings

  /** The dict `get_last_analysis_settings` returns. */
  datatype Settings = Settings(filename: string, modeCn: string, duration: real, chartTheme: string)

  function SettingsOf(r: AnalysisResult): Settings
  {
    Settings(r.filename, r.modeCn, r.duration, r.chartTheme)
  }

  /** The position `max(results, key=timestamp)` picks: a strictly later
      timestamp replaces the running maximum, an equal one does not. */
  function LatestIndex(rs: seq<AnalysisResult>): (k: nat)
    requires rs != []
    ensures k < |rs|
  {
    if |rs| == 1 then 0
    else
      var n := |rs| - 1;
      var k := LatestIndex(rs[..n]);
      if Before(rs[k].timestamp, rs[n].timestamp) then n else k
  }

  /** The picked result is a latest one, and the first of them: no result is
      later, and every result before it is earlier. */
  lemma {:induction false} LatestIsFirstMax(rs: seq<AnalysisResult>)
    requires rs != []
    ensures forall j :: 0 <= j < |rs| ==> !Before(rs[LatestIndex(rs)].timestamp, rs[j].timestamp)
    ensures forall j :: 0 <= j < LatestIndex(rs) ==> Before(rs[j].timestamp, rs[LatestIndex(rs)].timestamp)
  {
    if |rs| > 1 {
      var n := |rs| - 1;
      var pre := rs[..n];
      LatestIsFirstMax(pre);
      var k := LatestIndex(pre);
      assert forall j :: 0 <= j < n ==> rs[j] == pre[j];
      if Before(rs[k].timestamp, rs[n].timestamp) {
        forall j | 0 <= j < |rs|
          ensures !Before(rs[n].timestamp, rs[j].timestamp)
          ensures j < n ==> Before(rs[j].timestamp, rs[n].timestamp)
        {
          BeforeIsStrictTotal(rs[k].timestamp, rs[n].timestamp, rs[j].timestamp);
          BeforeIsStrictTotal(rs[j].timestamp, rs[k].timestamp, rs[n].timestamp);
          BeforeIsStrictTotal(rs[n].timestamp, rs[n].timestamp, rs[n].timestamp);
        }
      }
    }
  }

  class NewAnalysisController {
    const resultManager: AnalysisResultManager

    constructor(resultManager: AnalysisResultManager)
      ensures this.resultManager == resultManager
    {
      this.resultManager := resultManager;
    }

    /** `get_last_analysis_settings`: None on an empty store, otherwise the
        settings of the first result with the greatest timestamp. */
    function GetLastAnalysisSettings(): (s: Option<Settings>)
      reads resultManager
      ensures s.None? <==> resultManager.results == []
      ensures s.Some? ==>
                exists k :: 0 <= k < |resultManager.results| && s.value == SettingsOf(resultManager.results[k])
                  && (forall j :: 0 <= j < |resultManager.results| ==>
                        !Before(resultManager.results[k].timestamp, resultManager.results[j].timestamp))
                  && (forall j :: 0 <= j < k ==>
                        Before(resultManager.results[j].timestamp, resultManager.results[k].timestamp))
    {
      var rs := resultManager.results;
      if rs == [] then None
      else
        LatestIsFirstMax(rs);
        Some(SettingsOf(rs[LatestIndex(rs)]))
    }
  }

  // ------------------------------------------------------------------ export

  /** What `generate_export_data` hands to the download button. The CSV and
      Markdown text is not modelled, only which results it lists and in what
      order; the full reports are the storage manager's. */
  datatype ExportData =
    | JsonExport(doc: ExportDoc)
    | FullCsvReport
    | FullMarkdownReport
    | SelectedCsv(rows: seq<AnalysisResult>)
    | SelectedMarkdown(entries: seq<AnalysisResult>)

  /** The `ValueError` raised for any other format name. */
  datatype ExportError = UnsupportedFormat(format: string)

  /** `[r for r in results if r.id in result_ids]`: store order, each stored
      result at most once. */
  function SelectedForExport(rs: seq<AnalysisResult>, ids: seq<string>): seq<AnalysisResult>
  {
    Where(rs, (r: AnalysisResult) => r.id in ids)
  }

  /** The selective JSON export holds every stored result whose id is listed,
      as often as the store holds it, and nothing else. */
  lemma SelectedForExportSpec(rs: seq<AnalysisResult>, ids: seq<string>)
    ensures forall r :: r in SelectedForExport(rs, ids) <==> r in rs && r.id in ids
    ensures forall r :: multiset(SelectedForExport(rs, ids))[r] == if r.id in ids then multiset(rs)[r] else 0
  {
    WhereCounts(rs, (r: AnalysisResult) => r.id in ids);
  }

  class ResultExportController {
    const resultManager: AnalysisResultManager

    constructor(resultManager: AnalysisResultManager)
      ensures this.resultManager == resultManager
    {
      this.resultManager := resultManager;
    }

    /** `generate_export_data`, with the current time passed in. JSON of a
        selection lists the selected results in store order under a count of
        them; CSV and Markdown of a selection list the results the ids name,
        in id order; any other format is an error. */
    function GenerateExportData(ids: Option<seq<string>>, format: string, now: Timestamp): (e: Result<ExportData, ExportError>)
      reads resultManager
      ensures e.Err? <==> format != "json" && format != "csv" && format != "markdown"
      ensures e.Err? ==> e.error == UnsupportedFormat(format)
      ensures format == "json" && ids.None? ==>
                e.Ok? && e.value.JsonExport? && Imported(e.value.doc.results) == resultManager.results
                && e.value.doc.resultCount == |resultManager.results|
      ensures format == "json" && ids.Some? ==>
                e.Ok? && e.value.JsonExport?
                && Imported(e.value.doc.results) == SelectedForExport(resultManager.results, ids.value)
                && e.value.doc.resultCount == |e.value.doc.results|
      ensures format == "csv" ==>
                e == Ok(if ids.None? then FullCsvReport
                        else SelectedCsv(ComparisonUI.Found(resultManager.results, ids.value)))
      ensures format == "markdown" ==>
                e == Ok(if ids.None? then FullMarkdownReport
                        else SelectedMarkdown(ComparisonUI.Found(resultManager.results, ids.value)))
    {
      if format == "json" then
        if ids.None? then Ok(JsonExport(resultManager.ExportResultsToDict(now)))
        else
          var selected := SelectedForExport(resultManager.results, ids.value);
          ImportExported(selected);
          Ok(JsonExport(ExportDoc(IsoFormat(now), |selected|, MapSeq(selected, ToDict))))
      else if format == "csv" then
        if ids.None? then Ok(FullCsvReport)
        else Ok(SelectedCsv(ComparisonUI.Found(resultManager.results, ids.value)))
      else if format == "markdown" then
        if ids.None? then Ok(FullMarkdownReport)
        else Ok(SelectedMarkdown(ComparisonUI.Found(resultManager.results, ids.value)))
      else Err(UnsupportedFormat(format))
    }
  }

  // ------------------------------------------------------------------ import

  /** "合併" appends to the store, "覆蓋" clears it first. */
  datatype MergeMode = Merge | Overwrite

  /** "跳過", "重新命名" and "覆蓋" for rows whose label is already taken. */
  datatype DuplicatePolicy = SkipDuplicates | RenameDuplicates | KeepDuplicates

  /** The row's label when it is text. */
  function TextLabel(d: ResultDict): Option<string>
  {
    match d.labelText
    case Some(Str(s)) => Some(s)
    case _ => None
  }

  /** Skipping keeps a row unless its label is text some stored result
      already carries; a row without a label is always kept. */
  predicate KeptOnSkip(existing: seq<string>, d: ResultDict)
  {
    !(TextLabel(d).Some? && TextLabel(d).value in existing)
  }

  /** The rows skipping keeps, in order. */
  function Skipped(existing: seq<string>, rows: seq<ResultDict>): seq<ResultDict>
  {
    if rows == [] then []
    else
      var n := |rows| - 1;
      Skipped(existing, rows[..n]) + if KeptOnSkip(existing, rows[n]) then [rows[n]] else []
  }

  /** Skipping drops exactly the rows whose label the store already has, and
      keeps every copy of the others: rows of the import that share a label
      with each other all stay. */
  lemma {:induction false} SkippedCounts(existing: seq<string>, rows: seq<ResultDict>)
    ensures forall d :: multiset(Skipped(existing, rows))[d] ==
                          if KeptOnSkip(existing, d) then multiset(rows)[d] else 0
  {
    if rows != [] {
      var n := |rows| - 1;
      SkippedCounts(existing, rows[..n]);
      assert rows == rows[..n] + [rows[n]];
      assert multiset(rows) == multiset(rows[..n]) + multiset{rows[n]};
    }
  }

  lemma SkippedStep(existing: seq<string>, rows: seq<ResultDict>, i: nat)
    requires i < |rows|
    ensures KeptOnSkip(existing, rows[i]) ==> Skipped(existing, rows[..i + 1]) == Skipped(existing, rows[..i]) + [rows[i]]
    ensures !KeptOnSkip(existing, rows[i]) ==> Skipped(existing, rows[..i + 1]) == Skipped(existing, rows[..i])
  {
    assert rows[..i + 1][..i] == rows[..i];
  }

  /** The label the rename loop starts from: the text label, or "未命名" when
      the row has none. A label that is not text is left alone. */
  function StartLabel(d: ResultDict): Option<string>
  {
    match d.labelText
    case None => Some("未命名")
    case Some(Str(s)) => Some(s)
    case Some(_) => None
  }

  /** Renaming, row by row: each row with a start label gets the first free
      candidate against the stored labels and the labels given so far. */
  function RenameRows(existing: seq<string>, rows: seq<ResultDict>): seq<ResultDict>
    decreases |rows|
  {
    if rows == [] then []
    else
      match StartLabel(rows[0])
      case None => [rows[0]] + RenameRows(existing, rows[1..])
      case Some(base) =>
        var u := UniqueLabel(existing, base);
        [rows[0].(labelText := Some(Str(u)))] + RenameRows(existing + [u], rows[1..])
  }

  /** Renaming touches only labels: one row out per row in, every row with a
      start label comes out with a text label, and the others are unchanged. */
  lemma {:induction false} RenameRowsShape(existing: seq<string>, rows: seq<ResultDict>)
    ensures |RenameRows(existing, rows)| == |rows|
    ensures forall i :: 0 <= i < |rows| ==>
              RenameRows(existing, rows)[i] == rows[i].(labelText := RenameRows(existing, rows)[i].labelText)
    ensures forall i :: 0 <= i < |rows| && StartLabel(rows[i]).None? ==> RenameRows(existing, rows)[i] == rows[i]
    ensures forall i :: 0 <= i < |rows| && StartLabel(rows[i]).Some? ==> TextLabel(RenameRows(existing, rows)[i]).Some?
    decreases |rows|
  {
    if rows != [] {
      match StartLabel(rows[0])
      case None =>
        RenameRowsShape(existing, rows[1..]);
      case Some(base) =>
        RenameRowsShape(existing + [UniqueLabel(existing, base)], rows[1..]);
    }
  }

  /** After renaming, no label of the import is a stored label, and no two
      rows of the import carry the same label. */
  lemma {:induction false} RenamedLabelsDistinct(existing: seq<string>, rows: seq<ResultDict>)
    ensures forall i :: 0 <= i < |RenameRows(existing, rows)| && TextLabel(RenameRows(existing, rows)[i]).Some? ==>
              TextLabel(RenameRows(existing, rows)[i]).value !in existing
    ensures forall i, j ::
              (0 <= i < j < |RenameRows(existing, rows)|
               && TextLabel(RenameRows(existing, rows)[i]).Some? && TextLabel(RenameRows(existing, rows)[j]).Some?) ==>
              TextLabel(RenameRows(existing, rows)[i]) != TextLabel(RenameRows(existing, rows)[j])
    decreases |rows|
  {
    if rows != [] {
      var out := RenameRows(existing, rows);
      match StartLabel(rows[0])
      case None =>
        RenamedLabelsDistinct(existing, rows[1..]);
        assert TextLabel(rows[0]).None?;
      case Some(base) =>
        var u := UniqueLabel(existing, base);
        UniqueLabelSpec(existing, base);
        RenamedLabelsDistinct(existing + [u], rows[1..]);
    }
  }

  /** The rows the import finally hands to `load_from_json`. */
  function RowsToImport(existing: seq<string>, rows: seq<ResultDict>, duplicates: DuplicatePolicy): seq<ResultDict>
  {
    match duplicates
    case SkipDuplicates => Skipped(existing, rows)
    case RenameDuplicates => RenameRows(existing, rows)
    case KeepDuplicates => rows
  }

  class ResultImportController {
    const resultManager: AnalysisResultManager

    constructor(resultManager: AnalysisResultManager)
      ensures this.resultManager == resultManager
    {
      this.resultManager := resultManager;
    }

    /** The confirm step of `render_import_interface` on a parsed document: a
        document without `results` imports nothing; otherwise the store is
        cleared in overwrite mode, the rows are skipped or renamed against the
        labels then stored, and the remaining rows are imported and counted. */
    method ImportDocument(doc: ImportDoc, merge: MergeMode, duplicates: DuplicatePolicy)
      returns (count: Option<nat>)
      modifies resultManager
      ensures doc.results.None? ==> count.None? && resultManager.results == old(resultManager.results)
      ensures doc.results.Some? ==>
                var kept := if merge == Overwrite then [] else old(resultManager.results);
                var rows := RowsToImport(MapSeq(kept, LabelOf), doc.results.value, duplicates);
                resultManager.results == kept + Imported(rows) && count == Some(|Imported(rows)|)
    {
      if doc.results.None? {
        return None;
      }
      if merge == Overwrite {
        var _ := resultManager.ClearAllResults();
      }
      var rows := doc.results.value;
      var existing := MapSeq(resultManager.results, LabelOf);
      if duplicates == SkipDuplicates {
        rows := SkipTakenLabels(existing, rows);
      } else if duplicates == RenameDuplicates {
        rows := RenameTakenLabels(existing, rows);
      }
      var n := resultManager.ImportResultsFromDict(ImportDoc(Some(rows)));
      count := Some(n);
    }
  }

  /** The "跳過" loop: keep the rows whose label no stored result carries. */
  method SkipTakenLabels(existing: seq<string>, rows: seq<ResultDict>) returns (filtered: seq<ResultDict>)
    ensures filtered == Skipped(existing, rows)
  {
    filtered := [];
    for i := 0 to |rows|
      invariant filtered == Skipped(existing, rows[..i])
    {
      SkippedStep(existing, rows, i);
      if KeptOnSkip(existing, rows[i]) {
        filtered := filtered + [rows[i]];
      }
    }
    assert rows[..|rows|] == rows;
  }

  /** The "重新命名" loop: each row's label is replaced in place by the first
      free candidate, which then counts as taken for the rows after it. */
  method RenameTakenLabels(existing: seq<string>, rows: seq<ResultDict>) returns (renamed: seq<ResultDict>)
    ensures renamed == RenameRows(existing, rows)
  {
    renamed := rows;
    var taken := existing;
    for i := 0 to |rows|
      invariant |renamed| == |rows|
      invariant renamed[i..] == rows[i..]
      invariant renamed[..i] + RenameRows(taken, rows[i..]) == RenameRows(existing, rows)
    {
      var start := StartLabel(rows[i]);
      if start.Some? {
        var newLabel := UniqueAgainst(taken, start.value);
        var d := rows[i].(labelText := Some(Str(newLabel)));
        RenameAdvance(existing, rows, taken, renamed, i, d, taken + [newLabel]);
        renamed := renamed[i := d];
        taken := taken + [newLabel];
      } else {
        RenameAdvance(existing, rows, taken, renamed, i, rows[i], taken);
        renamed := renamed[i := rows[i]];
      }
    }
    assert rows[|rows|..] == [];
    assert renamed[..|renamed|] == renamed;
  }

  /** One more row renamed: the renaming of the rest unfolds by one row. */
  lemma RenameStep(existing: seq<string>, rows: seq<ResultDict>, i: nat)
    requires i < |rows|
    ensures RenameRows(existing, rows[i..]) ==
              match StartLabel(rows[i])
              case None => [rows[i]] + RenameRows(existing, rows[i + 1..])
              case Some(base) =>
                [rows[i].(labelText := Some(Str(UniqueLabel(existing, base))))]
                  + RenameRows(existing + [UniqueLabel(existing, base)], rows[i + 1..])
  {
    assert rows[i..][0] == rows[i];
    assert rows[i..][1..] == rows[i + 1..];
  }

  /** Writing the renamed row `i` in place keeps the loop's account: the
      finished rows followed by the renaming of the rest are the renaming of
      all rows. */
  lemma RenameAdvance(existing: seq<string>, rows: seq<ResultDict>, taken: seq<string>,
                      renamed: seq<ResultDict>, i: nat, d: ResultDict, taken2: seq<string>)
    requires i < |rows| == |renamed|
    requires renamed[i..] == rows[i..]
    requires renamed[..i] + RenameRows(taken, rows[i..]) == RenameRows(existing, rows)
    requires StartLabel(rows[i]).None? ==> d == rows[i] && taken2 == taken
    requires StartLabel(rows[i]).Some? ==>
               var u := UniqueLabel(taken, StartLabel(rows[i]).value);
               d == rows[i].(labelText := Some(Str(u))) && taken2 == taken + [u]
    ensures renamed[i := d][i + 1..] == rows[i + 1..]
    ensures renamed[i := d][..i + 1] + RenameRows(taken2, rows[i + 1..]) == RenameRows(existing, rows)
  {
    RenameStep(taken, rows, i);
    RowUpdate(renamed, i, d);
    assert renamed[i + 1..] == rows[i + 1..] by {
      assert renamed[i + 1..] == renamed[i..][1..];
      assert rows[i + 1..] == rows[i..][1..];
    }
    var rest := RenameRows(taken2, rows[i + 1..]);
    assert RenameRows(taken, rows[i..]) == [d] + rest;
    assert (renamed[..i] + [d]) + rest == renamed[..i] + ([d] + rest);
  }

  /** Writing row `i` in place extends the finished prefix by that row and
      leaves the rows after it alone. */
  lemma RowUpdate(rows: seq<ResultDict>, i: nat, d: ResultDict)
    requires i < |rows|
    ensures rows[i := d][..i + 1] == rows[..i] + [d]
    ensures rows[i := d][i + 1..] == rows[i + 1..]
  {
  }

  // ---------------------------------------------------- delete and clear

  /** `delete_result(id)` as a value: the first result carrying `id` goes. */
  function DeleteFirst(rs: seq<AnalysisResult>, id: string): seq<AnalysisResult>
  {
    match IndexOfId(rs, id)
    case None => rs
    case Some(k) => rs[..k] + rs[k + 1..]
  }

  /** The store after `delete_result` on each id in turn. */
  function AfterDeletes(rs: seq<AnalysisResult>, ids: seq<string>): seq<AnalysisResult>
  {
    if ids == [] then rs
    else DeleteFirst(AfterDeletes(rs, ids[..|ids| - 1]), ids[|ids| - 1])
  }

  lemma AfterDeletesSnoc(rs: seq<AnalysisResult>, ids: seq<string>, id: string)
    ensures AfterDeletes(rs, ids + [id]) == DeleteFirst(AfterDeletes(rs, ids), id)
  {
    assert (ids + [id])[..|ids|] == ids;
  }

  /** No two stored results share an id, as `add_result` with fresh uuids
      keeps it; importing an export twice breaks it. */
  predicate DistinctIds(rs: seq<AnalysisResult>)
  {
    forall i, j :: 0 <= i < j < |rs| ==> rs[i].id != rs[j].id
  }

  /** Deleting adds nothing and removes no entry with another id. */
  lemma DeleteFirstMembers(rs: seq<AnalysisResult>, id: string)
    ensures forall r :: r in DeleteFirst(rs, id) ==> r in rs
    ensures forall r :: r in rs && r.id != id ==> r in DeleteFirst(rs, id)
  {
    match IndexOfId(rs, id)
    case None =>
    case Some(k) =>
      var out := rs[..k] + rs[k + 1..];
      forall r | r in rs && r.id != id
        ensures r in out
      {
        var m :| 0 <= m < |rs| && rs[m] == r;
        if m < k {
          assert out[m] == r;
        } else {
          assert out[m - 1] == r;
        }
      }
  }

  /** With distinct ids, deleting keeps the ids distinct and leaves no entry
      carrying the deleted id. */
  lemma DeleteFirstDistinct(rs: seq<AnalysisResult>, id: string)
    requires DistinctIds(rs)
    ensures DistinctIds(DeleteFirst(rs, id))
    ensures forall r :: r in DeleteFirst(rs, id) ==> r.id != id
  {
    match IndexOfId(rs, id)
    case None =>
    case Some(k) =>
      var out := rs[..k] + rs[k + 1..];
      assert forall m :: 0 <= m < |out| ==> out[m] == rs[if m < k then m else m + 1];
  }

  /** The deletions remove only entries whose id is listed, keep every entry
      whose id is not, and with distinct ids leave no listed id behind. */
  lemma {:induction false} AfterDeletesMembers(rs: seq<AnalysisResult>, ids: seq<string>)
    ensures forall r :: r in AfterDeletes(rs, ids) ==> r in rs
    ensures forall r :: r in rs && r.id !in ids ==> r in AfterDeletes(rs, ids)
    ensures DistinctIds(rs) ==> DistinctIds(AfterDeletes(rs, ids))
    ensures DistinctIds(rs) ==> forall r :: r in AfterDeletes(rs, ids) ==> r.id !in ids
  {
    if ids != [] {
      var n := |ids| - 1;
      AfterDeletesMembers(rs, ids[..n]);
      DeleteFirstMembers(AfterDeletes(rs, ids[..n]), ids[n]);
      if DistinctIds(rs) {
        DeleteFirstDistinct(AfterDeletes(rs, ids[..n]), ids[n]);
      }
      LastSplit(ids);
    }
  }

  lemma LastSplit<T>(s: seq<T>)
    requires s != []
    ensures forall x :: x in s <==> x in s[..|s| - 1] || x == s[|s| - 1]
  {
    assert s == s[..|s| - 1] + [s[|s| - 1]];
  }

  /** The conditions of selective clear; an empty mode or file list is no
      condition, and a date clears results analysed before it. */
  datatype ClearConditions = ClearConditions(modes: seq<string>, files: seq<string>, timeThreshold: Option<Date>)

  /** `should_clear`: any enabled condition matches. */
  predicate ShouldClear(c: ClearConditions, r: AnalysisResult)
  {
    || (c.modes != [] && r.modeCn in c.modes)
    || (c.files != [] && r.filename in c.files)
    || (c.timeThreshold.Some? && DateBefore(ToDate(r.timestamp), c.timeThreshold.value))
  }

  /** The ids selective clear passes to `delete_result`, in store order. */
  function ClearedIds(c: ClearConditions, rs: seq<AnalysisResult>): seq<string>
  {
    if rs == [] then []
    else
      var n := |rs| - 1;
      ClearedIds(c, rs[..n]) + if ShouldClear(c, rs[n]) then [rs[n].id] else []
  }

  lemma ClearedIdsStep(c: ClearConditions, rs: seq<AnalysisResult>, i: nat)
    requires i < |rs|
    ensures ShouldClear(c, rs[i]) ==> ClearedIds(c, rs[..i + 1]) == ClearedIds(c, rs[..i]) + [rs[i].id]
    ensures !ShouldClear(c, rs[i]) ==> ClearedIds(c, rs[..i + 1]) == ClearedIds(c, rs[..i])
  {
    assert rs[..i + 1][..i] == rs[..i];
  }

  /** One more visited result: a matching one adds its deletion. */
  lemma ClearAdvance(c: ClearConditions, rs: seq<AnalysisResult>, i: nat)
    requires i < |rs|
    ensures ShouldClear(c, rs[i]) ==>
              AfterDeletes(rs, ClearedIds(c, rs[..i + 1])) == DeleteFirst(AfterDeletes(rs, ClearedIds(c, rs[..i])), rs[i].id)
    ensures !ShouldClear(c, rs[i]) ==>
              AfterDeletes(rs, ClearedIds(c, rs[..i + 1])) == AfterDeletes(rs, ClearedIds(c, rs[..i]))
  {
    ClearedIdsStep(c, rs, i);
    AfterDeletesSnoc(rs, ClearedIds(c, rs[..i]), rs[i].id);
  }

  /** An id is passed exactly when some matching result carries it. */
  lemma {:induction false} ClearedIdsMembers(c: ClearConditions, rs: seq<AnalysisResult>)
    ensures forall id :: id in ClearedIds(c, rs) <==> exists i :: 0 <= i < |rs| && ShouldClear(c, rs[i]) && rs[i].id == id
  {
    if rs != [] {
      var n := |rs| - 1;
      ClearedIdsMembers(c, rs[..n]);
      assert forall i :: 0 <= i < n ==> rs[..n][i] == rs[i];
    }
  }

  /** With distinct ids, selective clear as written removes exactly the
      matching results. */
  lemma ClearRemovesMatching(c: ClearConditions, rs: seq<AnalysisResult>)
    requires DistinctIds(rs)
    ensures forall r :: r in AfterDeletes(rs, ClearedIds(c, rs)) <==> r in rs && !ShouldClear(c, r)
  {
    var ids := ClearedIds(c, rs);
    AfterDeletesMembers(rs, ids);
    ClearedIdsMembers(c, rs);
    forall r | r in rs
      ensures r.id in ids <==> ShouldClear(c, r)
    {
      var m :| 0 <= m < |rs| && rs[m] == r;
      if r.id in ids {
        var i :| 0 <= i < |rs| && ShouldClear(c, rs[i]) && rs[i].id == r.id;
        assert i == m;
      }
    }
  }

  /** With two results sharing an id, clearing the second one, which matches,
      deletes the first one, which does not, and the match stays. */
  lemma ClearDeletesWrongDuplicate(c: ClearConditions, a: AnalysisResult, b: AnalysisResult)
    requires a.id == b.id && !ShouldClear(c, a) && ShouldClear(c, b)
    ensures AfterDeletes([a, b], ClearedIds(c, [a, b])) == [b]
  {
    ClearedIdsOfPair(c, a, b);
    AfterOneDelete([a, b], b.id);
    assert IndexOfId([a, b], b.id) == Some(0);
    assert [a, b][1..] == [b];
  }

  /** Two copies of one exported result, which share the id and also the mode,
      the file and the time that the conditions read, are cleared alike by id
      and by position: both go or both stay. */
  lemma CopiesClearAlike(c: ClearConditions, a: AnalysisResult, b: AnalysisResult)
    requires a.id == b.id && a.modeCn == b.modeCn && a.filename == b.filename && a.timestamp == b.timestamp
    ensures AfterDeletes([a, b], ClearedIds(c, [a, b])) == KeptAfterClear(c, [a, b])
    ensures ShouldClear(c, a) ==> KeptAfterClear(c, [a, b]) == []
    ensures !ShouldClear(c, a) ==> KeptAfterClear(c, [a, b]) == [a, b]
  {
    assert ShouldClear(c, a) == ShouldClear(c, b);
    assert [a, b][..1] == [a];
    assert [a][..0] == [];
    assert ClearedIds(c, [a]) == ClearedIds(c, []) + if ShouldClear(c, a) then [a.id] else [];
    assert ClearedIds(c, [a, b]) == ClearedIds(c, [a]) + if ShouldClear(c, b) then [b.id] else [];
    assert KeptAfterClear(c, [a]) == KeptAfterClear(c, []) + if ShouldClear(c, a) then [] else [a];
    assert KeptAfterClear(c, [a, b]) == KeptAfterClear(c, [a]) + if ShouldClear(c, b) then [] else [b];
    if ShouldClear(c, a) {
      var ids := [a.id, a.id];
      assert ids[..1] == [a.id];
      AfterOneDelete([a, b], a.id);
      assert IndexOfId([a, b], a.id) == Some(0);
      assert [a, b][1..] == [b];
      assert IndexOfId([b], b.id) == Some(0);
      assert AfterDeletes([a, b], ids) == DeleteFirst([b], a.id);
    } else {
      assert ClearedIds(c, [a, b]) == [];
    }
  }

  lemma ClearedIdsOfPair(c: ClearConditions, a: AnalysisResult, b: AnalysisResult)
    requires !ShouldClear(c, a) && ShouldClear(c, b)
    ensures ClearedIds(c, [a, b]) == [b.id]
  {
    assert [a, b][..1] == [a];
    assert [a][..0] == [];
    assert ClearedIds(c, [a]) == [];
    assert ClearedIds(c, [a, b]) == [] + [b.id];
  }

  lemma AfterOneDelete(rs: seq<AnalysisResult>, id: string)
    ensures AfterDeletes(rs, [id]) == DeleteFirst(rs, id)
  {
    assert [id][..0] == [];
  }

  /** The results selective clear is meant to keep: those matching no
      condition, in store order. */
  function KeptAfterClear(c: ClearConditions, rs: seq<AnalysisResult>): seq<AnalysisResult>
  {
    if rs == [] then []
    else
      var n := |rs| - 1;
      KeptAfterClear(c, rs[..n]) + if ShouldClear(c, rs[n]) then [] else [rs[n]]
  }

  lemma KeptAfterClearStep(c: ClearConditions, rs: seq<AnalysisResult>, i: nat)
    requires i < |rs|
    ensures ShouldClear(c, rs[i]) ==> KeptAfterClear(c, rs[..i + 1]) == KeptAfterClear(c, rs[..i])
    ensures !ShouldClear(c, rs[i]) ==> KeptAfterClear(c, rs[..i + 1]) == KeptAfterClear(c, rs[..i]) + [rs[i]]
  {
    assert rs[..i + 1][..i] == rs[..i];
  }

  /** Every matching result goes and every other one stays, duplicates or not. */
  lemma {:induction false} KeptAfterClearCounts(c: ClearConditions, rs: seq<AnalysisResult>)
    ensures forall r :: multiset(KeptAfterClear(c, rs))[r] == if ShouldClear(c, r) then 0 else multiset(rs)[r]
  {
    if rs != [] {
      var n := |rs| - 1;
      KeptAfterClearCounts(c, rs[..n]);
      assert rs == rs[..n] + [rs[n]];
      assert multiset(rs) == multiset(rs[..n]) + multiset{rs[n]};
    }
  }

  /** After the kept prefix, the store still holds the unvisited results: the
      one at position `i` sits where the kept prefix ends, so removing that
      position drops it and keeping it extends the prefix. */
  lemma KeptLayout(kept: seq<AnalysisResult>, rs: seq<AnalysisResult>, i: nat)
    requires i < |rs|
    ensures (kept + rs[i..])[..|kept|] + (kept + rs[i..])[|kept| + 1..] == kept + rs[i + 1..]
    ensures kept + rs[i..] == (kept + [rs[i]]) + rs[i + 1..]
  {
    assert (kept + rs[i..])[..|kept|] == kept;
    assert (kept + rs[i..])[|kept| + 1..] == rs[i + 1..];
    assert rs[i..] == [rs[i]] + rs[i + 1..];
  }

  class ResultManagementUI {
    const resultManager: AnalysisResultManager

    constructor(resultManager: AnalysisResultManager)
      ensures this.resultManager == resultManager
    {
      this.resultManager := resultManager;
    }

    /** The batch-delete branch: `delete_result` on each chosen id, counting
        the calls that deleted something. */
    method BatchDelete(ids: seq<string>) returns (count: nat)
      modifies resultManager
      ensures resultManager.results == AfterDeletes(old(resultManager.results), ids)
      ensures count == |old(resultManager.results)| - |resultManager.results|
    {
      count := 0;
      for i := 0 to |ids|
        invariant resultManager.results == AfterDeletes(old(resultManager.results), ids[..i])
        invariant count + |resultManager.results| == |old(resultManager.results)|
      {
        assert ids[..i + 1] == ids[..i] + [ids[i]];
        AfterDeletesSnoc(old(resultManager.results), ids[..i], ids[i]);
        var deleted := resultManager.DeleteResult(ids[i]);
        if deleted {
          count := count + 1;
        }
      }
      assert ids[..|ids|] == ids;
    }

    /** The selective-clear branch as written: over a copy of the store, each
        matching result's id goes to `delete_result`, which deletes the first
        result carrying that id; the successful calls are counted. */
    method SelectiveClear(c: ClearConditions) returns (count: nat)
      modifies resultManager
      ensures resultManager.results ==
                AfterDeletes(old(resultManager.results), ClearedIds(c, old(resultManager.results)))
      ensures count == |old(resultManager.results)| - |resultManager.results|
    {
      var snapshot := resultManager.results;
      count := 0;
      for i := 0 to |snapshot|
        invariant resultManager.results == AfterDeletes(snapshot, ClearedIds(c, snapshot[..i]))
        invariant count + |resultManager.results| == |snapshot|
      {
        ClearAdvance(c, snapshot, i);
        if ShouldClear(c, snapshot[i]) {
          var deleted := resultManager.DeleteResult(snapshot[i].id);
          if deleted {
            count := count + 1;
          }
        }
      }
      assert snapshot[..|snapshot|] == snapshot;
    }

    /** Selective clear deleting by position instead of by id: the visited
        result is the one removed, so the matching results go even when ids
        repeat. */
    method SelectiveClearByPosition(c: ClearConditions) returns (count: nat)
      modifies resultManager
      ensures resultManager.results == KeptAfterClear(c, old(resultManager.results))
      ensures count == |old(resultManager.results)| - |resultManager.results|
    {
      var snapshot := resultManager.results;
      count := 0;
      for i := 0 to |snapshot|
        invariant resultManager.results == KeptAfterClear(c, snapshot[..i]) + snapshot[i..]
        invariant count + |resultManager.results| == |snapshot|
      {
        KeptAfterClearStep(c, snapshot, i);
        var kept := KeptAfterClear(c, snapshot[..i]);
        KeptLayout(kept, snapshot, i);
        if ShouldClear(c, snapshot[i]) {
          var deleted := resultManager.DeleteResultByIndex(|kept|);
          count := count + 1;
        }
      }
      assert snapshot[..|snapshot|] == snapshot;
    }
  }
}
