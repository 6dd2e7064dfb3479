/** `error_handler.py`: the error log of `ErrorHandler` and the checks of
    `InputValidator`, each of which reports a verdict and its error list. */
module ErrorHandling {
  import opened Wrappers
  import opened DateTimes
  import opened Tables

  /** One entry of `ErrorHandler.error_log`. */
  datatype ErrorEntry = ErrorEntry(timestamp: DateTime, errorType: string, message: string,
                                   details: map<string, string>, traceback: string)

  /** `ErrorHandler`: an append-only log of the errors reported in a session. */
  class ErrorHandler {
    var errorLog: seq<ErrorEntry>

    constructor ()
      ensures errorLog == []
    {
      errorLog := [];
    }

    /** `log_error`: appends exactly one entry; the clock reading and the
        formatted traceback are supplied by the caller. */
    method LogError(errorType: string, message: string, details: Option<map<string, string>>,
                    now: DateTime, traceback: string)
      modifies this
      ensures errorLog == old(errorLog) + [ErrorEntry(now, errorType, message, details.GetOr(map[]), traceback)]
      ensures |errorLog| == |old(errorLog)| + 1
    {
      errorLog := errorLog + [ErrorEntry(now, errorType, message, details.GetOr(map[]), traceback)];
    }
  }

  // ---------------------------------------------------------------- time range

  /** The verdict of a time-range check: the first failing check, or `RangeOk`. */
  datatype RangeVerdict = RangeOk | StartNotBeforeEnd | StartBeforeData | EndAfterData | RangeTooShort

  /** Smallest span `InputValidator.validate_time_range` accepts: one millisecond. */
  const MinSpanSeconds: real := 0.001

  /** `InputValidator.validate_time_range`: order, lower bound, upper bound, then a
      fixed one-millisecond minimum span; the first failing check decides. */
  function ValidateTimeRange(start: real, end: real, minTime: real, maxTime: real): (v: RangeVerdict)
    ensures v == RangeOk <==> start < end && minTime <= start && end <= maxTime && end - start >= MinSpanSeconds
    ensures v == StartNotBeforeEnd <==> start >= end
    ensures v == StartBeforeData <==> start < end && start < minTime
    ensures v == EndAfterData <==> start < end && minTime <= start && end > maxTime
    ensures v == RangeTooShort <==> start < end && minTime <= start && end <= maxTime && end - start < MinSpanSeconds
  {
    if start >= end then StartNotBeforeEnd
    else if start < minTime then StartBeforeData
    else if end > maxTime then EndAfterData
    else if end - start < MinSpanSeconds then RangeTooShort
    else RangeOk
  }

  // ---------------------------------------------------------- battery settings

  datatype BatteryError =
    | CapacityNotPositive | CapacityTooSmall | CapacityTooLarge
    | VoltageNotPositive | VoltageTooLow | VoltageTooHigh

  predicate IsCapacityError(e: BatteryError)
  {
    e.CapacityNotPositive? || e.CapacityTooSmall? || e.CapacityTooLarge?
  }

  predicate CapacityInRange(capacity: real)
  {
    100.0 <= capacity <= 10000.0
  }

  predicate VoltageInRange(voltage: real)
  {
    1.0 <= voltage <= 12.0
  }

  /** `InputValidator.validate_battery_settings`: at most one capacity error
      (not positive, below 100 mAh, above 10000 mAh), then at most one voltage
      error (not positive, below 1 V, above 12 V). */
  method ValidateBatterySettings(capacity: real, voltage: real) returns (valid: bool, errors: seq<BatteryError>)
    ensures valid <==> errors == []
    ensures valid <==> CapacityInRange(capacity) && VoltageInRange(voltage)
    ensures |errors| == (if CapacityInRange(capacity) then 0 else 1) + (if VoltageInRange(voltage) then 0 else 1)
    ensures !CapacityInRange(capacity) ==> IsCapacityError(errors[0])
    ensures forall i :: 0 <= i < |errors| ==> (IsCapacityError(errors[i]) <==> i == 0 && !CapacityInRange(capacity))
    ensures capacity <= 0.0 ==> errors[0] == CapacityNotPositive
    ensures voltage <= 0.0 ==> errors[|errors| - 1] == VoltageNotPositive
  {
    errors := [];
    if capacity <= 0.0 {
      errors := errors + [CapacityNotPositive];
    } else if capacity < 100.0 {
      errors := errors + [CapacityTooSmall];
    } else if capacity > 10000.0 {
      errors := errors + [CapacityTooLarge];
    }
    if voltage <= 0.0 {
      errors := errors + [VoltageNotPositive];
    } else if voltage < 1.0 {
      errors := errors + [VoltageTooLow];
    } else if voltage > 12.0 {
      errors := errors + [VoltageTooHigh];
    }
    valid := |errors| == 0;
  }

  // ------------------------------------------------------------------ CSV file

  datatype CsvError =
    | EmptyFile
    | TooFewColumns(count: nat)
    | TooManyNulls(column: string)
    | TooFewRows(count: nat)

  /** The names the first four columns are given. */
  const ExpectedColumns: seq<string> := ["Time", "Voltage", "Current", "Power"]

  /** More than half of column `j` is missing (`null_percentage > 50`). */
  predicate MostlyNull(t: CsvTable, j: nat)
    requires Rectangular(t) && !IsEmpty(t) && j < |t.columns|
  {
    NullCount(t.rows, j) as real / |t.rows| as real * 100.0 > 50.0
  }

  /** What a clean file looks like: four or more columns, ten or more rows, and
      none of the first four columns more than half empty. */
  predicate CsvAcceptable(t: CsvTable)
    requires Rectangular(t)
  {
    && !IsEmpty(t)
    && |t.columns| >= 4
    && |t.rows| >= 10
    && forall j :: 0 <= j < 4 ==> !MostlyNull(t, j)
  }

  /** `InputValidator.validate_csv_file` with the first four columns renamed and
      the others kept: an empty table fails at once with one error; otherwise
      the column count, the missing values of the four named columns and the
      row count are checked in turn and every failure is reported. */
  method ValidateCsvFile(table: Option<CsvTable>) returns (valid: bool, errors: seq<CsvError>)
    requires table.Some? ==> Rectangular(table.value)
    ensures valid <==> errors == []
    ensures table.None? || IsEmpty(table.value) ==> errors == [EmptyFile]
    ensures table.Some? ==> (valid <==> CsvAcceptable(table.value))
    ensures table.Some? && !IsEmpty(table.value) ==>
      var t := table.value;
      && EmptyFile !in errors
      && (TooFewColumns(|t.columns|) in errors <==> |t.columns| < 4)
      && (TooFewRows(|t.rows|) in errors <==> |t.rows| < 10)
      && (forall j :: 0 <= j < 4 ==> (TooManyNulls(ExpectedColumns[j]) in errors <==> |t.columns| >= 4 && MostlyNull(t, j)))
  {
    errors := [];
    if table.None? || IsEmpty(table.value) {
      errors := errors + [EmptyFile];
      return false, errors;
    }
    var t := table.value;
    if |t.columns| < 4 {
      errors := errors + [TooFewColumns(|t.columns|)];
    }
    if |t.columns| >= 4 {
      var j := 0;
      while j < 4
        invariant 0 <= j <= 4
        invariant |t.columns| >= 4
        invariant forall e :: e in errors ==> e.TooManyNulls? && e.column in ExpectedColumns[..j]
        invariant forall k :: 0 <= k < 4 ==> (TooManyNulls(ExpectedColumns[k]) in errors <==> k < j && MostlyNull(t, k))
      {
        if MostlyNull(t, j) {
          errors := errors + [TooManyNulls(ExpectedColumns[j])];
        }
        j := j + 1;
      }
      if errors != [] {
        var e := errors[0];
        var k :| 0 <= k < 4 && e.column == ExpectedColumns[k];
        assert e == TooManyNulls(ExpectedColumns[k]);
      }
    }
    if |t.rows| < 10 {
      errors := errors + [TooFewRows(|t.rows|)];
    }
    valid := |errors| == 0;
  }

  /** The source renames with `expected_columns[:len(df.columns)]`, a list of at
      most four names: on a non-empty file with more than four columns pandas
      raises "Length mismatch" before any further check. */
  predicate RenameRaises(t: CsvTable)
  {
    !IsEmpty(t) && |t.columns| > 4
  }

  /** `validate_csv_file` as written: raises (the `Err` case) on a non-empty
      file with more than four columns, and otherwise agrees with `ValidateCsvFile`. */
  method ValidateCsvFileAsWritten(table: Option<CsvTable>) returns (r: Result<(bool, seq<CsvError>), string>)
    requires table.Some? ==> Rectangular(table.value)
    ensures r.Err? <==> table.Some? && RenameRaises(table.value)
    ensures r.Ok? ==> (r.value.0 <==> r.value.1 == [])
    ensures r.Ok? && table.Some? ==> (r.value.0 <==> CsvAcceptable(table.value))
  {
    if table.Some? && RenameRaises(table.value) {
      return Err("Length mismatch");
    }
    var valid, errors := ValidateCsvFile(table);
    r := Ok((valid, errors));
  }

  /** A complete ten-row file with one extra column. */
  function FiveColumnFile(): (t: CsvTable)
    ensures Rectangular(t)
  {
    var row := [Some(0.0), Some(3.7), Some(0.01), Some(0.037), Some(1.0)];
    CsvTable(ExpectedColumns + ["Note"], seq(10, i => row))
  }

  /** The discrepancy: a clean file with a fifth column is acceptable, yet the
      code as written raises on it. */
  lemma FiveColumnFileRejected()
    ensures CsvAcceptable(FiveColumnFile()) && RenameRaises(FiveColumnFile())
  {
    var t := FiveColumnFile();
    forall j | 0 <= j < 4
      ensures !MostlyNull(t, j)
    {
      NoNulls(t.rows, j);
    }
  }

  lemma {:induction false} NoNulls(rows: seq<seq<Option<real>>>, j: nat)
    requires forall i :: 0 <= i < |rows| ==> j < |rows[i]| && rows[i][j].Some?
    ensures NullCount(rows, j) == 0
  {
    if rows != [] {
      NoNulls(rows[..|rows| - 1], j);
    }
  }
}
