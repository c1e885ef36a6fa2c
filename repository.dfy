/**
  `DataRepository`: the storage layer as an object holding the two tables
  of the SQLite file in memory, plus whether a connection is open and whether
  the schema exists. A closed repository keeps its tables (they live in the
  file) and reopens on the next operation.
*/
module Repository {
  import opened Common
  import opened Timestamps
  import opened Samples
  import opened DbQueries

  /** The errors the SQLite layer raises in this model. */
  datatype StorageError =
    | NoSuchTable               // a statement ran before the schema was created
    | NotNullViolation          // a sample without a usable `pid`
    | WriteFailed               // the database refused the write (disk full, locked, ...)
    | BadTimestamp(text: string) // `datetime.fromisoformat` rejected a stored `detected_at`

  /** `DTCRecord`. */
  datatype DtcRecord = DtcRecord(code: string, description: Option<string>, detectedAt: DateTime, cleared: bool)

  /** `_ensure_iso_timestamp(value)`, where `value` is `sample.get("recorded_at")`
      (`None` when the key is missing): a datetime is written to the second, a
      non-empty string is kept, anything else becomes the current time. */
  function EnsureIsoTimestamp(value: Option<Value>, now: Instant): (r: string)
    ensures r != ""
    ensures value.Some? && value.value.Str? && value.value.s != "" ==> r == value.value.s
    ensures value.Some? && value.value.Time? ==> r == IsoSeconds(value.value.t)
    ensures (value.None? || value.value.Null? || value.value.Num? || value.value == Str(""))
      ==> r == IsoSeconds(now)
  {
    match value
    case Some(Time(t)) => IsoSeconds(t)
    case Some(Str(s)) => if s != "" then s else IsoSeconds(now)
    case _ => IsoSeconds(now)
  }

  /** Passing a normalised timestamp through again changes nothing, whatever
      the clock says the second time. */
  lemma EnsureIsoTimestampIdempotent(value: Option<Value>, now: Instant, later: Instant)
    ensures EnsureIsoTimestamp(Some(Str(EnsureIsoTimestamp(value, now))), later)
         == EnsureIsoTimestamp(value, now)
  {
  }

  /** The `pid` column for `sample.get("pid")`: a string pid is stored as it
      is; a missing or `None` pid breaks the `NOT NULL` constraint. */
  function PidColumn(sample: Sample): Option<string> {
    if "pid" in sample && sample["pid"].Str? then Some(sample["pid"].s) else None
  }

  /** The `recorded_at` column of one sample: its own timestamp, normalised. */
  function RecordedAtColumn(sample: Sample, now: Instant): string {
    EnsureIsoTimestamp(if "recorded_at" in sample then Some(sample["recorded_at"]) else None, now)
  }

  /** The `values` list of `insert_samples`: one row per sample, in order; the
      batch fails when any sample has no usable pid. */
  function TelemetryRowsFor(samples: seq<Sample>, now: Instant): (r: Result<seq<TelemetryRow>, StorageError>)
    ensures r.Ok? <==> forall i :: 0 <= i < |samples| ==> PidColumn(samples[i]).Some?
    ensures r.Err? ==> r.error == NotNullViolation
    ensures r.Ok? ==> (
      && |r.value| == |samples|
      && forall i :: 0 <= i < |samples| ==>
           r.value[i] == TelemetryRow(PidColumn(samples[i]).value, RecordedAtColumn(samples[i], now),
                                      Reencode(samples[i])))
  {
    if samples == [] then Ok([])
    else
      var s := samples[0];
      var rest := TelemetryRowsFor(samples[1..], now);
      match PidColumn(s)
      case None => Err(NotNullViolation)
      case Some(pid) =>
        if rest.Err? then rest
        else Ok([TelemetryRow(pid, RecordedAtColumn(s, now), Reencode(s))] + rest.value)
  }

  /** `payload.setdefault("pid", ...)` and `payload.setdefault("recorded_at", ...)`:
      the payload's own values win, and only missing keys are filled from the
      columns. */
  function WithColumnDefaults(payload: Sample, pid: string, recordedAt: string): (r: Sample)
    ensures r.Keys == payload.Keys + {"pid", "recorded_at"}
    ensures forall k :: k in payload ==> r[k] == payload[k]
    ensures "pid" !in payload ==> r["pid"] == Str(pid)
    ensures "recorded_at" !in payload ==> r["recorded_at"] == Str(recordedAt)
  {
    var withPid := if "pid" in payload then payload else payload["pid" := Str(pid)];
    if "recorded_at" in withPid then withPid else withPid["recorded_at" := Str(recordedAt)]
  }

  /** The samples `fetch_latest_samples` returns for the rows of the latest query. */
  function LatestSamples(rows: seq<TelemetryRow>): (r: seq<Sample>)
    ensures |r| == |rows|
    ensures forall i :: 0 <= i < |rows| ==>
      r[i] == WithColumnDefaults(rows[i].valueJson, rows[i].pid, rows[i].recordedAt)
  {
    if rows == [] then []
    else [WithColumnDefaults(rows[0].valueJson, rows[0].pid, rows[0].recordedAt)] + LatestSamples(rows[1..])
  }

  /** The rows of `append_dtc_codes`: all share one timestamp, `cleared` is 1 or 0. */
  function DtcRowsFor(codes: seq<(string, Option<string>)>, cleared: bool, stamp: string): (r: seq<DtcRow>)
    ensures |r| == |codes|
    ensures forall i :: 0 <= i < |codes| ==>
      r[i] == DtcRow(codes[i].0, codes[i].1, stamp, if cleared then 1 else 0)
  {
    if codes == [] then []
    else [DtcRow(codes[0].0, codes[0].1, stamp, if cleared then 1 else 0)] + DtcRowsFor(codes[1..], cleared, stamp)
  }

  /** The `DTCRecord` list of `fetch_dtc_history`: the timestamp is parsed,
      and the stored flag read back as `bool(flag)`. */
  function DtcRecordsFor(rows: seq<DtcRow>): (r: Result<seq<DtcRecord>, StorageError>)
    ensures r.Ok? <==> forall i :: 0 <= i < |rows| ==> FromIsoFormat(rows[i].detectedAt).Some?
    ensures r.Ok? ==> |r.value| == |rows| && forall i :: 0 <= i < |rows| ==>
      r.value[i] == DtcRecord(rows[i].code, rows[i].description,
                              FromIsoFormat(rows[i].detectedAt).value, rows[i].cleared != 0)
  {
    if rows == [] then Ok([])
    else
      var rest := DtcRecordsFor(rows[1..]);
      match FromIsoFormat(rows[0].detectedAt)
      case None => Err(BadTimestamp(rows[0].detectedAt))
      case Some(at) =>
        if rest.Err? then rest
        else Ok([DtcRecord(rows[0].code, rows[0].description, at, rows[0].cleared != 0)] + rest.value)
  }

  /** Codes appended in one batch read back with the same code, description
      and flag, and with the batch's time to the second. */
  lemma DtcAppendReadBack(codes: seq<(string, Option<string>)>, cleared: bool, now: Instant)
    ensures DtcRecordsFor(DtcRowsFor(codes, cleared, IsoSeconds(now)))
         == Ok(seq(|codes|, i requires 0 <= i < |codes| =>
                DtcRecord(codes[i].0, codes[i].1, WholeSeconds(now), cleared)))
  {
    IsoSecondsRoundTrip(now);
    var rows := DtcRowsFor(codes, cleared, IsoSeconds(now));
    var r := DtcRecordsFor(rows);
    assert r.Ok?;
    var expected := seq(|codes|, i requires 0 <= i < |codes| =>
      DtcRecord(codes[i].0, codes[i].1, WholeSeconds(now), cleared));
    assert |r.value| == |expected|;
    forall i | 0 <= i < |codes| ensures r.value[i] == expected[i] {
      assert rows[i].detectedAt == IsoSeconds(now);
    }
    assert r.value == expected;
  }

  /** What `insert_samples` reports for a non-empty batch: a missing table,
      then a sample without a pid, then a failed write, are reported in that
      order; otherwise the batch is stored. */
  function InsertOutcome(samples: seq<Sample>, now: Instant, fault: bool, schemaReady: bool): (r: Outcome<StorageError>)
    ensures r.Done? <==> schemaReady && TelemetryRowsFor(samples, now).Ok? && !fault
    ensures !schemaReady ==> r == Fail(NoSuchTable)
    ensures schemaReady && TelemetryRowsFor(samples, now).Err? ==> r == Fail(NotNullViolation)
    ensures schemaReady && TelemetryRowsFor(samples, now).Ok? && fault ==> r == Fail(WriteFailed)
  {
    if !schemaReady then Fail(NoSuchTable)
    else if TelemetryRowsFor(samples, now).Err? then Fail(NotNullViolation)
    else if fault then Fail(WriteFailed)
    else Done
  }

  /** What `append_dtc_codes` reports for a non-empty list: a missing table,
      then a failed write; otherwise the rows are stored. */
  function AppendOutcome(fault: bool, schemaReady: bool): (r: Outcome<StorageError>)
    ensures r.Done? <==> schemaReady && !fault
    ensures !schemaReady ==> r == Fail(NoSuchTable)
    ensures schemaReady && fault ==> r == Fail(WriteFailed)
  {
    if !schemaReady then Fail(NoSuchTable) else if fault then Fail(WriteFailed) else Done
  }

  class DataRepository {
    /** Where the SQLite file lives; opening it is not modelled. */
    const dbPath: seq<string>
    /** `_connection is not None`. */
    var connected: bool
    /** Whether the two tables and their indexes exist in the file. */
    var schemaReady: bool
    var telemetry: seq<TelemetryRow>
    var dtcEvents: seq<DtcRow>

    /** A repository over a file that may already hold both tables and their rows. */
    constructor (path: seq<string>, hasSchema: bool, rows: seq<TelemetryRow>, events: seq<DtcRow>)
      requires !hasSchema ==> rows == [] && events == []
      ensures dbPath == path && !connected && schemaReady == hasSchema
      ensures telemetry == rows && dtcEvents == events
    {
      dbPath := path;
      connected := false;
      schemaReady := hasSchema;
      telemetry := rows;
      dtcEvents := events;
    }

    /** `_ensure_connection`: opens a connection when there is none. */
    method EnsureConnection()
      modifies this`connected
      ensures connected
    {
      if !connected {
        connected := true;
      }
    }

    /** `initialize`: `CREATE ... IF NOT EXISTS` makes the schema exist and
      keeps every row, so a second call is the same as the first. */
    method Initialize()
      modifies this`connected, this`schemaReady
      ensures connected && schemaReady
    {
      EnsureConnection();
      schemaReady := true;
    }

    /** `insert_samples`. An empty batch returns before touching anything.
        Otherwise the batch is appended as a whole or, on an error, not at all. */
    method InsertSamples(samples: seq<Sample>, now: Instant, fault: bool) returns (r: Outcome<StorageError>)
      modifies this`connected, this`telemetry
      ensures samples == [] ==> r == Done && connected == old(connected) && telemetry == old(telemetry)
      ensures samples != [] ==> connected
      ensures samples != [] ==> r == InsertOutcome(samples, now, fault, schemaReady)
      ensures r.Done? && samples != [] ==> telemetry == old(telemetry) + TelemetryRowsFor(samples, now).value
      ensures r.Fail? ==> telemetry == old(telemetry)
    {
      if samples == [] {
        return Done;
      }
      EnsureConnection();
      if !schemaReady {
        return Fail(NoSuchTable);
      }
      var rows := TelemetryRowsFor(samples, now);
      if rows.Err? {
        return Fail(rows.error);
      }
      if fault {
        return Fail(WriteFailed);
      }
      ExecuteManyTelemetry(telemetry, rows.value);
      telemetry := ExecuteMany(telemetry, rows.value, TelemetryInsert);
      r := Done;
    }

    /** `fetch_latest_samples`: the latest query, each payload with its pid and
        time filled from the columns where the payload lacks them. */
    method FetchLatestSamples() returns (r: Result<seq<Sample>, StorageError>)
      modifies this`connected
      ensures connected
      ensures r == if schemaReady then Ok(LatestSamples(LatestRows(telemetry))) else Err(NoSuchTable)
    {
      EnsureConnection();
      if !schemaReady {
        return Err(NoSuchTable);
      }
      r := Ok(LatestSamples(LatestRows(telemetry)));
    }

    /** `append_dtc_codes`. An empty list returns before touching anything;
        otherwise one batch stamped with the current time to the second. */
    method AppendDtcCodes(codes: seq<(string, Option<string>)>, cleared: bool, now: Instant, fault: bool)
      returns (r: Outcome<StorageError>)
      modifies this`connected, this`dtcEvents
      ensures codes == [] ==> r == Done && connected == old(connected) && dtcEvents == old(dtcEvents)
      ensures codes != [] ==> connected
      ensures codes != [] ==> r == AppendOutcome(fault, schemaReady)
      ensures r.Done? && codes != [] ==> dtcEvents == old(dtcEvents) + DtcRowsFor(codes, cleared, IsoSeconds(now))
      ensures r.Fail? ==> dtcEvents == old(dtcEvents)
    {
      if codes == [] {
        return Done;
      }
      EnsureConnection();
      var stamp := IsoSeconds(now);
      var rows := DtcRowsFor(codes, cleared, stamp);
      if !schemaReady {
        return Fail(NoSuchTable);
      }
      if fault {
        return Fail(WriteFailed);
      }
      ExecuteManyDtc(dtcEvents, rows);
      dtcEvents := ExecuteMany(dtcEvents, rows, DtcInsert);
      r := Done;
    }

    /** `fetch_dtc_history(limit=...)`: the history query, rows turned into records. */
    method FetchDtcHistory(limit: int) returns (r: Result<seq<DtcRecord>, StorageError>)
      modifies this`connected
      ensures connected
      ensures r == if schemaReady then DtcRecordsFor(DtcHistory(dtcEvents, limit)) else Err(NoSuchTable)
    {
      EnsureConnection();
      if !schemaReady {
        return Err(NoSuchTable);
      }
      r := DtcRecordsFor(DtcHistory(dtcEvents, limit));
    }

    /** `close`: drops the connection if there is one; the file keeps its rows. */
    method Close()
      modifies this`connected
      ensures !connected
    {
      if connected {
        connected := false;
      }
    }
  }
}
