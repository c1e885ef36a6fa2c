/**
  What the four SQL statements of the storage layer do, as functions over the
  two tables. A table is the sequence of its rows in `id` order. Where the SQL
  leaves the order of equal sort keys open, rows keep their `id` order, which
  is the order the `(pid, recorded_at DESC)` and `(detected_at DESC)` indexes
  hand them out in.
*/
module DbQueries {
  import opened Common
  import opened Ordering
  import opened Samples

  /** A row of `telemetry_samples`, without its `id`. */
  datatype TelemetryRow = TelemetryRow(pid: string, recordedAt: string, valueJson: Sample)

  /** A row of `dtc_events`, without its `id`; `cleared` is the stored integer. */
  datatype DtcRow = DtcRow(code: string, description: Option<string>, detectedAt: string, cleared: int)

  /** `TELEMETRY_INSERT`: one new row after the existing ones. */
  function TelemetryInsert(table: seq<TelemetryRow>, row: TelemetryRow): seq<TelemetryRow> {
    table + [row]
  }

  /** `DTC_INSERT`: one new row after the existing ones. */
  function DtcInsert(table: seq<DtcRow>, row: DtcRow): seq<DtcRow> {
    table + [row]
  }

  /** `executemany` of an insert statement: the statement once per row, in order. */
  function ExecuteMany<R>(table: seq<R>, rows: seq<R>, insert: (seq<R>, R) -> seq<R>): seq<R>
    decreases |rows|
  {
    if rows == [] then table else ExecuteMany(insert(table, rows[0]), rows[1..], insert)
  }

  /** A batch of either insert statement appends the batch, in order, and
      leaves every existing row as it was. */
  lemma {:induction false} ExecuteManyTelemetry(table: seq<TelemetryRow>, rows: seq<TelemetryRow>)
    ensures ExecuteMany(table, rows, TelemetryInsert) == table + rows
    decreases |rows|
  {
    if rows != [] {
      ExecuteManyTelemetry(TelemetryInsert(table, rows[0]), rows[1..]);
      assert table + [rows[0]] + rows[1..] == table + rows;
    }
  }

  lemma {:induction false} ExecuteManyDtc(table: seq<DtcRow>, rows: seq<DtcRow>)
    ensures ExecuteMany(table, rows, DtcInsert) == table + rows
    decreases |rows|
  {
    if rows != [] {
      ExecuteManyDtc(DtcInsert(table, rows[0]), rows[1..]);
      assert table + [rows[0]] + rows[1..] == table + rows;
    }
  }

  // ---------------------------------------------------------------------
  // TELEMETRY_LATEST
  // ---------------------------------------------------------------------

  /** `SELECT pid, MAX(recorded_at) ... GROUP BY pid` for one pid: the
      greatest `recorded_at` as a string, `None` when the pid has no rows. */
  function MaxRecordedAt(table: seq<TelemetryRow>, pid: string): Option<string>
  {
    if table == [] then None
    else
      var rest := MaxRecordedAt(table[1..], pid);
      if table[0].pid != pid then rest
      else if rest.Some? && Less(table[0].recordedAt, rest.value) then rest
      else Some(table[0].recordedAt)
  }

  predicate HasPid(table: seq<TelemetryRow>, pid: string) {
    exists i :: 0 <= i < |table| && table[i].pid == pid
  }

  /** Reference meaning of "latest": no row of the same pid is later. */
  predicate IsLatestRow(table: seq<TelemetryRow>, row: TelemetryRow) {
    forall i :: 0 <= i < |table| && table[i].pid == row.pid ==> LessEq(table[i].recordedAt, row.recordedAt)
  }

  /** The group maximum exists exactly for the pids in the table, is the
      `recorded_at` of one of its rows, and no row of that pid exceeds it. */
  lemma {:induction false} MaxRecordedAtSpec(table: seq<TelemetryRow>, pid: string)
    ensures MaxRecordedAt(table, pid).Some? <==> HasPid(table, pid)
    ensures MaxRecordedAt(table, pid).Some? ==>
      (exists i :: 0 <= i < |table| && table[i].pid == pid && table[i].recordedAt == MaxRecordedAt(table, pid).value)
      && forall i :: 0 <= i < |table| && table[i].pid == pid ==> LessEq(table[i].recordedAt, MaxRecordedAt(table, pid).value)
  {
    if table != [] {
      MaxRecordedAtSpec(table[1..], pid);
      var rest := MaxRecordedAt(table[1..], pid);
      assert forall i :: 1 <= i < |table| ==> table[i] == table[1..][i - 1];
      if HasPid(table[1..], pid) {
        var j :| 0 <= j < |table[1..]| && table[1..][j].pid == pid;
        assert table[j + 1].pid == pid;
      }
      if HasPid(table, pid) && table[0].pid != pid {
        var j :| 0 <= j < |table| && table[j].pid == pid;
        assert table[1..][j - 1].pid == pid;
      }
      if table[0].pid == pid && rest.Some? {
        LessEqTotalOrder(table[0].recordedAt, rest.value, table[0].recordedAt);
        forall i | 0 <= i < |table| && table[i].pid == pid
          ensures LessEq(table[i].recordedAt, MaxRecordedAt(table, pid).value)
        {
          if i > 0 && !Less(table[0].recordedAt, rest.value) {
            LessEqTotalOrder(table[i].recordedAt, rest.value, table[0].recordedAt);
          }
        }
      }
    }
  }

  /** The rows of the table equal to their pid's group maximum: the `JOIN`. */
  function Tied(table: seq<TelemetryRow>, rows: seq<TelemetryRow>): (r: seq<TelemetryRow>)
    ensures multiset(r) <= multiset(rows)
    ensures forall q :: q in r ==> MaxRecordedAt(table, q.pid) == Some(q.recordedAt)
    ensures forall q :: (q in rows && MaxRecordedAt(table, q.pid) == Some(q.recordedAt)
                         ==> multiset(r)[q] == multiset(rows)[q])
  {
    if rows == [] then []
    else
      assert rows == [rows[0]] + rows[1..];
      (if MaxRecordedAt(table, rows[0].pid) == Some(rows[0].recordedAt) then [rows[0]] else [])
      + Tied(table, rows[1..])
  }

  function RowPid(row: TelemetryRow): string { row.pid }

  /** `TELEMETRY_LATEST`: every row tied at its pid's maximum `recorded_at`,
      ordered by pid. */
  function LatestRows(table: seq<TelemetryRow>): seq<TelemetryRow> {
    SortBy(Tied(table, table), RowPid, false)
  }

  /** Each returned row is a stored row, and no stored row of its pid is
      later; every stored row that is not earlier than the rest of its pid is
      returned, as often as it is stored. */
  lemma LatestRowsAreTheLatest(table: seq<TelemetryRow>)
    ensures forall q :: q in LatestRows(table) ==> q in table && IsLatestRow(table, q)
    ensures forall q :: (q in table && IsLatestRow(table, q)
                         ==> multiset(LatestRows(table))[q] == multiset(table)[q])
  {
    var r := LatestRows(table);
    assert multiset(r) == multiset(Tied(table, table));
    forall q | q in r ensures q in table && IsLatestRow(table, q) {
      assert q in multiset(Tied(table, table));
      MaxRecordedAtSpec(table, q.pid);
    }
    forall q | q in table && IsLatestRow(table, q)
      ensures multiset(r)[q] == multiset(table)[q]
    {
      MaxRecordedAtSpec(table, q.pid);
      var i :| 0 <= i < |table| && table[i] == q;
      var j :| 0 <= j < |table| && table[j].pid == q.pid && table[j].recordedAt == MaxRecordedAt(table, q.pid).value;
      LessEqTotalOrder(q.recordedAt, table[j].recordedAt, q.recordedAt);
    }
  }

  /** Every pid present in the table appears in the result. */
  lemma LatestRowsCoverEveryPid(table: seq<TelemetryRow>, pid: string)
    requires HasPid(table, pid)
    ensures exists q :: q in LatestRows(table) && q.pid == pid
  {
    MaxRecordedAtSpec(table, pid);
    var j :| 0 <= j < |table| && table[j].pid == pid && table[j].recordedAt == MaxRecordedAt(table, pid).value;
    var q := table[j];
    assert q in table;
    assert multiset(Tied(table, table))[q] == multiset(table)[q];
    assert q in multiset(LatestRows(table));
  }

  /** The result is ordered by pid, ascending. */
  lemma LatestRowsOrderedByPid(table: seq<TelemetryRow>)
    ensures forall i, j :: (0 <= i < j < |LatestRows(table)|
                            ==> LessEq(LatestRows(table)[i].pid, LatestRows(table)[j].pid))
  {
    SortBySorted(Tied(table, table), RowPid, false);
  }

  lemma LatestExampleMaxima(a: TelemetryRow, b: TelemetryRow, c: TelemetryRow, d: TelemetryRow)
    requires a.pid == b.pid == c.pid == "RPM" && d.pid == "SPEED"
    requires Less(a.recordedAt, b.recordedAt) && Less(b.recordedAt, c.recordedAt)
    ensures MaxRecordedAt([a, b, c, d], "RPM") == Some(c.recordedAt)
    ensures MaxRecordedAt([a, b, c, d], "SPEED") == Some(d.recordedAt)
  {
    LessTransitive(a.recordedAt, b.recordedAt, c.recordedAt);
    assert [d][1..] == [];
    assert [c, d][1..] == [d];
    assert [b, c, d][1..] == [c, d];
    assert [a, b, c, d][1..] == [b, c, d];
    assert MaxRecordedAt([d], "RPM") == None;
    assert MaxRecordedAt([c, d], "RPM") == Some(c.recordedAt);
    assert MaxRecordedAt([b, c, d], "RPM") == Some(c.recordedAt);
    assert MaxRecordedAt([d], "SPEED") == Some(d.recordedAt);
    assert MaxRecordedAt([c, d], "SPEED") == Some(d.recordedAt);
    assert MaxRecordedAt([b, c, d], "SPEED") == Some(d.recordedAt);
  }

  /** The join of the example keeps RPM@T3 and SPEED@T1. */
  lemma LatestExampleTied(a: TelemetryRow, b: TelemetryRow, c: TelemetryRow, d: TelemetryRow)
    requires a.pid == b.pid == c.pid == "RPM" && d.pid == "SPEED"
    requires Less(a.recordedAt, b.recordedAt) && Less(b.recordedAt, c.recordedAt)
    ensures Tied([a, b, c, d], [a, b, c, d]) == [c, d]
  {
    var table := [a, b, c, d];
    LatestExampleMaxima(a, b, c, d);
    LessTransitive(a.recordedAt, b.recordedAt, c.recordedAt);
    LessIrreflexive(c.recordedAt);
    assert a.recordedAt != c.recordedAt && b.recordedAt != c.recordedAt;
    assert [d][1..] == [];
    assert [c, d][1..] == [d];
    assert [b, c, d][1..] == [c, d];
    assert table[1..] == [b, c, d];
    assert Tied(table, [d]) == [d];
    assert Tied(table, [c, d]) == [c, d];
    assert Tied(table, [b, c, d]) == [c, d];
  }

  /** An RPM row sorts before a SPEED row. */
  lemma LatestExampleSorted(c: TelemetryRow, d: TelemetryRow)
    requires c.pid == "RPM" && d.pid == "SPEED"
    ensures SortBy([c, d], RowPid, false) == [c, d]
  {
    assert Less("RPM", "SPEED");
    assert [c, d][1..] == [d];
    assert SortBy([d], RowPid, false) == [d];
    assert SortBy([c, d], RowPid, false) == InsertBy(c, [d], RowPid, false);
  }

  /** Three RPM rows at T1 < T2 < T3 and one SPEED row at T1 give exactly
      RPM@T3 and SPEED@T1, in that order. */
  lemma LatestRowsExample(a: TelemetryRow, b: TelemetryRow, c: TelemetryRow, d: TelemetryRow)
    requires a.pid == b.pid == c.pid == "RPM" && d.pid == "SPEED"
    requires Less(a.recordedAt, b.recordedAt) && Less(b.recordedAt, c.recordedAt)
    requires d.recordedAt == a.recordedAt
    ensures LatestRows([a, b, c, d]) == [c, d]
  {
    LatestExampleTied(a, b, c, d);
    LatestExampleSorted(c, d);
  }

  // ---------------------------------------------------------------------
  // DTC_HISTORY
  // ---------------------------------------------------------------------

  function RowDetectedAt(row: DtcRow): string { row.detectedAt }

  /** `ORDER BY detected_at DESC LIMIT ?`; SQLite reads a negative limit as
      no limit. */
  function DtcHistory(table: seq<DtcRow>, limit: int): seq<DtcRow> {
    var sorted := SortBy(table, RowDetectedAt, true);
    if limit < 0 || limit >= |sorted| then sorted else sorted[..limit]
  }

  /** Reference meaning of the history query: newest first, as many rows as
      the limit allows, only stored rows, and nothing left out that is newer
      than something returned. */
  predicate IsHistoryOf(table: seq<DtcRow>, limit: int, r: seq<DtcRow>) {
    && (forall i, j :: 0 <= i < j < |r| ==> LessEq(r[j].detectedAt, r[i].detectedAt))
    && |r| == (if limit < 0 || limit >= |table| then |table| else limit)
    && multiset(r) <= multiset(table)
    && forall q, j :: q in multiset(table) - multiset(r) && 0 <= j < |r|
         ==> LessEq(q.detectedAt, r[j].detectedAt)
  }

  /** In rows sorted newest first, nothing after position `n` is newer than
      anything before it. */
  lemma SortedSuffixNotNewer(sorted: seq<DtcRow>, n: nat)
    requires SortedBy(sorted, RowDetectedAt, true) && n <= |sorted|
    ensures forall q, j :: q in multiset(sorted[n..]) && 0 <= j < n
              ==> LessEq(q.detectedAt, sorted[j].detectedAt)
  {
    forall q, j | q in multiset(sorted[n..]) && 0 <= j < n
      ensures LessEq(q.detectedAt, sorted[j].detectedAt)
    {
      var k :| 0 <= k < |sorted[n..]| && sorted[n..][k] == q;
      assert sorted[n + k] == q;
    }
  }

  /** The limited prefix of rows already sorted newest first is their history. */
  lemma SortedPrefixIsHistory(sorted: seq<DtcRow>, limit: int)
    requires SortedBy(sorted, RowDetectedAt, true)
    ensures IsHistoryOf(sorted, limit, if limit < 0 || limit >= |sorted| then sorted else sorted[..limit])
  {
    var r := if limit < 0 || limit >= |sorted| then sorted else sorted[..limit];
    var n := |r|;
    assert r == sorted[..n];
    assert sorted == r + sorted[n..];
    assert multiset(sorted) == multiset(r) + multiset(sorted[n..]);
    SortedSuffixNotNewer(sorted, n);
  }

  lemma DtcHistoryIsHistory(table: seq<DtcRow>, limit: int)
    ensures IsHistoryOf(table, limit, DtcHistory(table, limit))
  {
    SortBySorted(table, RowDetectedAt, true);
    SortedPrefixIsHistory(SortBy(table, RowDetectedAt, true), limit);
  }
}
