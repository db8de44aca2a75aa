/** `etl/xero/reports.py` from report records to the `report_rows` table: snapshot ids, merge keys, dedup and MERGE. */
module ReportRows {
  import opened Text
  import opened Blocks
  import opened Timestamps
  import opened LatestPerKey
  import opened KeyedMerge
  import opened Upsert
  import opened ReportFlatten

  /**
   * One entry of `Reports[]` with the sidecar fields that identify its pull, the time of the pull, and the columns its
   * header row copies from the payload and the request.
   */
  datatype Report = Report(
    tenant: string, report: string, runId: string, syncedAt: Instant, copied: Row, rows: seq<Node>)

  datatype ReportRow = ReportRow(tenant: string, recordId: string, report: string, fact: FlatCell)

  /** The columns `report_rows` is merged on. */
  datatype RowKey = RowKey(tenant: string, recordId: string, reportIndex: nat, place: Place)

  function RecordId(r: Report): string {
    r.report + "|" + r.runId
  }

  function KeyOfRow(row: ReportRow): RowKey {
    RowKey(row.tenant, row.recordId, row.fact.reportIndex, row.fact.place)
  }

  function RowKeyAt(): (ReportRow, int) -> RowKey {
    (row, i) => KeyOfRow(row)
  }

  function MatchKey(): ReportRow -> Option<RowKey> {
    row => Some(KeyOfRow(row))
  }

  /** Report rows carry no `synced_at`. */
  function NoStamp(): ReportRow -> Stamp {
    row => InText("")
  }

  /** Every row has the same columns, so an update leaves the batch's row. */
  function Replace(): (ReportRow, ReportRow) -> ReportRow {
    (t, s) => s
  }

  /** A snapshot id names one (report, run) as long as report names have no '|'. */
  lemma RecordIdIdentifies(a: Report, b: Report)
    requires Without(a.report, '|') && Without(b.report, '|')
    ensures RecordId(a) == RecordId(b) <==> a.report == b.report && a.runId == b.runId
  {
    if RecordId(a) == RecordId(b) {
      assert "|" == ['|'];
      SplitFirst(a.report, a.runId, b.report, b.runId, '|');
    }
  }

  function CellRow(r: Report, p: Place): ReportRow
    requires Located(r.rows, p)
  {
    ReportRow(r.tenant, RecordId(r), r.report, FactAt(r.rows, 0, p))
  }

  /** What `parse_rows` must return: one row per data cell, under the snapshot's id. */
  ghost predicate RowsOfReport(out: seq<ReportRow>, r: Report) {
    var ps := Places(r.rows, |r.rows|);
    |out| == |ps| && forall n :: 0 <= n < |ps| ==> Located(r.rows, ps[n]) && out[n] == CellRow(r, ps[n])
  }

  method ParseRows(r: Report) returns (out: seq<ReportRow>)
    ensures RowsOfReport(out, r)
  {
    var recordId := RecordId(r);
    var flat := FlattenReportRows(r.rows, 0);
    out := [];
    for n := 0 to |flat|
      invariant |out| == n
      invariant forall m :: 0 <= m < n ==> out[m] == ReportRow(r.tenant, recordId, r.report, flat[m])
    {
      out := out + [ReportRow(r.tenant, recordId, r.report, flat[n])];
    }
  }

  function ReportRowsOf(r: Report): (out: seq<ReportRow>)
    ensures RowsOfReport(out, r)
  {
    var ps := Places(r.rows, |r.rows|);
    FlatteningIsBijective(r.rows);
    assert forall n :: 0 <= n < |ps| ==> ps[n] in ps;
    seq(|ps|, n requires 0 <= n < |ps| => CellRow(r, ps[n]))
  }

  function ReportBlocks(reports: seq<Report>): (blocks: seq<seq<ReportRow>>)
    ensures |blocks| == |reports|
  {
    Image(reports, ReportRowsOf)
  }

  function RunRows(reports: seq<Report>): seq<ReportRow> {
    Expand(reports, ReportRowsOf)
  }

  /** The rows `run` hands to the writer. */
  method CollectRows(reports: seq<Report>) returns (rows: seq<ReportRow>)
    ensures rows == RunRows(reports)
  {
    rows := [];
    for i := 0 to |reports|
      invariant rows == Joined(ReportBlocks(reports), i)
    {
      var parsed := ParseRows(reports[i]);
      assert parsed == ReportRowsOf(reports[i]);
      rows := rows + parsed;
    }
  }

  // ---- what the merge key may collapse ---------------------------------------------

  /** Two reports under one snapshot id that have a data cell at the same place. */
  ghost predicate Clash(a: Report, b: Report) {
    a.tenant == b.tenant && RecordId(a) == RecordId(b) && exists p :: Located(a.rows, p) && Located(b.rows, p)
  }

  lemma RowIsCell(r: Report, row: ReportRow)
    ensures row in ReportRowsOf(r) <==> Located(r.rows, row.fact.place) && row == CellRow(r, row.fact.place)
  {
    var ps, out := Places(r.rows, |r.rows|), ReportRowsOf(r);
    FlatteningIsBijective(r.rows);
    var p := row.fact.place;
    if p in ps {
      var n :| 0 <= n < |ps| && ps[n] == p;
      assert out[n] == CellRow(r, p);
    }
  }

  lemma OneReportDistinct(r: Report)
    ensures KeysDistinct(ReportRowsOf(r), KeyOfRow)
  {
    FlatteningIsBijective(r.rows);
  }

  lemma ClashIsSharedKey(a: Report, b: Report)
    ensures Clash(a, b) <==> ShareKey(ReportRowsOf(a), ReportRowsOf(b), KeyOfRow)
  {
    if Clash(a, b) {
      var p :| Located(a.rows, p) && Located(b.rows, p);
      RowIsCell(a, CellRow(a, p));
      RowIsCell(b, CellRow(b, p));
      assert KeyOfRow(CellRow(a, p)) == KeyOfRow(CellRow(b, p));
    }
    if ShareKey(ReportRowsOf(a), ReportRowsOf(b), KeyOfRow) {
      var x, y :| x in ReportRowsOf(a) && y in ReportRowsOf(b) && KeyOfRow(x) == KeyOfRow(y);
      RowIsCell(a, x);
      RowIsCell(b, y);
      assert Located(a.rows, x.fact.place) && Located(b.rows, x.fact.place);
    }
  }

  lemma DedupIdleIffKeysDistinct<R(!new), K>(rows: seq<R>, keyAt: (R, int) -> K, stamp: R -> Stamp, key: R -> K)
    requires forall r, i :: keyAt(r, i) == key(r)
    ensures Dedup(rows, keyAt, stamp) == rows <==> KeysDistinct(rows, key)
  {
    DedupKeepsAllIffDistinct(rows, keyAt, stamp);
  }

  lemma BlocksClash(reports: seq<Report>)
    ensures KeysDistinct(RunRows(reports), KeyOfRow)
        <==> forall i, j :: 0 <= i < j < |reports| ==> !Clash(reports[i], reports[j])
  {
    var blocks := ReportBlocks(reports);
    forall i | 0 <= i < |reports| ensures KeysDistinct(blocks[i], KeyOfRow) {
      OneReportDistinct(reports[i]);
    }
    JoinedDistinctIff(blocks, |blocks|, KeyOfRow);
    forall i, j | 0 <= i < j < |reports| ensures Clash(reports[i], reports[j])
        <==> ShareKey(blocks[i], blocks[j], KeyOfRow) {
      ClashIsSharedKey(reports[i], reports[j]);
    }
  }

  /** The keyed dedup drops no cell exactly when no two reports of the run clash. */
  lemma NoCellDroppedIffNoClash(reports: seq<Report>)
    ensures Dedup(RunRows(reports), RowKeyAt(), NoStamp()) == RunRows(reports)
            <==> forall i, j :: 0 <= i < j < |reports| ==> !Clash(reports[i], reports[j])
  {
    DedupIdleIffKeysDistinct(RunRows(reports), RowKeyAt(), NoStamp(), KeyOfRow);
    BlocksClash(reports);
  }

  /** One report per (tenant, report, run). */
  ghost predicate OnePerRun(reports: seq<Report>) {
    && (forall i :: 0 <= i < |reports| ==> Without(reports[i].report, '|'))
    && forall i, j :: 0 <= i < j < |reports| ==>
         !(reports[i].tenant == reports[j].tenant && reports[i].report == reports[j].report
           && reports[i].runId == reports[j].runId)
  }

  /** After dedup and MERGE into `report_rows`, every data cell of every report is stored under its own key. */
  lemma EveryCellIsStored(target: seq<ReportRow>, reports: seq<Report>, i: nat, p: Place)
    requires Keyed(target, |target|, MatchKey()) && OnePerRun(reports)
    requires i < |reports| && Located(reports[i].rows, p)
    ensures var source := Dedup(RunRows(reports), RowKeyAt(), NoStamp());
      var merged := MergeRows(target, source, MatchKey(), Replace());
      && |source| == |RunRows(reports)|
      && Keyed(merged, |merged|, MatchKey())
      && var stored := View(merged, |merged|, MatchKey());
         var row := CellRow(reports[i], p);
         KeyOfRow(row) in stored && stored[KeyOfRow(row)] == row
  {
    var rows := RunRows(reports);
    forall a, b | 0 <= a < b < |reports| ensures !Clash(reports[a], reports[b]) {
      RecordIdIdentifies(reports[a], reports[b]);
    }
    NoCellDroppedIffNoClash(reports);
    DedupIsKeyed(rows, RowKeyAt(), NoStamp(), MatchKey());
    MergeRefinesView(target, rows, MatchKey(), Replace());
    var row := CellRow(reports[i], p);
    RowIsCell(reports[i], row);
    JoinedHas(ReportBlocks(reports), |reports|, i, row);
    StoredUnderKey(rows, row, MatchKey());
  }

  lemma StoredUnderKey<R, K>(rows: seq<R>, row: R, key: R -> Option<K>)
    requires row in rows && Keyed(rows, |rows|, key)
    ensures key(row).Some? && key(row).value in View(rows, |rows|, key)
        && View(rows, |rows|, key)[key(row).value] == row
  {
    KeyedMeans(rows, |rows|, key);
    var x :| 0 <= x < |rows| && rows[x] == row;
    var y := KeyPosition(rows, |rows|, key, key(row).value);
  }
}
