/**
 * The report jobs of a backfill, from the report trees in their files to their `merge()` calls into `report_snapshots`
 * and `report_rows`: whatever else the backfill merges, these two tables end up the same.
 */
module ReportBackfill {
  import opened Text
  import opened Blocks
  import opened Timestamps
  import opened LatestPerKey
  import opened FileOrder
  import opened Upsert
  import opened ReportFlatten
  import opened ReportRows
  import opened MergeProtocol
  import opened WholeBackfill

  const ROW_TABLE := "report_rows"

  const ROW_COLS: seq<string> :=
    ["tenant_id", "record_id", "report_index", "section_index", "row_index", "cell_index"]

  const CELL_COLUMNS: set<string> := {
      "report_index", "section_index", "section_title", "row_index", "row_type", "cell_index", "row_label",
      "column_header", "cell_value", "attribute_id", "attribute_value", "attributes_json"
    }

  const ROW_COLUMNS: set<string> := {"tenant_id", "record_id", "report"} + CELL_COLUMNS

  function TextOrNull(text: Option<string>): Value {
    match text case Some(s) => Words(s) case None => Null
  }

  /** The dictionary of a flat cell; `dump` prints its attributes. */
  function CellDict(fact: FlatCell, dump: seq<Attribute> -> string): (r: Row)
    ensures r.Keys == CELL_COLUMNS
  {
    map[
      "report_index" := Number(fact.reportIndex),
      "section_index" := Number(fact.place.section),
      "section_title" := TextOrNull(fact.sectionTitle),
      "row_index" := Number(fact.place.row),
      "row_type" := TextOrNull(fact.rowType),
      "cell_index" := Number(fact.place.cell),
      "row_label" := TextOrNull(fact.rowLabel),
      "column_header" := TextOrNull(fact.columnHeader),
      "cell_value" := TextOrNull(fact.value),
      "attribute_id" := TextOrNull(fact.attributeId),
      "attribute_value" := TextOrNull(fact.attributeValue),
      "attributes_json" := if fact.attributes == [] then Null else Words(dump(fact.attributes))
    ]
  }

  /** What `parse_rows` makes of it. */
  function Dict(row: ReportRow, dump: seq<Attribute> -> string): Row {
    map["tenant_id" := Words(row.tenant), "record_id" := Words(row.recordId), "report" := Words(row.report)]
    + CellDict(row.fact, dump)
  }

  function ToDict(dump: seq<Attribute> -> string): ReportRow -> Row {
    row => Dict(row, dump)
  }

  function KeyColumns(k: RowKey): Key {
    [Words(k.tenant), Words(k.recordId), Number(k.reportIndex), Number(k.place.section), Number(k.place.row),
      Number(k.place.cell)]
  }

  ghost predicate KeyedBy(r: Row, k: RowKey) {
    && r.Keys == ROW_COLUMNS
    && r["tenant_id"] == Words(k.tenant) && r["record_id"] == Words(k.recordId)
    && r["report_index"] == Number(k.reportIndex) && r["section_index"] == Number(k.place.section)
    && r["row_index"] == Number(k.place.row) && r["cell_index"] == Number(k.place.cell)
  }

  lemma CellDictPlace(fact: FlatCell, dump: seq<Attribute> -> string)
    ensures var r := CellDict(fact, dump);
      && r["report_index"] == Number(fact.reportIndex) && r["section_index"] == Number(fact.place.section)
      && r["row_index"] == Number(fact.place.row) && r["cell_index"] == Number(fact.place.cell)
    ensures "tenant_id" !in CELL_COLUMNS && "record_id" !in CELL_COLUMNS
  {
  }

  lemma DictIsKeyedBy(row: ReportRow, dump: seq<Attribute> -> string)
    ensures KeyedBy(Dict(row, dump), KeyOfRow(row))
  {
    CellDictPlace(row.fact, dump);
  }

  lemma KeyColumnsPresent(c: string)
    requires c in ROW_COLS
    ensures c in ROW_COLUMNS
  {
  }

  /** The merge key of such a dictionary is the row key, column by column. */
  lemma KeyOfKeyedBy(r: Row, k: RowKey)
    requires KeyedBy(r, k)
    ensures HasKey(r, ROW_COLS) && KeyOf(r, ROW_COLS) == KeyColumns(k)
    ensures Sound(r, ROW_COLS)
  {
    forall c | c in ROW_COLS ensures c in r {
      KeyColumnsPresent(c);
    }
    var x := KeyOf(r, ROW_COLS);
    assert x[0] == Words(k.tenant) && x[1] == Words(k.recordId) && x[2] == Number(k.reportIndex);
    assert x[3] == Number(k.place.section) && x[4] == Number(k.place.row) && x[5] == Number(k.place.cell);
  }

  /** Taking over the batch's row is what the printed `UPDATE SET` does to a row of the same key and columns. */
  lemma ReplaceIsStatement(t: ReportRow, s: ReportRow, dump: seq<Attribute> -> string)
    requires KeyOfRow(t) == KeyOfRow(s)
    ensures SetClause(ROW_COLS)(Dict(t, dump), Dict(s, dump)) == Dict(Replace()(t, s), dump)
  {
    DictIsKeyedBy(t, dump);
    DictIsKeyedBy(s, dump);
    KeyOfKeyedBy(Dict(t, dump), KeyOfRow(t));
    KeyOfKeyedBy(Dict(s, dump), KeyOfRow(s));
    SecondOverwrites(map[], Dict(t, dump), Dict(s, dump), ROW_COLS);
  }

  lemma KeyColumnsIdentify(k: RowKey, l: RowKey)
    requires KeyColumns(k) == KeyColumns(l)
    ensures k == l
  {
    var x, y := KeyColumns(k), KeyColumns(l);
    assert x[0] == y[0] && x[1] == y[1] && x[2] == y[2] && x[3] == y[3] && x[4] == y[4] && x[5] == y[5];
  }

  // ---- snapshots -----------------------------------------------------------------------

  const SNAPSHOT_TABLE := "report_snapshots"

  const SNAPSHOT_COLS: seq<string> := ["tenant_id", "record_id"]

  const COPIED_COLUMNS: set<string> := {
      "report_id", "report_name", "report_type", "report_titles", "report_updated_utc", "report_date", "report_from",
      "report_to"
    }

  const OWN_COLUMNS: set<string> := {"tenant_id", "record_id", "synced_at", "first_seen_at", "report", "run_id"}

  const SNAPSHOT_COLUMNS: set<string> := COPIED_COLUMNS + OWN_COLUMNS

  function OwnDict(r: Report): (d: Row)
    ensures d.Keys == OWN_COLUMNS
  {
    map[
      "tenant_id" := Words(r.tenant), "record_id" := Words(RecordId(r)), "synced_at" := Clock(r.syncedAt),
      "first_seen_at" := Clock(r.syncedAt), "report" := Words(r.report), "run_id" := Words(r.runId)
    ]
  }

  /** What `parse_header` makes of a report. */
  function HeaderDict(): Report -> Row {
    (r: Report) => Stage(r.copied, COPIED_COLUMNS) + OwnDict(r)
  }

  lemma OwnDictKey(r: Report)
    ensures OwnDict(r)["tenant_id"] == Words(r.tenant) && OwnDict(r)["record_id"] == Words(RecordId(r))
  {
  }

  lemma SnapshotKey(d: Row, x: string, y: string)
    requires d.Keys == SNAPSHOT_COLUMNS && d["tenant_id"] == Words(x) && d["record_id"] == Words(y)
    ensures Sound(d, SNAPSHOT_COLS) && KeyOf(d, SNAPSHOT_COLS) == [Words(x), Words(y)]
  {
    assert SNAPSHOT_COLS[0] == "tenant_id" && SNAPSHOT_COLS[1] == "record_id";
    assert KeyOf(d, SNAPSHOT_COLS)[0] == Words(x) && KeyOf(d, SNAPSHOT_COLS)[1] == Words(y);
  }

  lemma HeaderKey(r: Report)
    ensures var d := HeaderDict()(r);
      && d.Keys == SNAPSHOT_COLUMNS && Sound(d, SNAPSHOT_COLS)
      && d["tenant_id"] == Words(r.tenant) && d["record_id"] == Words(RecordId(r))
      && KeyOf(d, SNAPSHOT_COLS) == [Words(r.tenant), Words(RecordId(r))]
  {
    OwnDictKey(r);
    SnapshotKey(HeaderDict()(r), r.tenant, RecordId(r));
  }

  lemma HeadersHaveOwnKeys(r: Report, s: Report, i: int, j: int)
    requires r.tenant != s.tenant || RecordId(r) != RecordId(s)
    ensures DedupKey(SNAPSHOT_COLS)(HeaderDict()(r), i) != DedupKey(SNAPSHOT_COLS)(HeaderDict()(s), j)
  {
    HeaderKey(r);
    HeaderKey(s);
    var x, y := KeyOf(HeaderDict()(r), SNAPSHOT_COLS), KeyOf(HeaderDict()(s), SNAPSHOT_COLS);
    assert x[0] == Words(r.tenant) && y[0] == Words(s.tenant) && x[1] == Words(RecordId(r))
        && y[1] == Words(RecordId(s));
  }

  // ---- one job -------------------------------------------------------------------------

  /** The reports of one tenant and report kind, file by file. */
  datatype ReportJob = ReportJob(tenant: string, report: string, files: seq<seq<Report>>)

  function Reports(job: ReportJob): seq<Report> {
    Joined(job.files, |job.files|)
  }

  function RowBlocks(files: seq<seq<Report>>): (blocks: seq<seq<ReportRow>>)
    ensures |blocks| == |files|
  {
    seq(|files|, i requires 0 <= i < |files| => RunRows(files[i]))
  }

  /** The call into `report_rows` a job makes, unless no report has a data cell. */
  function RowCall(job: ReportJob, dump: seq<Attribute> -> string): Call {
    var blocks := RowBlocks(job.files);
    Call(ROW_TABLE, ROW_COLS, ROW_COLUMNS,
         seq(|blocks|, i requires 0 <= i < |blocks| => Image(blocks[i], ToDict(dump))))
  }

  /** The call into `report_snapshots` it makes, unless there is no report. */
  function SnapshotCall(job: ReportJob): Call {
    Call(SNAPSHOT_TABLE, SNAPSHOT_COLS, SNAPSHOT_COLUMNS,
         seq(|job.files|, i requires 0 <= i < |job.files| => Image(job.files[i], HeaderDict())))
  }

  /** What the bucket holds for a job: its tenant and report kind throughout, every run once. */
  ghost predicate Pulled(job: ReportJob) {
    && Without(job.report, '|') && OnePerRun(Reports(job))
    && forall r :: r in Reports(job) ==> r.tenant == job.tenant && r.report == job.report
  }

  /** The rows of a call are those of all its reports in order. */
  lemma CallRows(job: ReportJob, dump: seq<Attribute> -> string)
    ensures RowsOfCall(RowCall(job, dump)) == Image(RunRows(Reports(job)), ToDict(dump))
  {
    JoinedImages(RowBlocks(job.files), RowCall(job, dump).files, |job.files|, ToDict(dump));
    JoinedExpands(job.files, RowBlocks(job.files), |job.files|, ReportRowsOf);
  }

  lemma RunsHaveOwnKeys(reports: seq<Report>)
    requires OnePerRun(reports)
    ensures KeysDistinct(RunRows(reports), KeyOfRow)
  {
    forall i, j | 0 <= i < j < |reports| ensures !Clash(reports[i], reports[j]) {
      RecordIdIdentifies(reports[i], reports[j]);
    }
    BlocksClash(reports);
  }

  lemma DictsAreUniform(rows: seq<ReportRow>, dump: seq<Attribute> -> string)
    ensures Uniform(Image(rows, ToDict(dump)), ROW_COLS, ROW_COLUMNS)
  {
    forall r | r in Image(rows, ToDict(dump)) ensures Sound(r, ROW_COLS) && r.Keys == ROW_COLUMNS {
      var n := ImageOrigin(rows, ToDict(dump), r);
      DictIsKeyedBy(rows[n], dump);
      KeyOfKeyedBy(r, KeyOfRow(rows[n]));
    }
  }

  lemma DictsHaveOwnKeys(x: ReportRow, y: ReportRow, dump: seq<Attribute> -> string, i: int, j: int)
    requires KeyOfRow(x) != KeyOfRow(y)
    ensures DedupKey(ROW_COLS)(Dict(x, dump), i) != DedupKey(ROW_COLS)(Dict(y, dump), j)
  {
    DictIsKeyedBy(x, dump);
    DictIsKeyedBy(y, dump);
    KeyOfKeyedBy(Dict(x, dump), KeyOfRow(x));
    KeyOfKeyedBy(Dict(y, dump), KeyOfRow(y));
    if KeyColumns(KeyOfRow(x)) == KeyColumns(KeyOfRow(y)) {
      KeyColumnsIdentify(KeyOfRow(x), KeyOfRow(y));
    }
  }

  /** Report rows carry no `synced_at`, and yet no two of a call tie: the dedup never has to choose. */
  lemma {:induction false} RowCallIsWellFormed(job: ReportJob, dump: seq<Attribute> -> string)
    requires Pulled(job)
    ensures WellFormed(RowCall(job, dump))
  {
    var rows := RunRows(Reports(job));
    CallRows(job, dump);
    RunsHaveOwnKeys(Reports(job));
    DictsAreUniform(rows, dump);
    var ds := RowsOfCall(RowCall(job, dump));
    forall i, j | 0 <= i < j < |ds| ensures DedupKey(ROW_COLS)(ds[i], i) != DedupKey(ROW_COLS)(ds[j], j) {
      DictsHaveOwnKeys(rows[i], rows[j], dump, i, j);
    }
    DistinctKeysAreWellFormed(RowCall(job, dump));
  }

  lemma {:induction false} SnapshotRows(job: ReportJob)
    ensures RowsOfCall(SnapshotCall(job)) == Image(Reports(job), HeaderDict())
  {
    JoinedImages(job.files, SnapshotCall(job).files, |job.files|, HeaderDict());
  }

  lemma HeadersAreUniform(reports: seq<Report>)
    ensures Uniform(Image(reports, HeaderDict()), SNAPSHOT_COLS, SNAPSHOT_COLUMNS)
  {
    forall d | d in Image(reports, HeaderDict()) ensures Sound(d, SNAPSHOT_COLS) && d.Keys == SNAPSHOT_COLUMNS {
      var i := ImageOrigin(reports, HeaderDict(), d);
      HeaderKey(reports[i]);
    }
  }

  lemma {:induction false} SnapshotCallIsWellFormed(job: ReportJob)
    requires Pulled(job)
    ensures WellFormed(SnapshotCall(job))
  {
    var reports := Reports(job);
    SnapshotRows(job);
    HeadersAreUniform(reports);
    var ds := RowsOfCall(SnapshotCall(job));
    forall i, j | 0 <= i < j < |ds| ensures DedupKey(SNAPSHOT_COLS)(ds[i], i) != DedupKey(SNAPSHOT_COLS)(ds[j], j) {
      RecordIdIdentifies(reports[i], reports[j]);
      HeadersHaveOwnKeys(reports[i], reports[j], i, j);
    }
    DistinctKeysAreWellFormed(SnapshotCall(job));
  }

  // ---- all jobs ------------------------------------------------------------------------

  lemma RowStems(job: ReportJob, row: ReportRow)
    requires Pulled(job) && row in RunRows(Reports(job))
    ensures row.tenant == job.tenant && (job.report + "|") <= row.recordId
  {
    var reports := Reports(job);
    var i := JoinedOrigin(ReportBlocks(reports), |reports|, row);
    RowIsCell(reports[i], row);
    assert reports[i] in reports;
  }

  lemma DictStems(job: ReportJob, row: ReportRow, dump: seq<Attribute> -> string)
    requires Pulled(job) && row in RunRows(Reports(job))
    ensures var r := Dict(row, dump);
      r["tenant_id"] in TenantOnly(job.tenant) && r["record_id"] in SnapshotsOf(job.report)
  {
    RowStems(job, row);
    DictIsKeyedBy(row, dump);
  }

  lemma ReportCallStems(job: ReportJob, dump: seq<Attribute> -> string)
    requires Pulled(job)
    ensures Stems(RowCall(job, dump), Origin(job.tenant, Some(job.report)))
  {
    var c, rows := RowCall(job, dump), RunRows(Reports(job));
    CallRows(job, dump);
    forall r | r in RowsOfCall(c)
      ensures "tenant_id" in r && r["tenant_id"] in TenantOnly(job.tenant)
      ensures "record_id" in r && r["record_id"] in SnapshotsOf(job.report)
    {
      var n := ImageOrigin(rows, ToDict(dump), r);
      DictStems(job, rows[n], dump);
    }
    assert "tenant_id" == ROW_COLS[0] && "record_id" == ROW_COLS[1];
  }

  lemma {:induction false} SnapshotCallStems(job: ReportJob)
    requires Pulled(job)
    ensures Stems(SnapshotCall(job), Origin(job.tenant, Some(job.report)))
  {
    var c, reports := SnapshotCall(job), Reports(job);
    SnapshotRows(job);
    forall d | d in RowsOfCall(c)
      ensures "tenant_id" in d && d["tenant_id"] in TenantOnly(job.tenant)
      ensures "record_id" in d && d["record_id"] in SnapshotsOf(job.report)
    {
      var i := ImageOrigin(reports, HeaderDict(), d);
      assert reports[i] in reports;
      HeaderKey(reports[i]);
    }
    assert "tenant_id" == SNAPSHOT_COLS[0] && "record_id" == SNAPSHOT_COLS[1];
  }

  // ---- among all other calls -------------------------------------------------------------

  /** The call a job makes into one of the two report tables. */
  function CallInto(job: ReportJob, t: string, dump: seq<Attribute> -> string): Call {
    if t == ROW_TABLE then RowCall(job, dump) else SnapshotCall(job)
  }

  /**
   * Of all calls of a backfill, those into report table `t` are made by report jobs: call `i` by job `maker[i]`, one
   * job for each tenant and report kind, no job twice. Nothing is said of the other calls.
   */
  ghost predicate MadeByReports(calls: seq<Call>, t: string, jobs: seq<ReportJob>, maker: seq<nat>,
                                dump: seq<Attribute> -> string)
  {
    && |maker| == |calls|
    && (forall i :: 0 <= i < |jobs| ==> Pulled(jobs[i]))
    && (forall i, j :: 0 <= i < j < |jobs| ==> jobs[i].tenant != jobs[j].tenant || jobs[i].report != jobs[j].report)
    && (forall i :: 0 <= i < |calls| && calls[i].table == t ==>
      maker[i] < |jobs| && calls[i] == CallInto(jobs[maker[i]], t, dump))
    && forall i, j :: 0 <= i < j < |calls| && calls[i].table == t && calls[j].table == t ==> maker[i] != maker[j]
  }

  lemma {:induction false} ReportCallIsFit(job: ReportJob, t: string, dump: seq<Attribute> -> string)
    requires Pulled(job)
    ensures WellFormed(CallInto(job, t, dump))
    ensures Stems(CallInto(job, t, dump), Origin(job.tenant, Some(job.report)))
  {
    if t == ROW_TABLE {
      RowCallIsWellFormed(job, dump);
      ReportCallStems(job, dump);
    } else {
      SnapshotCallIsWellFormed(job);
      SnapshotCallStems(job);
    }
  }

  /** Both report tables meet the condition of `BackfillIsDeterministic` in every such backfill. */
  lemma {:induction false} ReportTablesAreSeparated(calls: seq<Call>, t: string, jobs: seq<ReportJob>, maker: seq<nat>,
                                                    dump: seq<Attribute> -> string)
    requires t == ROW_TABLE || t == SNAPSHOT_TABLE
    requires MadeByReports(calls, t, jobs, maker, dump)
    ensures SeparatedIn(calls, t)
  {
    var origins := seq(|calls|, i requires 0 <= i < |calls| =>
      if maker[i] < |jobs| then Origin(jobs[maker[i]].tenant, Some(jobs[maker[i]].report)) else Origin("", None));
    forall i | 0 <= i < |calls| && calls[i].table == t ensures WellFormed(calls[i]) && Stems(calls[i], origins[i]) {
      ReportCallIsFit(jobs[maker[i]], t, dump);
    }
    forall i, j | 0 <= i < j < |calls| && calls[i].table == t && calls[j].table == t
      ensures calls[i].cols == calls[j].cols && origins[i] != origins[j]
    {
      assert maker[i] < maker[j] || maker[j] < maker[i];
    }
    JobsAreSeparated(calls, origins, t);
  }

  /**
   * The snapshots and the rows of all reports are the same after any two backfills that read the same report files,
   * whatever other endpoints they include, in whatever order downloads finish and threads merge, if the report calls
   * into the table succeed.
   */
  lemma {:induction false} ReportTablesAreDeterministic(
      jobs: seq<ReportJob>, dump: seq<Attribute> -> string, t: string,
      c: seq<Call>, p: seq<nat>, a: seq<seq<seq<Row>>>, start: map<string, Table<Key, Row>>, us: seq<World<Key, Row>>,
      d: seq<Call>, q: seq<nat>, b: seq<seq<seq<Row>>>, other: map<string, Table<Key, Row>>, vs: seq<World<Key, Row>>)
    requires t == ROW_TABLE || t == SNAPSHOT_TABLE
    requires MadeByReports(c, t, jobs, p, dump) && MadeByReports(d, t, jobs, q, dump)
    requires Includes(c, d, t) && Includes(d, c, t) && RowsOf(start, t) == RowsOf(other, t)
    requires Delivery(c, a) && Run(JobsOf(c, a), start, us) && Finished(JobsOf(c, a), us[|us| - 1].pcs, t)
    requires Delivery(d, b) && Run(JobsOf(d, b), other, vs) && Finished(JobsOf(d, b), vs[|vs| - 1].pcs, t)
    ensures RowsOf(us[|us| - 1].tables, t) == RowsOf(vs[|vs| - 1].tables, t)
  {
    ReportTablesAreSeparated(c, t, jobs, p, dump);
    ReportTablesAreSeparated(d, t, jobs, q, dump);
    BackfillIsDeterministic(c, a, start, us, d, b, other, vs, t);
  }

  // ---- what the report tables hold ---------------------------------------------------------

  /** The columns of `report_rows` and `report_snapshots` outside their keys. */
  const CELL_FACTS: set<string> := {
      "report", "section_title", "row_type", "row_label", "column_header", "cell_value", "attribute_id",
      "attribute_value", "attributes_json"
    }

  const SNAPSHOT_FACTS: set<string> := {"synced_at", "first_seen_at", "report", "run_id"} + COPIED_COLUMNS

  /** `stored` has, outside the key columns, what the report says about its cell at `p`. */
  ghost predicate StoresCell(stored: Row, r: Report, p: Place, dump: seq<Attribute> -> string)
    requires Located(r.rows, p)
  {
    var row := RowAt(r.rows, p.section, p.row).value;
    var cell := row.cells[p.cell];
    && CELL_FACTS <= stored.Keys
    && stored["report"] == Words(r.report)
    && stored["section_title"] == (if p.row == -1 then Null else TextOrNull(r.rows[p.section].title))
    && stored["row_type"] == TextOrNull(row.rowType)
    && stored["row_label"] == TextOrNull(row.cells[0].value)
    && stored["column_header"] == TextOrNull(LabelAt(r.rows, |r.rows|, p.cell))
    && stored["cell_value"] == TextOrNull(cell.value)
    && (cell.attributes == [] ==>
          stored["attribute_id"] == Null && stored["attribute_value"] == Null && stored["attributes_json"] == Null)
    && (cell.attributes != [] ==>
          && stored["attribute_id"] == TextOrNull(cell.attributes[0].id)
          && stored["attribute_value"] == TextOrNull(cell.attributes[0].value)
          && stored["attributes_json"] == Words(dump(cell.attributes)))
  }

  /** `stored` has what the report's header says, NULL where it says nothing. */
  ghost predicate StoresHeader(stored: Row, r: Report) {
    && SNAPSHOT_FACTS <= stored.Keys
    && stored["synced_at"] == Clock(r.syncedAt) && stored["first_seen_at"] == Clock(r.syncedAt)
    && stored["report"] == Words(r.report) && stored["run_id"] == Words(r.runId)
    && forall c :: c in COPIED_COLUMNS ==> stored[c] == if c in r.copied then r.copied[c] else Null
  }

  lemma CellDictFacts(fact: FlatCell, dump: seq<Attribute> -> string)
    ensures var d := CellDict(fact, dump);
      && d["section_title"] == TextOrNull(fact.sectionTitle) && d["row_type"] == TextOrNull(fact.rowType)
      && d["row_label"] == TextOrNull(fact.rowLabel) && d["column_header"] == TextOrNull(fact.columnHeader)
      && d["cell_value"] == TextOrNull(fact.value)
  {
  }

  lemma CellDictAttributes(fact: FlatCell, dump: seq<Attribute> -> string)
    ensures var d := CellDict(fact, dump);
      && d["attribute_id"] == TextOrNull(fact.attributeId) && d["attribute_value"] == TextOrNull(fact.attributeValue)
      && d["attributes_json"] == if fact.attributes == [] then Null else Words(dump(fact.attributes))
    ensures "report" !in CELL_COLUMNS
  {
  }

  lemma DictStoresCell(r: Report, p: Place, dump: seq<Attribute> -> string)
    requires Located(r.rows, p)
    ensures StoresCell(Dict(CellRow(r, p), dump), r, p, dump)
  {
    var fact := FactAt(r.rows, 0, p);
    CellDictFacts(fact, dump);
    CellDictAttributes(fact, dump);
  }

  lemma OwnDictStoresPull(r: Report)
    ensures var d := OwnDict(r);
      && d["synced_at"] == Clock(r.syncedAt) && d["first_seen_at"] == Clock(r.syncedAt)
      && d["report"] == Words(r.report) && d["run_id"] == Words(r.runId)
    ensures OWN_COLUMNS !! COPIED_COLUMNS
  {
  }

  lemma HeaderDictStoresHeader(r: Report)
    ensures StoresHeader(HeaderDict()(r), r)
  {
    OwnDictStoresPull(r);
    var copied, own := Stage(r.copied, COPIED_COLUMNS), OwnDict(r);
    assert HeaderDict()(r) == copied + own;
    assert {"synced_at", "first_seen_at", "report", "run_id"} <= own.Keys;
    forall c | c in COPIED_COLUMNS ensures c !in own && (copied + own)[c] == copied[c] {
    }
  }

  lemma CellFactsAreOutsideKey()
    ensures forall c :: c in CELL_FACTS ==> c in ROW_COLUMNS && c !in ROW_COLS
  {
  }

  lemma SnapshotFactsAreOutsideKey()
    ensures forall c :: c in SNAPSHOT_FACTS ==> c in SNAPSHOT_COLUMNS && c !in SNAPSHOT_COLS
  {
  }

  lemma SameCellFacts(now: Row, latest: Row, r: Report, p: Place, dump: seq<Attribute> -> string)
    requires Located(r.rows, p) && StoresCell(latest, r, p, dump)
    requires forall c :: c in CELL_FACTS ==> c in now && c in latest && now[c] == latest[c]
    ensures StoresCell(now, r, p, dump)
  {
  }

  lemma SameSnapshotFacts(now: Row, latest: Row, r: Report)
    requires StoresHeader(latest, r)
    requires forall c :: c in SNAPSHOT_FACTS ==> c in now && c in latest && now[c] == latest[c]
    ensures StoresHeader(now, r)
  {
  }

  /** A job's rows have distinct keys, so the latest row of a cell's key is the cell's own. */
  lemma {:induction false} LatestIsOwnRow(job: ReportJob, dump: seq<Attribute> -> string, row: ReportRow, j: int)
    requires Pulled(job) && row in RunRows(Reports(job))
    requires 0 <= j < |RowsOfCall(RowCall(job, dump))|
    requires HasKey(RowsOfCall(RowCall(job, dump))[j], ROW_COLS)
    requires KeyOf(RowsOfCall(RowCall(job, dump))[j], ROW_COLS) == KeyColumns(KeyOfRow(row))
    ensures RowsOfCall(RowCall(job, dump))[j] == Dict(row, dump)
  {
    var rows := RunRows(Reports(job));
    CallRows(job, dump);
    RunsHaveOwnKeys(Reports(job));
    DictIsKeyedBy(rows[j], dump);
    KeyOfKeyedBy(Dict(rows[j], dump), KeyOfRow(rows[j]));
    KeyColumnsIdentify(KeyOfRow(rows[j]), KeyOfRow(row));
    var n :| 0 <= n < |rows| && rows[n] == row;
    assert n == j;
  }

  lemma {:induction false} CellIsCalled(job: ReportJob, dump: seq<Attribute> -> string, r: Report, p: Place)
    requires Pulled(job) && r in Reports(job) && Located(r.rows, p)
    ensures CellRow(r, p) in RunRows(Reports(job))
    ensures Dict(CellRow(r, p), dump) in RowsOfCall(RowCall(job, dump))
    ensures KeyedBy(Dict(CellRow(r, p), dump), KeyOfRow(CellRow(r, p)))
  {
    var reports := Reports(job);
    var i :| 0 <= i < |reports| && reports[i] == r;
    RowIsCell(r, CellRow(r, p));
    JoinedHas(ReportBlocks(reports), |reports|, i, CellRow(r, p));
    CallRows(job, dump);
    var rows := RunRows(reports);
    var n :| 0 <= n < |rows| && rows[n] == CellRow(r, p);
    assert Image(rows, ToDict(dump))[n] == Dict(CellRow(r, p), dump);
    DictIsKeyedBy(CellRow(r, p), dump);
  }

  lemma CellStored(was: map<Key, Row>, now: map<Key, Row>, k: Key, r: Report, p: Place, dump: seq<Attribute> -> string)
    requires Located(r.rows, p) && k in now
    requires var latest := Dict(CellRow(r, p), dump);
      if k in was then Overwritten(was[k], latest, now[k], ROW_COLS) else now[k] == latest
    ensures StoresCell(now[k], r, p, dump)
  {
    DictStoresCell(r, p, dump);
    if k in was {
      CellFactsAreOutsideKey();
      SameCellFacts(now[k], Dict(CellRow(r, p), dump), r, p, dump);
    }
  }

  lemma {:induction false} CellOfCallReachesItsRow(
      job: ReportJob, dump: seq<Attribute> -> string, calls: seq<Call>, orders: seq<seq<seq<Row>>>,
      start: map<string, Table<Key, Row>>, ws: seq<World<Key, Row>>, i: nat, r: Report, p: Place)
    requires SeparatedIn(calls, ROW_TABLE) && Delivery(calls, orders)
    requires Run(JobsOf(calls, orders), start, ws) && Finished(JobsOf(calls, orders), ws[|ws| - 1].pcs, ROW_TABLE)
    requires i < |calls| && calls[i] == RowCall(job, dump) && Pulled(job) && r in Reports(job) && Located(r.rows, p)
    ensures var k, now := KeyColumns(KeyOfRow(CellRow(r, p))), RowsOf(ws[|ws| - 1].tables, ROW_TABLE);
      k in now && StoresCell(now[k], r, p, dump)
  {
    var row := CellRow(r, p);
    CellIsCalled(job, dump, r, p);
    KeyOfKeyedBy(Dict(row, dump), KeyOfRow(row));
    var j := BackfillStoresLatest(calls, orders, start, ws, ROW_TABLE, i, Dict(row, dump));
    LatestIsOwnRow(job, dump, row, j);
    CellStored(RowsOf(start, ROW_TABLE), RowsOf(ws[|ws| - 1].tables, ROW_TABLE), KeyColumns(KeyOfRow(row)), r, p, dump);
  }

  /**
   * From the report tree to the table: after a backfill whose calls into `report_rows` succeed, every data cell of
   * every report is stored under its tenant, snapshot and place with everything the tree says about it, whatever was
   * stored there before, in whatever order downloads finished and threads merged.
   */
  lemma {:induction false} EveryCellReachesItsRow(
      jobs: seq<ReportJob>, dump: seq<Attribute> -> string, calls: seq<Call>, maker: seq<nat>,
      orders: seq<seq<seq<Row>>>, start: map<string, Table<Key, Row>>, ws: seq<World<Key, Row>>,
      i: nat, r: Report, p: Place)
    requires MadeByReports(calls, ROW_TABLE, jobs, maker, dump) && Delivery(calls, orders)
    requires Run(JobsOf(calls, orders), start, ws) && Finished(JobsOf(calls, orders), ws[|ws| - 1].pcs, ROW_TABLE)
    requires i < |calls| && calls[i].table == ROW_TABLE && r in Reports(jobs[maker[i]]) && Located(r.rows, p)
    ensures var now := RowsOf(ws[|ws| - 1].tables, ROW_TABLE);
      var k := [Words(r.tenant), Words(r.report + "|" + r.runId), Number(0), Number(p.section), Number(p.row),
                Number(p.cell)];
      k in now && StoresCell(now[k], r, p, dump)
  {
    ReportTablesAreSeparated(calls, ROW_TABLE, jobs, maker, dump);
    CellOfCallReachesItsRow(jobs[maker[i]], dump, calls, orders, start, ws, i, r, p);
  }

  lemma {:induction false} HeaderIsCalled(job: ReportJob, r: Report)
    requires r in Reports(job)
    ensures HeaderDict()(r) in RowsOfCall(SnapshotCall(job))
  {
    SnapshotRows(job);
    var reports := Reports(job);
    var n :| 0 <= n < |reports| && reports[n] == r;
    assert Image(reports, HeaderDict())[n] == HeaderDict()(r);
  }

  /** A job's headers have distinct keys too. */
  lemma {:induction false} LatestIsOwnHeader(job: ReportJob, r: Report, j: int)
    requires Pulled(job) && r in Reports(job) && 0 <= j < |RowsOfCall(SnapshotCall(job))|
    requires HasKey(RowsOfCall(SnapshotCall(job))[j], SNAPSHOT_COLS)
    requires KeyOf(RowsOfCall(SnapshotCall(job))[j], SNAPSHOT_COLS) == [Words(r.tenant), Words(RecordId(r))]
    ensures RowsOfCall(SnapshotCall(job))[j] == HeaderDict()(r)
  {
    var reports := Reports(job);
    SnapshotRows(job);
    HeaderKey(reports[j]);
    var x := KeyOf(HeaderDict()(reports[j]), SNAPSHOT_COLS);
    assert x[0] == Words(r.tenant) && x[1] == Words(RecordId(r));
    var n :| 0 <= n < |reports| && reports[n] == r;
    RecordIdIdentifies(reports[j], reports[n]);
    assert n < j || j < n || n == j;
  }

  lemma HeaderStored(was: map<Key, Row>, now: map<Key, Row>, k: Key, r: Report)
    requires k in now
    requires var latest := HeaderDict()(r);
      if k in was then Overwritten(was[k], latest, now[k], SNAPSHOT_COLS) else now[k] == latest
    ensures StoresHeader(now[k], r)
  {
    HeaderDictStoresHeader(r);
    if k in was {
      SnapshotFactsAreOutsideKey();
      SameSnapshotFacts(now[k], HeaderDict()(r), r);
    }
  }

  lemma {:induction false} HeaderOfCallReachesItsRow(
      job: ReportJob, calls: seq<Call>, orders: seq<seq<seq<Row>>>, start: map<string, Table<Key, Row>>,
      ws: seq<World<Key, Row>>, i: nat, r: Report)
    requires SeparatedIn(calls, SNAPSHOT_TABLE) && Delivery(calls, orders)
    requires Run(JobsOf(calls, orders), start, ws) && Finished(JobsOf(calls, orders), ws[|ws| - 1].pcs, SNAPSHOT_TABLE)
    requires i < |calls| && calls[i] == SnapshotCall(job) && Pulled(job) && r in Reports(job)
    ensures var k, now := [Words(r.tenant), Words(RecordId(r))], RowsOf(ws[|ws| - 1].tables, SNAPSHOT_TABLE);
      k in now && StoresHeader(now[k], r)
  {
    var d := HeaderDict()(r);
    HeaderIsCalled(job, r);
    HeaderKey(r);
    var j := BackfillStoresLatest(calls, orders, start, ws, SNAPSHOT_TABLE, i, d);
    LatestIsOwnHeader(job, r, j);
    HeaderStored(RowsOf(start, SNAPSHOT_TABLE), RowsOf(ws[|ws| - 1].tables, SNAPSHOT_TABLE),
                 [Words(r.tenant), Words(RecordId(r))], r);
  }

  /** Likewise every report's header is stored under its tenant and snapshot. */
  lemma {:induction false} EveryReportReachesItsSnapshot(
      jobs: seq<ReportJob>, dump: seq<Attribute> -> string, calls: seq<Call>, maker: seq<nat>,
      orders: seq<seq<seq<Row>>>, start: map<string, Table<Key, Row>>, ws: seq<World<Key, Row>>, i: nat, r: Report)
    requires MadeByReports(calls, SNAPSHOT_TABLE, jobs, maker, dump) && Delivery(calls, orders)
    requires Run(JobsOf(calls, orders), start, ws) && Finished(JobsOf(calls, orders), ws[|ws| - 1].pcs, SNAPSHOT_TABLE)
    requires i < |calls| && calls[i].table == SNAPSHOT_TABLE && r in Reports(jobs[maker[i]])
    ensures var now := RowsOf(ws[|ws| - 1].tables, SNAPSHOT_TABLE);
      var k := [Words(r.tenant), Words(r.report + "|" + r.runId)];
      k in now && StoresHeader(now[k], r)
  {
    ReportTablesAreSeparated(calls, SNAPSHOT_TABLE, jobs, maker, dump);
    HeaderOfCallReachesItsRow(jobs[maker[i]], calls, orders, start, ws, i, r);
  }
}
