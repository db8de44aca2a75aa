/**
 * A whole backfill from the bucket into staging: every (tenant, endpoint) job collects the rows of its files
 * in whatever order the downloads finish, and the jobs' `merge()` calls race each other on the shared tables.
 */
module WholeBackfill {
  import opened Text
  import opened Blocks
  import opened LatestPerKey
  import opened FileOrder
  import opened KeyedMerge
  import opened Upsert
  import opened MergeProtocol

  /** One `merge()` call of a job: the rows parsed from each of its files. */
  datatype Call = Call(table: string, cols: seq<string>, columns: set<string>, files: seq<seq<Row>>)

  /** The merge call that results when the files are delivered in the given order. */
  function JobOf(c: Call, order: seq<seq<Row>>): Job<Key, Row> {
    Job(c.table, c.columns, Batch(Collected(order), c.cols), SetClause(c.cols))
  }

  /** Some completion order of the downloads of every call. */
  ghost predicate Delivery(calls: seq<Call>, orders: seq<seq<seq<Row>>>) {
    |orders| == |calls| && forall i :: 0 <= i < |calls| ==> multiset(orders[i]) == multiset(calls[i].files)
  }

  /** Every order in which the files of a call can arrive is delivered by some run, whatever the others do. */
  lemma EveryOrderIsDelivered(calls: seq<Call>, orders: seq<seq<seq<Row>>>, i: nat, order: seq<seq<Row>>)
    requires Delivery(calls, orders) && i < |calls| && multiset(order) == multiset(calls[i].files)
    ensures Delivery(calls, orders[i := order])
  {
  }

  function JobsOf(calls: seq<Call>, orders: seq<seq<seq<Row>>>): (jobs: seq<Job<Key, Row>>)
    requires |orders| == |calls|
    ensures |jobs| == |calls|
  {
    seq(|calls|, i requires 0 <= i < |calls| => JobOf(calls[i], orders[i]))
  }

  /** The rows of a call, in the order of its files. */
  function RowsOfCall(c: Call): seq<Row> {
    Collected(c.files)
  }

  /**
   * Rows as `merge()` documents them, which the dedup can compare, and for every key the files that hold a latest row
   * of it would keep the same one.
   */
  ghost predicate WellFormed(c: Call) {
    && Uniform(RowsOfCall(c), c.cols, c.columns) && Datable(RowsOfCall(c), c.cols)
    && FilesAgree(c.files, DedupKey(c.cols), Recency)
  }

  /**
   * The merge call of a job is the same for all completion orders of its downloads exactly when, for every key, the
   * files that hold a latest row of it would keep the same one.
   */
  lemma {:induction false} DeliveryIrrelevantIffFilesAgree(c: Call)
    requires Uniform(RowsOfCall(c), c.cols, c.columns)
    ensures (forall order :: multiset(order) == multiset(c.files) ==> JobOf(c, order) == JobOf(c, c.files))
            <==> FilesAgree(c.files, DedupKey(c.cols), Recency)
  {
    UniformIsPositionFree(RowsOfCall(c), c.cols, c.columns);
    FileOrderIrrelevantIffFilesAgree(c.files, DedupKey(c.cols), Recency);
    forall order ensures JobOf(c, order) == JobOf(c, c.files)
                   <==> Latest(Collected(order), DedupKey(c.cols), Recency)
                        == Latest(Collected(c.files), DedupKey(c.cols), Recency)
    {
    }
  }

  lemma {:induction false} BatchIgnoresDelivery(c: Call, order: seq<seq<Row>>)
    requires WellFormed(c) && multiset(order) == multiset(c.files)
    ensures JobOf(c, order) == JobOf(c, c.files)
  {
    DeliveryIrrelevantIffFilesAgree(c);
  }

  /** Whether the dedup can compare the rows does not depend on the order either. */
  lemma {:induction false} DatableIgnoresDelivery(c: Call, order: seq<seq<Row>>)
    requires Uniform(RowsOfCall(c), c.cols, c.columns) && Datable(RowsOfCall(c), c.cols)
    requires multiset(order) == multiset(c.files)
    ensures Datable(Collected(order), c.cols)
  {
    JoinedPermuted(order, c.files);
    UniformIsPositionFree(RowsOfCall(c), c.cols, c.columns);
    ComparableInAnyOrder(RowsOfCall(c), Collected(order), DedupKey(c.cols), Recency);
  }

  /** No row of one call has the key of a row of the other. */
  ghost predicate KeysApart(c: Call, d: Call)
    requires WellFormed(c) && WellFormed(d)
  {
    forall r, s :: r in RowsOfCall(c) && s in RowsOfCall(d) ==> KeyOf(r, c.cols) != KeyOf(s, d.cols)
  }

  /** The calls into table `t` are well-formed and their keys apart; nothing is asked of calls into other tables. */
  ghost predicate SeparatedIn(calls: seq<Call>, t: string) {
    && (forall i :: 0 <= i < |calls| && calls[i].table == t ==> WellFormed(calls[i]))
    && forall i, j :: 0 <= i < j < |calls| && calls[i].table == t && calls[j].table == t ==>
      KeysApart(calls[i], calls[j])
  }

  lemma {:induction false} BatchesApart(c: Call, d: Call)
    requires WellFormed(c) && WellFormed(d) && KeysApart(c, d)
    ensures JobOf(c, c.files).batch.Keys !! JobOf(d, d.files).batch.Keys
  {
    forall k | k in JobOf(c, c.files).batch && k in JobOf(d, d.files).batch ensures false {
      BatchRow(RowsOfCall(c), c.cols, c.columns, k);
      BatchRow(RowsOfCall(d), d.cols, d.columns, k);
    }
  }

  lemma {:induction false} SeparatedBatches(calls: seq<Call>, orders: seq<seq<seq<Row>>>, t: string)
    requires SeparatedIn(calls, t) && Delivery(calls, orders)
    ensures DisjointIn(JobsOf(calls, orders), t)
  {
    var jobs := JobsOf(calls, orders);
    forall i, j | 0 <= i < j < |jobs| && jobs[i].table == t && jobs[j].table == t
      ensures jobs[i].batch.Keys !! jobs[j].batch.Keys
    {
      BatchIgnoresDelivery(calls[i], orders[i]);
      BatchIgnoresDelivery(calls[j], orders[j]);
      BatchesApart(calls[i], calls[j]);
    }
  }

  /** Every call of `c` into `t`, with its files, is among those of `d`. */
  ghost predicate Includes(d: seq<Call>, c: seq<Call>, t: string) {
    forall i :: 0 <= i < |c| && c[i].table == t ==> c[i] in d
  }

  lemma {:induction false} IncludedCallsCovered(c: seq<Call>, a: seq<seq<seq<Row>>>, d: seq<Call>,
                                                b: seq<seq<seq<Row>>>, t: string)
    requires SeparatedIn(c, t) && Delivery(c, a) && Delivery(d, b) && Includes(d, c, t)
    ensures CallsCovered(JobsOf(c, a), JobsOf(d, b), t)
  {
    var js, ks := JobsOf(c, a), JobsOf(d, b);
    forall i | 0 <= i < |js| && js[i].table == t ensures js[i] in ks {
      var j :| 0 <= j < |d| && d[j] == c[i];
      BatchIgnoresDelivery(c[i], a[i]);
      BatchIgnoresDelivery(d[j], b[j]);
      assert ks[j] == js[i];
    }
  }

  /**
   * Determinism, table by table. Two backfills make the same calls into table `t`, from the same files, and start from
   * the same rows of it. Whatever the completion order of the downloads and the interleaving of the merging threads,
   * and whatever else each of them merges into other tables, with or without ties and failures: if all calls into `t`
   * succeed, both leave the same rows in it.
   */
  lemma {:induction false} BackfillIsDeterministic(
      c: seq<Call>, a: seq<seq<seq<Row>>>, start: map<string, Table<Key, Row>>, us: seq<World<Key, Row>>,
      d: seq<Call>, b: seq<seq<seq<Row>>>, other: map<string, Table<Key, Row>>, vs: seq<World<Key, Row>>, t: string)
    requires SeparatedIn(c, t) && SeparatedIn(d, t) && Includes(c, d, t) && Includes(d, c, t)
    requires Delivery(c, a) && Delivery(d, b) && RowsOf(start, t) == RowsOf(other, t)
    requires Run(JobsOf(c, a), start, us) && Finished(JobsOf(c, a), us[|us| - 1].pcs, t)
    requires Run(JobsOf(d, b), other, vs) && Finished(JobsOf(d, b), vs[|vs| - 1].pcs, t)
    ensures RowsOf(us[|us| - 1].tables, t) == RowsOf(vs[|vs| - 1].tables, t)
  {
    SeparatedBatches(c, a, t);
    SeparatedBatches(d, b, t);
    IncludedCallsCovered(c, a, d, b, t);
    IncludedCallsCovered(d, b, c, a, t);
    ScheduleDoesNotMatter(JobsOf(c, a), start, us, JobsOf(d, b), other, vs, t);
  }

  // ---- what a backfill leaves in a table -----------------------------------------

  /**
   * A job's step in the protocol is the `merge()` call proved in `Upsert`: it names the columns of its rows, and turns
   * the stored rows into what the printed statement leaves of them.
   */
  lemma {:induction false} JobIsItsMergeCall(c: Call, order: seq<seq<Row>>, target: seq<Row>)
    requires Uniform(Collected(order), c.cols, c.columns) && Keyed(target, |target|, MergeKey(c.cols))
    ensures var job, merged := JobOf(c, order), Upsert.Merged(target, Collected(order), c.cols);
      && job.table == c.table
      && (Collected(order) != [] ==> job.columns == ColumnList(Collected(order), c.cols))
      && Keyed(merged, |merged|, MergeKey(c.cols))
      && View(merged, |merged|, MergeKey(c.cols))
         == MergeMaps(View(target, |target|, MergeKey(c.cols)), job.batch, job.upd)
  {
    MergeIsUpsert(target, Collected(order), c.cols);
    UniformIsStagedAsIs(Collected(order), c.cols, c.columns);
  }

  /** Of the rows with its key row `j` is the latest, and the last of those that are as recent. */
  ghost predicate LatestOfKey(rows: seq<Row>, cols: seq<string>, j: int)
    requires forall r :: r in rows ==> HasKey(r, cols)
  {
    && 0 <= j < |rows|
    && forall m :: 0 <= m < |rows| && KeyOf(rows[m], cols) == KeyOf(rows[j], cols) ==>
         NotLater(Recency(rows[m]), Recency(rows[j])) && (j < m ==> Recency(rows[m]) != Recency(rows[j]))
  }

  /** `now` has the columns of `latest` outside the key as `latest` has them, and every other column as `was` has it. */
  ghost predicate Overwritten(was: Row, latest: Row, now: Row, cols: seq<string>) {
    forall col :: var from := if col in latest && col !in cols then latest else was;
      (col in now <==> col in from) && (col in now ==> now[col] == from[col])
  }

  lemma {:induction false} BatchHoldsLatest(rows: seq<Row>, cols: seq<string>, columns: set<string>, r: Row)
    returns (j: int)
    requires Uniform(rows, cols, columns) && r in rows
    ensures LatestOfKey(rows, cols, j) && KeyOf(rows[j], cols) == KeyOf(r, cols)
    ensures KeyOf(r, cols) in Batch(rows, cols) && Batch(rows, cols)[KeyOf(r, cols)] == rows[j]
  {
    var i :| 0 <= i < |rows| && rows[i] == r;
    KeptIsNotEarlier(rows, DedupKey(cols), Recency, i);
    j := LatestIsWinner(rows, DedupKey(cols), Recency, KeyOf(r, cols));
    var es := Entries(rows, DedupKey(cols), Recency);
    assert rows[j] in rows;
    forall m | 0 <= m < |rows| && KeyOf(rows[m], cols) == KeyOf(rows[j], cols)
      ensures NotLater(Recency(rows[m]), Recency(rows[j])) && (j < m ==> Recency(rows[m]) != Recency(rows[j]))
    {
      assert rows[m] in rows;
      assert es[m].key == es[j].key;
    }
  }

  lemma UpdateOverwrites(c: Call, order: seq<seq<Row>>, was: Row, latest: Row)
    ensures Overwritten(was, latest, JobOf(c, order).upd(was, latest), c.cols)
  {
  }

  /** Some row of the call has the key. */
  ghost predicate Brings(c: Call, k: Key)
    requires WellFormed(c)
  {
    exists r :: r in RowsOfCall(c) && KeyOf(r, c.cols) == k
  }

  lemma {:induction false} BatchIsBrought(c: Call, k: Key)
    requires WellFormed(c) && k in Batch(RowsOfCall(c), c.cols)
    ensures Brings(c, k)
  {
    BatchRow(RowsOfCall(c), c.cols, c.columns, k);
    assert Batch(RowsOfCall(c), c.cols)[k] in RowsOfCall(c);
  }

  /**
   * What a backfill leaves in table `t`, if all its calls into it succeed, whatever the completion order of the
   * downloads and the interleaving of the threads: for every row a call brings, the latest row of its key in that call
   * over the columns stored before, or that row itself if the key is new.
   */
  lemma {:induction false} BackfillStoresLatest(
      calls: seq<Call>, orders: seq<seq<seq<Row>>>, start: map<string, Table<Key, Row>>, ws: seq<World<Key, Row>>,
      t: string, i: nat, r: Row) returns (j: int)
    requires SeparatedIn(calls, t) && Delivery(calls, orders)
    requires Run(JobsOf(calls, orders), start, ws) && Finished(JobsOf(calls, orders), ws[|ws| - 1].pcs, t)
    requires i < |calls| && calls[i].table == t && r in RowsOfCall(calls[i])
    ensures LatestOfKey(RowsOfCall(calls[i]), calls[i].cols, j)
    ensures var rows, cols, was, now := RowsOfCall(calls[i]), calls[i].cols, RowsOf(start, t),
        RowsOf(ws[|ws| - 1].tables, t);
      var k := KeyOf(r, cols);
      && KeyOf(rows[j], cols) == k && k in now
      && if k in was then Overwritten(was[k], rows[j], now[k], cols) else now[k] == rows[j]
  {
    var c, jobs := calls[i], JobsOf(calls, orders);
    SeparatedBatches(calls, orders, t);
    BatchIgnoresDelivery(c, orders[i]);
    j := BatchHoldsLatest(RowsOfCall(c), c.cols, c.columns, r);
    var k := KeyOf(r, c.cols);
    var log := FinishedRunSettles(jobs, start, t, ws, k);
    assert i in log && jobs[i] == JobOf(c, c.files);
    if k in RowsOf(start, t) {
      UpdateOverwrites(c, c.files, RowsOf(start, t)[k], RowsOfCall(c)[j]);
    }
  }

  /** And nothing else: a key no call into the table brings is left as it was. */
  lemma {:induction false} BackfillTouchesNothingElse(
      calls: seq<Call>, orders: seq<seq<seq<Row>>>, start: map<string, Table<Key, Row>>, ws: seq<World<Key, Row>>,
      t: string, k: Key)
    requires SeparatedIn(calls, t) && Delivery(calls, orders)
    requires Run(JobsOf(calls, orders), start, ws) && Finished(JobsOf(calls, orders), ws[|ws| - 1].pcs, t)
    requires forall i :: 0 <= i < |calls| && calls[i].table == t ==> !Brings(calls[i], k)
    ensures var was, now := RowsOf(start, t), RowsOf(ws[|ws| - 1].tables, t);
      (k in now <==> k in was) && (k in was ==> now[k] == was[k])
  {
    var jobs := JobsOf(calls, orders);
    SeparatedBatches(calls, orders, t);
    var log := FinishedRunSettles(jobs, start, t, ws, k);
    forall p | 0 <= p < |log| && log[p] < |jobs| ensures k !in jobs[log[p]].batch {
      var i := log[p];
      assert i in log;
      BatchIgnoresDelivery(calls[i], orders[i]);
      if k in jobs[i].batch {
        BatchIsBrought(calls[i], k);
      }
    }
  }

  // ---- why the jobs' keys are apart --------------------------------------------

  /** Every row of the call has one of these values in the column. */
  ghost predicate Confined(c: Call, column: string, values: iset<Value>) {
    column in c.cols && forall r :: r in RowsOfCall(c) ==> column in r && r[column] in values
  }

  /** A key column in which two calls hold no value in common keeps their keys apart. */
  lemma ColumnSeparates(c: Call, d: Call, column: string, x: iset<Value>, y: iset<Value>)
    requires WellFormed(c) && WellFormed(d) && c.cols == d.cols
    requires Confined(c, column, x) && Confined(d, column, y) && x !! y
    ensures KeysApart(c, d)
  {
    var i :| 0 <= i < |c.cols| && c.cols[i] == column;
    forall r, s | r in RowsOfCall(c) && s in RowsOfCall(d) ensures KeyOf(r, c.cols) != KeyOf(s, d.cols) {
      assert KeyOf(r, c.cols)[i] == r[column] && KeyOf(s, d.cols)[i] == s[column];
    }
  }

  /** The values a job's rows may have in `tenant_id`. */
  ghost function TenantOnly(tenant: string): iset<Value> {
    iset{Words(tenant)}
  }

  /** The snapshot ids of one report kind: `<report>|<run>`. */
  ghost function SnapshotsOf(report: string): iset<Value> {
    iset v: Value | v.Words? && (report + "|") <= v.text
  }

  lemma ReportsHaveOwnSnapshots(r: string, s: string)
    requires r != s && Without(r, '|') && Without(s, '|')
    ensures SnapshotsOf(r) !! SnapshotsOf(s)
  {
    forall v | v in SnapshotsOf(r) && v in SnapshotsOf(s) ensures false {
      assert "|" == ['|'];
      var x, y := v.text[|r| + 1..], v.text[|s| + 1..];
      assert v.text == r + ['|'] + x && v.text == s + ['|'] + y;
      SplitFirst(r, x, s, y, '|');
    }
  }

  /** A job of the backfill and the merge call it makes: `report` is set for the shared report tables only. */
  datatype Origin = Origin(tenant: string, report: Option<string>)

  ghost predicate Stems(c: Call, o: Origin) {
    && Confined(c, "tenant_id", TenantOnly(o.tenant))
    && (o.report.Some? ==> Without(o.report.value, '|') && Confined(c, "record_id", SnapshotsOf(o.report.value)))
  }

  /**
   * Header and report tables meet the condition of `BackfillIsDeterministic`: the calls into one of them use the same
   * key columns, and come from different tenants or, for the report tables, from different report kinds.
   */
  lemma {:induction false} JobsAreSeparated(calls: seq<Call>, origins: seq<Origin>, t: string)
    requires |origins| == |calls|
    requires forall i :: 0 <= i < |calls| && calls[i].table == t ==> WellFormed(calls[i]) && Stems(calls[i], origins[i])
    requires forall i, j :: 0 <= i < j < |calls| && calls[i].table == t && calls[j].table == t ==>
      && calls[i].cols == calls[j].cols
      && origins[i].report.Some? == origins[j].report.Some?
      && origins[i] != origins[j]
    ensures SeparatedIn(calls, t)
  {
    forall i, j | 0 <= i < j < |calls| && calls[i].table == t && calls[j].table == t
      ensures KeysApart(calls[i], calls[j])
    {
      StemsApart(calls[i], origins[i], calls[j], origins[j]);
    }
  }

  lemma {:induction false} StemsApart(c: Call, o: Origin, d: Call, p: Origin)
    requires WellFormed(c) && WellFormed(d) && c.cols == d.cols && Stems(c, o) && Stems(d, p)
    requires o.report.Some? == p.report.Some? && o != p
    ensures KeysApart(c, d)
  {
    if o.tenant != p.tenant {
      ColumnSeparates(c, d, "tenant_id", TenantOnly(o.tenant), TenantOnly(p.tenant));
    } else {
      ReportsHaveOwnSnapshots(o.report.value, p.report.value);
      ColumnSeparates(c, d, "record_id", SnapshotsOf(o.report.value), SnapshotsOf(p.report.value));
    }
  }

  /** Rows with distinct keys are well-formed however they are delivered: they never tie, and are never compared. */
  lemma DistinctKeysNeverMeet(rows: seq<Row>, cols: seq<string>)
    requires forall i, j :: 0 <= i < j < |rows| ==> DedupKey(cols)(rows[i], i) != DedupKey(cols)(rows[j], j)
    ensures TopsAgree(rows, DedupKey(cols), Recency) && Datable(rows, cols)
  {
    var es := Entries(rows, DedupKey(cols), Recency);
    ComparableMeans(es, |rows|);
    forall i, j | IsTop(es, |es|, i) && IsTop(es, |es|, j) && es[i].key == es[j].key ensures i == j {
    }
  }

  lemma {:induction false} DistinctKeysAreWellFormed(c: Call)
    requires Uniform(RowsOfCall(c), c.cols, c.columns)
    requires forall i, j :: 0 <= i < j < |RowsOfCall(c)| ==>
      DedupKey(c.cols)(RowsOfCall(c)[i], i) != DedupKey(c.cols)(RowsOfCall(c)[j], j)
    ensures WellFormed(c)
  {
    UniformIsPositionFree(RowsOfCall(c), c.cols, c.columns);
    DistinctKeysNeverMeet(RowsOfCall(c), c.cols);
    NoTiesMeansFilesAgree(c.files, DedupKey(c.cols), Recency);
  }
}
