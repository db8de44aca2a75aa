/**
 * The staging writer's upsert: one row per key out of a batch, latest `synced_at` first, then a
 * MERGE into the target. `MergeRows` is the SQL statement on plain row lists; `MergeMaps` is the
 * one-row-per-key view it refines once both sides have unique, non-null keys.
 */
module Upsert {
  import opened Text
  import opened Timestamps
  import opened LatestPerKey
  import opened KeyedMerge

  datatype Value = Null | Words(text: string) | Number(n: int) | Clock(at: Instant)

  /** A row; a column that is absent reads as NULL. */
  type Row = map<string, Value>
  type Key = seq<Value>

  const SYNCED_AT := "synced_at"

  /** `_ts`: a datetime is its ISO text; absent, null, empty and zero are the empty text; a number is itself. */
  function Recency(row: Row): Stamp {
    if SYNCED_AT !in row then InText("")
    else match row[SYNCED_AT]
      case Words(text) => InText(text)
      case Clock(at) => InText(Iso(at))
      case Number(n) => if n == 0 then InText("") else InNumber(n)
      case Null => InText("")
  }

  predicate HasKey(row: Row, cols: seq<string>) {
    forall c :: c in cols ==> c in row
  }

  function KeyOf(row: Row, cols: seq<string>): (k: Key)
    requires HasKey(row, cols)
    ensures |k| == |cols|
  {
    seq(|cols|, i requires 0 <= i < |cols| => row[cols[i]])
  }

  /** A key MERGE can match: every key column present and not NULL. */
  predicate Sound(row: Row, cols: seq<string>) {
    HasKey(row, cols) && forall c :: c in cols ==> row[c] != Null
  }

  /** The key a row at position `i` gets when it lacks a key column. */
  function Marker(i: int): Key {
    [Words("__nokey__"), Number(i)]
  }

  function DedupKey(cols: seq<string>): (Row, int) -> Key {
    (row: Row, i: int) => if HasKey(row, cols) then KeyOf(row, cols) else Marker(i)
  }

  /** The dedup compares no text with a number; see `ComparableMeans`. */
  predicate Datable(rows: seq<Row>, cols: seq<string>) {
    Comparable(Entries(rows, DedupKey(cols), Recency), |rows|)
  }

  /** `BQWriter._dedup_by_key`; `None` where it raises. */
  method DedupByKey(rows: seq<Row>, cols: seq<string>) returns (kept: Option<seq<Row>>)
    ensures kept.Some? <==> Datable(rows, cols)
    ensures kept.Some? ==> kept.value == Dedup(rows, DedupKey(cols), Recency)
  {
    kept := DedupRows(rows, DedupKey(cols), Recency);
  }

  lemma DatableMeans(rows: seq<Row>, cols: seq<string>)
    ensures Datable(rows, cols) <==> OneKindPerKey(Entries(rows, DedupKey(cols), Recency), |rows|)
  {
    ComparableMeans(Entries(rows, DedupKey(cols), Recency), |rows|);
  }

  /** The row has a number for `synced_at` that Python does not take for a missing value. */
  predicate HasNumber(row: Row) {
    SYNCED_AT in row && row[SYNCED_AT].Number? && row[SYNCED_AT].n != 0
  }

  /** The row has no `synced_at`, or one that Python takes for a missing value. */
  predicate HasNoTime(row: Row) {
    SYNCED_AT in row ==>
      row[SYNCED_AT].Null? || row[SYNCED_AT] == Words("") || row[SYNCED_AT] == Number(0)
  }

  /**
   * How the dedup compares two rows: numbers by value, texts as texts, datetimes by time, a text with a datetime as its
   * ISO form; a row without a time is earlier than any text or datetime.
   */
  lemma RecencyMeans(a: Row, b: Row)
    ensures HasNumber(a) <==> Recency(a).InNumber?
    ensures HasNoTime(a) && HasNoTime(b) ==> Recency(a) == Recency(b)
    ensures HasNoTime(a) && !HasNoTime(b) && !HasNumber(b) ==>
      NotLater(Recency(a), Recency(b)) && !NotLater(Recency(b), Recency(a))
    ensures HasNumber(a) && HasNumber(b) ==>
      (NotLater(Recency(a), Recency(b)) <==> a[SYNCED_AT].n <= b[SYNCED_AT].n)
    ensures SYNCED_AT in a && SYNCED_AT in b ==>
      match (a[SYNCED_AT], b[SYNCED_AT])
      case (Words(x), Words(y)) => NotLater(Recency(a), Recency(b)) <==> Le(x, y)
      case (Words(x), Clock(y)) => NotLater(Recency(a), Recency(b)) <==> Le(x, Iso(y))
      case (Clock(x), Words(y)) => NotLater(Recency(a), Recency(b)) <==> Le(Iso(x), y)
      case (Clock(x), Clock(y)) => NotLater(Recency(a), Recency(b)) <==> Micros(x) <= Micros(y)
      case _ => true
  {
    if SYNCED_AT in a && SYNCED_AT in b && a[SYNCED_AT].Clock? && b[SYNCED_AT].Clock? {
      IsoOrderIsChronological(a[SYNCED_AT].at, b[SYNCED_AT].at);
    }
    IsoIsNotEmpty(b);
  }

  lemma IsoIsNotEmpty(row: Row)
    ensures SYNCED_AT in row && row[SYNCED_AT].Clock? ==> Iso(row[SYNCED_AT].at) != ""
  {
  }

  /** Rows `i` and `j` have one key, and only the first a number for `synced_at`. */
  ghost predicate KindsMix(rows: seq<Row>, cols: seq<string>, i: int, j: int)
    requires 0 <= i < |rows| && 0 <= j < |rows|
  {
    && DedupKey(cols)(rows[i], i) == DedupKey(cols)(rows[j], j)
    && HasNumber(rows[i]) && !HasNumber(rows[j])
  }

  lemma MixedIsNotDatable(rows: seq<Row>, cols: seq<string>, i: int, j: int)
    requires 0 <= i < |rows| && 0 <= j < |rows| && KindsMix(rows, cols, i, j)
    ensures !Datable(rows, cols)
  {
    var es := Entries(rows, DedupKey(cols), Recency);
    DatableMeans(rows, cols);
    RecencyMeans(rows[i], rows[j]);
    RecencyMeans(rows[j], rows[i]);
    assert es[i].key == es[j].key && i != j;
  }

  lemma NotDatableMixes(rows: seq<Row>, cols: seq<string>) returns (i: int, j: int)
    requires !Datable(rows, cols)
    ensures 0 <= i < |rows| && 0 <= j < |rows| && KindsMix(rows, cols, i, j)
  {
    var es := Entries(rows, DedupKey(cols), Recency);
    DatableMeans(rows, cols);
    i, j :| 0 <= i < j < |rows| && es[i].key == es[j].key && !SameKind(es[i].stamp, es[j].stamp);
    if es[i].stamp.InText? {
      i, j := j, i;
    }
    RecencyMeans(rows[i], rows[j]);
    RecencyMeans(rows[j], rows[i]);
  }

  /** The dedup raises exactly when, of two rows of one key, one has a number for `synced_at` and the other has not. */
  lemma DedupRaisesIffKindsMix(rows: seq<Row>, cols: seq<string>)
    ensures !Datable(rows, cols) <==>
              exists i, j :: 0 <= i < |rows| && 0 <= j < |rows| && KindsMix(rows, cols, i, j)
  {
    if !Datable(rows, cols) {
      var i, j := NotDatableMixes(rows, cols);
    }
    forall i, j | 0 <= i < |rows| && 0 <= j < |rows| && KindsMix(rows, cols, i, j) ensures !Datable(rows, cols) {
      MixedIsNotDatable(rows, cols, i, j);
    }
  }

  /** A row whose real key is the marker of position `i`, and which the dedup would prefer to the row there. */
  predicate Impostor(rows: seq<Row>, cols: seq<string>, i: int, j: int)
    requires 0 <= i < |rows| && 0 <= j < |rows|
  {
    && HasKey(rows[j], cols) && KeyOf(rows[j], cols) == Marker(i)
    && if j < i then !NotLater(Recency(rows[j]), Recency(rows[i])) else NotLater(Recency(rows[i]), Recency(rows[j]))
  }

  /**
   * Rows lacking a key column are meant to be always kept: one is, exactly when no real key looks like its marker and
   * wins.
   */
  lemma KeylessRowKeptIffNoImpostor(rows: seq<Row>, cols: seq<string>, i: nat)
    requires i < |rows| && !HasKey(rows[i], cols)
    ensures IsWinner(Entries(rows, DedupKey(cols), Recency), |rows|, i)
            <==> forall j :: 0 <= j < |rows| ==> !Impostor(rows, cols, i, j)
  {
    var es := Entries(rows, DedupKey(cols), Recency);
    StampTotal(Recency(rows[i]), Recency(rows[i]));
    forall j | 0 <= j < |rows| ensures es[j].key == es[i].key
        <==> j == i || (HasKey(rows[j], cols) && KeyOf(rows[j], cols) == Marker(i)) {
      MarkersDiffer(i, j);
    }
    forall j | 0 <= j < |rows| {
      StampTotal(Recency(rows[i]), Recency(rows[j]));
    }
    if forall j :: 0 <= j < |rows| ==> !Impostor(rows, cols, i, j) {
      forall j | 0 <= j < |rows| && es[j].key == es[i].key ensures NotLater(es[j].stamp, es[i].stamp) {
        assert !Impostor(rows, cols, i, j);
      }
      forall j | i < j < |rows| && es[j].key == es[i].key ensures es[j].stamp != es[i].stamp {
        assert !Impostor(rows, cols, i, j);
      }
    }
  }

  lemma MarkersDiffer(i: int, j: int)
    ensures Marker(i) == Marker(j) <==> i == j
  {
    assert Marker(i)[1] == Number(i) && Marker(j)[1] == Number(j);
  }

  /** A row without a key is lost to a row whose key columns spell its marker. */
  lemma KeylessRowCanBeLost(keyless: Row, a: string, b: string)
    requires a != b && a !in keyless && SYNCED_AT !in keyless && SYNCED_AT != a && SYNCED_AT != b
    ensures var rows := [keyless, map[a := Words("__nokey__"), b := Number(0)]];
      !IsWinner(Entries(rows, DedupKey([a, b]), Recency), 2, 0)
  {
    var rows := [keyless, map[a := Words("__nokey__"), b := Number(0)]];
    var cols := [a, b];
    assert a in cols && !HasKey(rows[0], cols);
    assert KeyOf(rows[1], cols) == Marker(0);
    assert Impostor(rows, cols, 0, 1);
    KeylessRowKeptIffNoImpostor(rows, cols, 0);
  }

  // ---- the MERGE statement ---------------------------------------------------

  /** `T.c = S.c` for every key column; a comparison with NULL is never true. */
  predicate OnClause(t: Row, s: Row, cols: seq<string>) {
    forall c :: c in cols ==> c in t && c in s && t[c] == s[c] && t[c] != Null
  }

  function MergeKey(cols: seq<string>): Row -> Option<Key> {
    (row: Row) => if Sound(row, cols) then Some(KeyOf(row, cols)) else None
  }

  /** `UPDATE SET T.c = S.c` for every non-key column of the batch. */
  function SetClause(cols: seq<string>): (Row, Row) -> Row {
    (t: Row, s: Row) => t + (s - set c | c in cols)
  }

  /** The ON clause holds exactly when the rows share a usable key. */
  lemma OnClauseIsKeyMatch(t: Row, s: Row, cols: seq<string>)
    requires cols != []
    ensures OnClause(t, s, cols) <==> Same(t, s, MergeKey(cols))
  {
    if OnClause(t, s, cols) {
      assert KeyOf(t, cols) == KeyOf(s, cols);
    }
    if Same(t, s, MergeKey(cols)) {
      forall c | c in cols ensures t[c] == s[c] {
        var i :| 0 <= i < |cols| && cols[i] == c;
        assert KeyOf(t, cols)[i] == KeyOf(s, cols)[i];
      }
    }
  }

  lemma KeysSurviveUpdates(cols: seq<string>)
    ensures KeepsKeys(MergeKey(cols), SetClause(cols))
    ensures Settles(SetClause(cols))
  {
    forall t: Row, s: Row
        ensures MergeKey(cols)(SetClause(cols)(t, s)) == MergeKey(cols)(t) || !Same(t, s, MergeKey(cols)) {
      if Sound(t, cols) {
        assert KeyOf(SetClause(cols)(t, s), cols) == KeyOf(t, cols);
      }
    }
    forall t: Row, s: Row ensures SetClause(cols)(SetClause(cols)(t, s), s) == SetClause(cols)(t, s) {
      var sets := s - set c | c in cols;
      assert (t + sets) + sets == t + sets;
    }
    forall s: Row ensures SetClause(cols)(s, s) == s {
      assert s + (s - set c | c in cols) == s;
    }
  }

  lemma DedupRowsAreLatest<R, K>(rows: seq<R>, keyAt: (R, int) -> K, stamp: R -> Stamp, key: R -> Option<K>)
    requires forall r, i :: r in rows ==> key(r) == Some(keyAt(r, i))
    ensures var kept, lv := Dedup(rows, keyAt, stamp), Latest(rows, keyAt, stamp);
      && Keyed(kept, |kept|, key)
      && forall n :: 0 <= n < |kept| ==>
        key(kept[n]).Some? && key(kept[n]).value in lv && lv[key(kept[n]).value] == kept[n]
  {
    var kept, lv := Dedup(rows, keyAt, stamp), Latest(rows, keyAt, stamp);
    var es := Entries(rows, keyAt, stamp);
    var first, from := DedupKeepsLatest(rows, keyAt, stamp);
    forall n | 0 <= n < |kept|
      ensures key(kept[n]) == Some(es[first[n]].key)
      ensures es[first[n]].key in lv && lv[es[first[n]].key] == kept[n]
    {
      assert rows[from[n]] in rows && rows[first[n]] in rows;
      WinnerUnique(es, |rows|, from[n]);
    }
    forall n, m | 0 <= n < m < |kept| ensures key(kept[n]) != key(kept[m]) {
      assert AppearsFirstAt(es, first[m]);
    }
    KeyedMeans(kept, |kept|, key);
  }

  /** Deduplicating rows with usable keys leaves a keyed batch: the latest row of every key. */
  lemma DedupIsKeyed<R, K(!new)>(rows: seq<R>, keyAt: (R, int) -> K, stamp: R -> Stamp, key: R -> Option<K>)
    requires forall r, i :: r in rows ==> key(r) == Some(keyAt(r, i))
    ensures var kept := Dedup(rows, keyAt, stamp);
      Keyed(kept, |kept|, key) && View(kept, |kept|, key) == Latest(rows, keyAt, stamp)
  {
    var kept, lv := Dedup(rows, keyAt, stamp), Latest(rows, keyAt, stamp);
    DedupRowsAreLatest(rows, keyAt, stamp, key);
    var v := View(kept, |kept|, key);
    forall k | k in v ensures k in lv && v[k] == lv[k] {
      var n := KeyPosition(kept, |kept|, key, k);
    }
    forall k | k in lv ensures k in v {
      var n := KeyPosition(kept, |kept|, key, k);
      var j := LatestIsWinner(rows, keyAt, stamp, k);
      var m, i := DedupLosesNoKey(rows, keyAt, stamp, j);
      assert rows[i] in rows && key(kept[m]) == Some(k);
    }
    assert v.Keys == lv.Keys;
  }

  function Batch(rows: seq<Row>, cols: seq<string>): map<Key, Row> {
    Latest(rows, DedupKey(cols), Recency)
  }

  // ---- the statement's column list ----------------------------------------------

  /** The columns `merge()` names in its statement: those of the first row the dedup keeps. */
  function ColumnList(rows: seq<Row>, cols: seq<string>): set<string> {
    var kept := Dedup(rows, DedupKey(cols), Recency);
    if kept == [] then {} else kept[0].Keys
  }

  /** A row as the statement sees it: exactly the named columns, NULL where the row has none. */
  function Stage(row: Row, columns: set<string>): Row {
    map c | c in columns :: if c in row then row[c] else Null
  }

  function StageAll(kept: seq<Row>, columns: set<string>): (staged: seq<Row>)
    ensures |staged| == |kept|
  {
    seq(|kept|, i requires 0 <= i < |kept| => Stage(kept[i], columns))
  }

  /** The source of the MERGE statement. */
  function Source(rows: seq<Row>, cols: seq<string>): seq<Row> {
    StageAll(Dedup(rows, DedupKey(cols), Recency), ColumnList(rows, cols))
  }

  /** The latest row of every key, as the statement sees it. */
  function StagedBatch(rows: seq<Row>, cols: seq<string>): map<Key, Row> {
    var batch := Batch(rows, cols);
    map k | k in batch :: Stage(batch[k], ColumnList(rows, cols))
  }

  lemma StageKeepsKey(row: Row, columns: set<string>, cols: seq<string>)
    requires forall c :: c in cols ==> c in columns
    ensures MergeKey(cols)(Stage(row, columns)) == MergeKey(cols)(row)
  {
    var staged := Stage(row, columns);
    if Sound(staged, cols) {
      forall c | c in cols ensures c in row && row[c] == staged[c] {
        assert staged[c] != Null;
      }
      assert KeyOf(staged, cols) == KeyOf(row, cols);
    } else {
      var c :| c in cols && (c !in staged || staged[c] == Null);
      assert !Sound(row, cols);
    }
  }

  lemma StagedSoundIsSound(row: Row, columns: set<string>, cols: seq<string>)
    requires Sound(Stage(row, columns), cols)
    ensures Sound(row, cols) && KeyOf(row, cols) == KeyOf(Stage(row, columns), cols)
  {
    forall c | c in cols ensures c in columns {
      assert c in Stage(row, columns);
    }
    StageKeepsKey(row, columns, cols);
  }

  lemma ColumnListHasKey(rows: seq<Row>, cols: seq<string>)
    requires rows != [] && forall r :: r in rows ==> HasKey(r, cols)
    ensures forall c :: c in cols ==> c in ColumnList(rows, cols)
  {
    var kept := Dedup(rows, DedupKey(cols), Recency);
    KeptAreRows(rows, DedupKey(cols), Recency);
    assert kept[0] in kept;
  }

  lemma StageAllIsIdentity(kept: seq<Row>, columns: set<string>)
    requires forall r :: r in kept ==> r.Keys == columns
    ensures StageAll(kept, columns) == kept
  {
    forall n | 0 <= n < |kept| ensures Stage(kept[n], columns) == kept[n] {
      assert kept[n] in kept;
    }
  }

  lemma StageMapIsIdentity(batch: map<Key, Row>, columns: set<string>)
    requires forall k :: k in batch ==> batch[k].Keys == columns
    ensures (map k | k in batch :: Stage(batch[k], columns)) == batch
  {
    forall k | k in batch ensures Stage(batch[k], columns) == batch[k] {
    }
  }

  lemma UniformColumnList(rows: seq<Row>, cols: seq<string>, columns: set<string>)
    requires rows != [] && forall r :: r in rows ==> r.Keys == columns
    ensures ColumnList(rows, cols) == columns
  {
    var kept := Dedup(rows, DedupKey(cols), Recency);
    KeptAreRows(rows, DedupKey(cols), Recency);
    assert kept[0] in kept;
  }

  /** With the same columns in every row the statement sees the kept rows as they are. */
  lemma UniformIsStagedAsIs(rows: seq<Row>, cols: seq<string>, columns: set<string>)
    requires forall r :: r in rows ==> r.Keys == columns
    ensures rows != [] ==> ColumnList(rows, cols) == columns
    ensures Source(rows, cols) == Dedup(rows, DedupKey(cols), Recency)
    ensures StagedBatch(rows, cols) == Batch(rows, cols)
  {
    KeptAreRows(rows, DedupKey(cols), Recency);
    LatestAreRows(rows, DedupKey(cols), Recency);
    if rows != [] {
      UniformColumnList(rows, cols, columns);
      StageAllIsIdentity(Dedup(rows, DedupKey(cols), Recency), columns);
      StageMapIsIdentity(Batch(rows, cols), columns);
    }
  }

  /** Staging with every key column keeps a list of rows keyed, and stages its view. */
  lemma StagedView(kept: seq<Row>, columns: set<string>, cols: seq<string>)
    requires forall c :: c in cols ==> c in columns
    requires Keyed(kept, |kept|, MergeKey(cols))
    ensures var staged, view := StageAll(kept, columns), View(kept, |kept|, MergeKey(cols));
      && Keyed(staged, |staged|, MergeKey(cols))
      && View(staged, |staged|, MergeKey(cols)) == map k | k in view :: Stage(view[k], columns)
  {
    var staged := StageAll(kept, columns);
    forall n | 0 <= n < |kept| ensures MergeKey(cols)(staged[n]) == MergeKey(cols)(kept[n]) {
      StageKeepsKey(kept[n], columns, cols);
    }
    ViewOfImages(kept, staged, |kept|, MergeKey(cols), row => Stage(row, columns));
  }

  lemma SourceIsKeyed(rows: seq<Row>, cols: seq<string>)
    requires forall r :: r in rows ==> Sound(r, cols)
    ensures var source := Source(rows, cols);
      Keyed(source, |source|, MergeKey(cols)) && View(source, |source|, MergeKey(cols)) == StagedBatch(rows, cols)
  {
    DedupIsKeyed(rows, DedupKey(cols), Recency, MergeKey(cols));
    if rows == [] {
      UniformIsStagedAsIs(rows, cols, {});
    } else {
      ColumnListHasKey(rows, cols);
      StagedView(Dedup(rows, DedupKey(cols), Recency), ColumnList(rows, cols), cols);
    }
  }

  // ---- the statement ---------------------------------------------------------------

  /** `UPDATE SET` for the listed columns outside the key. */
  function SetListed(columns: set<string>, cols: seq<string>): (Row, Row) -> Row {
    (t: Row, s: Row) => SetClause(cols)(t, Stage(s, columns))
  }

  /**
   * The MERGE statement as it is printed: rows match on the key columns of the temp table; updates and inserts name the
   * listed columns only, whether or not the key columns are among them.
   */
  function MergeStatement(target: seq<Row>, kept: seq<Row>, columns: set<string>, cols: seq<string>): seq<Row> {
    UpdateAll(target, kept, MergeKey(cols), SetListed(columns, cols))
    + StageAll(Inserts(target, kept, |kept|, MergeKey(cols)), columns)
  }

  /** What a successful `merge()` leaves in the target. */
  function Merged(target: seq<Row>, rows: seq<Row>, cols: seq<string>): seq<Row> {
    MergeStatement(target, Dedup(rows, DedupKey(cols), Recency), ColumnList(rows, cols), cols)
  }

  lemma StagedKeys(kept: seq<Row>, columns: set<string>, cols: seq<string>)
    requires kept == [] || forall c :: c in cols ==> c in columns
    ensures forall i :: 0 <= i < |kept| ==> MergeKey(cols)(StageAll(kept, columns)[i]) == MergeKey(cols)(kept[i])
  {
    forall i | 0 <= i < |kept| ensures MergeKey(cols)(StageAll(kept, columns)[i]) == MergeKey(cols)(kept[i]) {
      StageKeepsKey(kept[i], columns, cols);
    }
  }

  lemma InsertsStaged(target: seq<Row>, kept: seq<Row>, columns: set<string>, cols: seq<string>)
    requires kept == [] || forall c :: c in cols ==> c in columns
    ensures StageAll(Inserts(target, kept, |kept|, MergeKey(cols)), columns)
            == Inserts(target, StageAll(kept, columns), |kept|, MergeKey(cols))
  {
    StagedKeys(kept, columns, cols);
    InsertsOfImages(target, kept, StageAll(kept, columns), |kept|, MergeKey(cols), row => Stage(row, columns));
  }

  lemma UpdatesStaged(target: seq<Row>, kept: seq<Row>, columns: set<string>, cols: seq<string>)
    requires kept == [] || forall c :: c in cols ==> c in columns
    ensures UpdateAll(target, kept, MergeKey(cols), SetListed(columns, cols))
            == UpdateAll(target, StageAll(kept, columns), MergeKey(cols), SetClause(cols))
  {
    StagedKeys(kept, columns, cols);
    forall i | 0 <= i < |target|
      ensures UpdateAll(target, kept, MergeKey(cols), SetListed(columns, cols))[i]
              == UpdateAll(target, StageAll(kept, columns), MergeKey(cols), SetClause(cols))[i]
    {
      MatchInImages(target[i], kept, StageAll(kept, columns), |kept|, MergeKey(cols), row => Stage(row, columns));
    }
  }

  /** When the list has the key columns, the statement is the plain MERGE of the rows cut to the list. */
  lemma StatementMergesStaged(target: seq<Row>, kept: seq<Row>, columns: set<string>, cols: seq<string>)
    requires kept == [] || forall c :: c in cols ==> c in columns
    ensures MergeStatement(target, kept, columns, cols)
            == MergeRows(target, StageAll(kept, columns), MergeKey(cols), SetClause(cols))
  {
    InsertsStaged(target, kept, columns, cols);
    UpdatesStaged(target, kept, columns, cols);
  }

  lemma ListHasKeyColumns(rows: seq<Row>, cols: seq<string>)
    requires forall r :: r in Dedup(rows, DedupKey(cols), Recency) ==> HasKey(r, cols)
    ensures Dedup(rows, DedupKey(cols), Recency) == [] || forall c :: c in cols ==> c in ColumnList(rows, cols)
  {
    var kept := Dedup(rows, DedupKey(cols), Recency);
    if kept != [] {
      assert kept[0] in kept;
    }
  }

  /** BigQuery never finds two source rows for one target row, whatever the batch. */
  lemma NeverAmbiguous(target: seq<Row>, rows: seq<Row>, cols: seq<string>)
    ensures !Ambiguous(target, Dedup(rows, DedupKey(cols), Recency), MergeKey(cols))
  {
    var kept := Dedup(rows, DedupKey(cols), Recency);
    forall j, k | 0 <= j < k < |kept| && Sound(kept[j], cols) && Sound(kept[k], cols)
      ensures KeyOf(kept[j], cols) != KeyOf(kept[k], cols)
    {
      KeptKeysDiffer(rows, cols, j, k);
    }
  }

  /**
   * `merge()` is a true upsert: from a table with unique keys, any batch with usable keys gives a table
   * with unique keys that holds, for every key of the batch, its latest row over the old one, and
   * everything else unchanged.
   */
  lemma MergeIsUpsert(target: seq<Row>, rows: seq<Row>, cols: seq<string>)
    requires Keyed(target, |target|, MergeKey(cols))
    requires forall r :: r in rows ==> Sound(r, cols)
    ensures var merged := Merged(target, rows, cols);
      && Keyed(merged, |merged|, MergeKey(cols))
      && View(merged, |merged|, MergeKey(cols))
         == MergeMaps(View(target, |target|, MergeKey(cols)), StagedBatch(rows, cols), SetClause(cols))
  {
    KeptAreRows(rows, DedupKey(cols), Recency);
    ListHasKeyColumns(rows, cols);
    StatementMergesStaged(target, Dedup(rows, DedupKey(cols), Recency), ColumnList(rows, cols), cols);
    SourceIsKeyed(rows, cols);
    KeysSurviveUpdates(cols);
    MergeRefinesView(target, Source(rows, cols), MergeKey(cols), SetClause(cols));
  }

  // ---- laws of the upsert ------------------------------------------------------

  /**
   * What an upsert does to a stored row: rows of other keys, key columns, and columns the first kept row of the batch
   * does not have keep their value; every other column takes the value of the key's latest row, NULL if that row lacks
   * it.
   */
  lemma UpsertTouchesListedColumnsOnly(m: map<Key, Row>, rows: seq<Row>, cols: seq<string>, k: Key, c: string)
    requires k in m
    ensures var batch, merged := Batch(rows, cols), MergeMaps(m, StagedBatch(rows, cols), SetClause(cols));
      && k in merged
      && if k in batch && c in ColumnList(rows, cols) && c !in cols
         then c in merged[k] && merged[k][c] == if c in batch[k] then batch[k][c] else Null
         else (c in merged[k] <==> c in m[k]) && (c in m[k] ==> merged[k][c] == m[k][c])
  {
  }

  /** Two rows of different keys: the dedup keeps both, and the first gives the statement its columns. */
  lemma PairIsKept(a: Row, b: Row, cols: seq<string>)
    requires HasKey(a, cols) && HasKey(b, cols) && KeyOf(a, cols) != KeyOf(b, cols)
    ensures ColumnList([a, b], cols) == a.Keys
    ensures KeyOf(b, cols) in Batch([a, b], cols) && Batch([a, b], cols)[KeyOf(b, cols)] == b
  {
    var rows := [a, b];
    var es := Entries(rows, DedupKey(cols), Recency);
    assert es[0].key == KeyOf(a, cols) && es[1].key == KeyOf(b, cols);
    DedupKeepsAllIffDistinct(rows, DedupKey(cols), Recency);
    StampTotal(es[1].stamp, es[1].stamp);
    assert IsWinner(es, 2, 1);
    WinnerUnique(es, 2, 1);
  }

  /** A stored column the key's own batch row does not bring survives exactly when the statement does not name it. */
  lemma ColumnSurvivesIffNotListed(m: map<Key, Row>, rows: seq<Row>, cols: seq<string>, k: Key, c: string)
    requires k in m && c in m[k] && m[k][c] != Null && c !in cols
    requires k in Batch(rows, cols) && c !in Batch(rows, cols)[k]
    ensures var merged := MergeMaps(m, StagedBatch(rows, cols), SetClause(cols));
      k in merged && c in merged[k] && (merged[k][c] == m[k][c] <==> c !in ColumnList(rows, cols))
  {
    UpsertTouchesListedColumnsOnly(m, rows, cols, k, c);
  }

  /**
   * A column that only the first of two rows brings is not left alone in the stored row of the second: it becomes NULL
   * there. `merge()` asks for the same columns in every row, and does not check.
   */
  lemma RaggedBatchErases(a: Row, b: Row, stored: Row, cols: seq<string>, c: string)
    requires HasKey(a, cols) && HasKey(b, cols) && KeyOf(a, cols) != KeyOf(b, cols)
    requires c in a && c !in b && c !in cols
    ensures var k, merged :=
        KeyOf(b, cols), MergeMaps(map[KeyOf(b, cols) := stored], StagedBatch([a, b], cols), SetClause(cols));
      k in merged && c in merged[k] && merged[k][c] == Null
  {
    PairIsKept(a, b, cols);
    UpsertTouchesListedColumnsOnly(map[KeyOf(b, cols) := stored], [a, b], cols, KeyOf(b, cols), c);
  }

  /** Upserts with no key in common can be applied in either order. */
  lemma DisjointUpsertsCommute<R, K>(m: map<K, R>, a: map<K, R>, b: map<K, R>, upd: (R, R) -> R)
    requires a.Keys !! b.Keys
    ensures MergeMaps(MergeMaps(m, a, upd), b, upd) == MergeMaps(MergeMaps(m, b, upd), a, upd)
  {
  }

  /** Rows as `merge()` documents them: the same columns in every row, and usable keys. */
  ghost predicate Uniform(rows: seq<Row>, cols: seq<string>, columns: set<string>) {
    SYNCED_AT !in cols && forall r :: r in rows ==> Sound(r, cols) && r.Keys == columns
  }

  lemma UniformIsPositionFree(rows: seq<Row>, cols: seq<string>, columns: set<string>)
    requires Uniform(rows, cols, columns)
    ensures PositionFree(rows, DedupKey(cols))
  {
  }

  lemma BatchRow(rows: seq<Row>, cols: seq<string>, columns: set<string>, k: Key)
    requires Uniform(rows, cols, columns) && k in Batch(rows, cols)
    ensures Batch(rows, cols)[k] in rows && KeyOf(Batch(rows, cols)[k], cols) == k
  {
    var i := LatestIsWinner(rows, DedupKey(cols), Recency, k);
    assert rows[i] in rows;
  }

  /** Overwriting by two rows of one key and the same columns is overwriting by the second. */
  lemma SecondOverwrites(t: Row, a: Row, b: Row, cols: seq<string>)
    requires a.Keys == b.Keys && HasKey(a, cols) && HasKey(b, cols) && KeyOf(a, cols) == KeyOf(b, cols)
    ensures SetClause(cols)(SetClause(cols)(t, a), b) == SetClause(cols)(t, b)
    ensures SetClause(cols)(a, b) == b
  {
    forall c | c in cols ensures a[c] == b[c] {
      var i :| 0 <= i < |cols| && cols[i] == c;
      assert KeyOf(a, cols)[i] == KeyOf(b, cols)[i];
    }
    assert SetClause(cols)(SetClause(cols)(t, a), b) == SetClause(cols)(t, b);
    assert SetClause(cols)(a, b) == b;
  }

  /** Rows whose recency differs still differ after overwriting the same row. */
  lemma RecencyShows(t: Row, a: Row, b: Row, cols: seq<string>)
    requires a.Keys == b.Keys && SYNCED_AT !in cols && Recency(a) != Recency(b)
    ensures SetClause(cols)(t, a) != SetClause(cols)(t, b)
  {
    assert SYNCED_AT in a && a[SYNCED_AT] != b[SYNCED_AT];
    assert SetClause(cols)(t, a)[SYNCED_AT] == a[SYNCED_AT] && SetClause(cols)(t, b)[SYNCED_AT] == b[SYNCED_AT];
  }

  lemma SharedKeyRows(t: Row, a: seq<Row>, b: seq<Row>, cols: seq<string>, columns: set<string>, k: Key)
    requires Uniform(a + b, cols, columns) && k in Batch(a, cols) && k in Batch(b, cols)
    ensures var ra, rb := Batch(a, cols)[k], Batch(b, cols)[k];
      && SetClause(cols)(SetClause(cols)(t, ra), rb) == SetClause(cols)(t, rb)
      && SetClause(cols)(ra, rb) == rb
      && (!NotLater(Recency(ra), Recency(rb)) ==> ra != rb && SetClause(cols)(t, ra) != SetClause(cols)(t, rb))
  {
    assert Uniform(a, cols, columns) && Uniform(b, cols, columns);
    BatchRow(a, cols, columns, k);
    BatchRow(b, cols, columns, k);
    var ra, rb := Batch(a, cols)[k], Batch(b, cols)[k];
    SecondOverwrites(t, ra, rb, cols);
    if !NotLater(Recency(ra), Recency(rb)) {
      StampTotal(Recency(ra), Recency(rb));
      RecencyShows(t, ra, rb, cols);
    }
  }

  /** The same on tables, for any update: `ok` says where the second batch's row is the one kept. */
  lemma TwoUpsertsAreOneIff<R(!new), K(!new)>(
      m: map<K, R>, la: map<K, R>, lb: map<K, R>, lab: map<K, R>, upd: (R, R) -> R, ok: K -> bool)
    requires lab.Keys == la.Keys + lb.Keys
    requires forall k :: k in lab ==> lab[k] == if k in lb && (k !in la || ok(k)) then lb[k] else la[k]
    requires forall k :: k in la && k in lb ==> upd(la[k], lb[k]) == lb[k] && (!ok(k) ==> la[k] != lb[k])
    requires forall k, t :: k in la && k in lb ==> upd(upd(t, la[k]), lb[k]) == upd(t, lb[k])
    requires forall k, t :: k in la && k in lb && !ok(k) ==> upd(t, la[k]) != upd(t, lb[k])
    ensures MergeMaps(MergeMaps(m, la, upd), lb, upd) == MergeMaps(m, lab, upd)
            <==> forall k :: k in la && k in lb ==> ok(k)
  {
    var twice, once := MergeMaps(MergeMaps(m, la, upd), lb, upd), MergeMaps(m, lab, upd);
    assert twice.Keys == once.Keys;
    forall k | k in twice ensures twice[k] == once[k] <==> (k in la && k in lb ==> ok(k)) {
    }
    assert (forall k :: k in twice ==> twice[k] == once[k]) <==> twice == once;
  }

  /**
   * Merging two batches one after the other equals merging them as one batch exactly when, for every
   * key they share, the second batch is not older: MERGE itself never compares timestamps.
   */
  lemma TwoMergesAreOneIffNotOlder(m: map<Key, Row>, a: seq<Row>, b: seq<Row>, cols: seq<string>, columns: set<string>)
    requires Uniform(a + b, cols, columns)
    ensures var la, lb := Batch(a, cols), Batch(b, cols);
      MergeMaps(MergeMaps(m, la, SetClause(cols)), lb, SetClause(cols))
        == MergeMaps(m, Batch(a + b, cols), SetClause(cols))
      <==> forall k :: k in la && k in lb ==> NotLater(Recency(la[k]), Recency(lb[k]))
  {
    var la, lb, lab := Batch(a, cols), Batch(b, cols), Batch(a + b, cols);
    UniformIsPositionFree(a + b, cols, columns);
    LatestMapOfConcat(a, b, DedupKey(cols), Recency);
    forall k | k in la && k in lb
      ensures SetClause(cols)(la[k], lb[k]) == lb[k] && (!NotOlder(la, lb, Recency)(k) ==> la[k] != lb[k])
    {
      SharedKeyRows(map[], a, b, cols, columns, k);
    }
    forall k, t | k in la && k in lb
      ensures SetClause(cols)(SetClause(cols)(t, la[k]), lb[k]) == SetClause(cols)(t, lb[k])
      ensures !NotOlder(la, lb, Recency)(k) ==> SetClause(cols)(t, la[k]) != SetClause(cols)(t, lb[k])
    {
      SharedKeyRows(t, a, b, cols, columns, k);
    }
    TwoUpsertsAreOneIff(m, la, lb, lab, SetClause(cols), NotOlder(la, lb, Recency));
  }

  /** No two rows the dedup keeps share a real key. */
  lemma KeptKeysDiffer(rows: seq<Row>, cols: seq<string>, i: nat, j: nat)
    requires i < j < |Dedup(rows, DedupKey(cols), Recency)|
    ensures var kept := Dedup(rows, DedupKey(cols), Recency);
      HasKey(kept[i], cols) && HasKey(kept[j], cols) ==> KeyOf(kept[i], cols) != KeyOf(kept[j], cols)
  {
    var es := Entries(rows, DedupKey(cols), Recency);
    var first, from := DedupKeepsLatest(rows, DedupKey(cols), Recency);
    assert AppearsFirstAt(es, first[j]) && es[first[i]].key != es[first[j]].key;
    assert es[first[i]].key == es[from[i]].key && es[first[j]].key == es[from[j]].key;
  }

  /** No two rows of the source can match the same target row, whatever the rows look like. */
  lemma SourceNeverShares(rows: seq<Row>, cols: seq<string>)
    ensures var source := Source(rows, cols);
      forall i, j :: 0 <= i < j < |source| ==> !Same(source[i], source[j], MergeKey(cols))
  {
    var kept, source, columns := Dedup(rows, DedupKey(cols), Recency), Source(rows, cols), ColumnList(rows, cols);
    forall i, j | 0 <= i < j < |source| ensures !Same(source[i], source[j], MergeKey(cols)) {
      if Sound(source[i], cols) && Sound(source[j], cols) {
        StagedSoundIsSound(kept[i], columns, cols);
        StagedSoundIsSound(kept[j], columns, cols);
        KeptKeysDiffer(rows, cols, i, j);
      }
    }
  }

  lemma MergeStagedTwice(target: seq<Row>, rows: seq<Row>, cols: seq<string>)
    requires Keyed(target, |target|, MergeKey(cols))
    requires Dedup(rows, DedupKey(cols), Recency) == [] || forall c :: c in cols ==> c in ColumnList(rows, cols)
    ensures Merged(Merged(target, rows, cols), rows, cols) == Merged(target, rows, cols)
            <==> forall r :: r in Dedup(rows, DedupKey(cols), Recency) ==> Sound(r, cols)
  {
    var kept, columns, source := Dedup(rows, DedupKey(cols), Recency), ColumnList(rows, cols), Source(rows, cols);
    StatementMergesStaged(target, kept, columns, cols);
    StatementMergesStaged(Merged(target, rows, cols), kept, columns, cols);
    SourceNeverShares(rows, cols);
    KeysSurviveUpdates(cols);
    MergeTwiceIsOnceIffKeysUsable(target, source, MergeKey(cols), SetClause(cols));
    forall i | 0 <= i < |kept| ensures kept[i] in kept && (MergeKey(cols)(source[i]).Some? <==> Sound(kept[i], cols)) {
      StageKeepsKey(kept[i], columns, cols);
    }
  }

  lemma KeylessInsertedAgain(target: seq<Row>, kept: seq<Row>, columns: set<string>, cols: seq<string>, i: nat)
    requires i < |kept| && !Sound(kept[i], cols)
    ensures |MergeStatement(target, kept, columns, cols)| > |target|
  {
    UnmatchableInserted(target, kept, |kept|, MergeKey(cols), i);
  }

  /**
   * A batch merged twice leaves the table as merged once exactly when no row that is kept lacks a key column or has
   * NULL in one.
   */
  lemma MergeTwiceIsOnceIffNoNullKey(target: seq<Row>, rows: seq<Row>, cols: seq<string>)
    requires Keyed(target, |target|, MergeKey(cols))
    ensures Merged(Merged(target, rows, cols), rows, cols) == Merged(target, rows, cols)
            <==> forall r :: r in Dedup(rows, DedupKey(cols), Recency) ==> Sound(r, cols)
  {
    var kept := Dedup(rows, DedupKey(cols), Recency);
    if kept == [] || HasKey(kept[0], cols) {
      MergeStagedTwice(target, rows, cols);
    } else {
      KeylessInsertedAgain(Merged(target, rows, cols), kept, ColumnList(rows, cols), cols, 0);
      assert kept[0] in kept;
    }
  }

  // ---- recency as time ----------------------------------------------------------------

  /** The row has a datetime for `synced_at`. */
  predicate Clocked(row: Row) {
    SYNCED_AT in row && row[SYNCED_AT].Clock?
  }

  lemma LaterTextIsLaterInstant(a: Row, b: Row)
    requires Clocked(a) && Clocked(b) && NotLater(Recency(a), Recency(b))
    ensures Micros(a[SYNCED_AT].at) <= Micros(b[SYNCED_AT].at)
  {
    IsoOrderIsChronological(a[SYNCED_AT].at, b[SYNCED_AT].at);
  }

  /** Comparing texts keeps the row that is latest in time: no row of the key was synced after the one kept for it. */
  lemma KeptIsLatestInstant(rows: seq<Row>, cols: seq<string>, j: nat)
    requires j < |rows|
    ensures var k, batch := DedupKey(cols)(rows[j], j), Batch(rows, cols);
      && k in batch
      && (Clocked(rows[j]) && Clocked(batch[k]) ==> Micros(rows[j][SYNCED_AT].at) <= Micros(batch[k][SYNCED_AT].at))
  {
    KeptIsNotEarlier(rows, DedupKey(cols), Recency, j);
    var kept := Batch(rows, cols)[DedupKey(cols)(rows[j], j)];
    if Clocked(rows[j]) && Clocked(kept) {
      LaterTextIsLaterInstant(rows[j], kept);
    }
  }
}
