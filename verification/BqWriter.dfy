/** `BQWriter`: the lock dictionary, the warehouse calls it makes, and `merge` as one sequence of them. */
module BqWriter {
  import opened Text
  import opened LatestPerKey
  import opened KeyedMerge
  import opened Upsert

  class Lock {
    var held: bool

    constructor ()
      ensures !held
    {
      held := false;
    }
  }

  /** The class-level `_table_locks` dictionary, filled on first use. */
  class LockRegistry {
    var locks: map<string, Lock>

    ghost predicate Valid()
      reads this
    {
      forall t, u :: t in locks && u in locks && t != u ==> locks[t] != locks[u]
    }

    /** Nobody is inside any of the locks. */
    ghost predicate AllFree()
      reads this, locks.Values
    {
      forall t :: t in locks ==> !locks[t].held
    }

    constructor ()
      ensures Valid() && AllFree() && locks == map[]
    {
      locks := map[];
    }

    /** One lock object per table, ever: known tables keep theirs, a new table gets an object no other table has. */
    method LockFor(table: string) returns (lock: Lock)
      requires Valid()
      modifies this
      ensures Valid()
      ensures table in locks && lock == locks[table]
      ensures locks.Keys == old(locks.Keys) + {table}
      ensures forall t :: t in old(locks) ==> locks[t] == old(locks[t])
      ensures table !in old(locks) ==> fresh(lock) && !lock.held
    {
      if table !in locks {
        var minted := new Lock();
        locks := locks[table := minted];
      }
      lock := locks[table];
    }
  }

  datatype Stored = Stored(schema: set<string>, rows: seq<Row>)

  function AllColumns(rows: seq<Row>): set<string> {
    set r, c | r in rows && c in r :: c
  }

  /** The temp table can be given the schema that was read. */
  predicate Fits(seen: Option<set<string>>, first: set<string>) {
    seen.Some? && seen.value != {} && first <= seen.value
  }

  function TempSchema(seen: Option<set<string>>, rows: seq<Row>): set<string>
    requires rows != []
  {
    if Fits(seen, rows[0].Keys) then seen.value else AllColumns(rows)
  }

  /** The statement matches on something, sets something, and names columns its tables have. */
  predicate Accepted(columns: set<string>, cols: seq<string>, source: set<string>, target: set<string>) {
    && cols != [] && (columns - set c | c in cols) != {}
    && columns <= target && forall c :: c in cols ==> c in source && c in target
  }

  /** The dataset: staging tables and short-lived temp tables. */
  class Warehouse {
    var tables: map<string, Stored>
    var temps: map<string, Stored>

    function RowsIn(table: string): seq<Row>
      reads this`tables
    {
      if table in tables then tables[table].rows else []
    }

    /** `_get_schema`: a failure of the call reads as a missing table. */
    method GetSchema(table: string, fails: bool) returns (schema: Option<set<string>>)
      ensures schema == if table in tables && !fails then Some(tables[table].schema) else None
    {
      schema := if table in tables && !fails then Some(tables[table].schema) else None;
    }

    /**
     * `_write_temp`: if the first row brings no new column the temp table gets the target's schema, and loading a row
     * with a column outside it raises; otherwise BigQuery detects the schema from all rows.
     */
    method WriteTemp(tmp: string, rows: seq<Row>, schema: Option<set<string>>, raises: bool) returns (ok: bool)
      requires rows != []
      modifies this`temps
      ensures ok <==> !raises && (Fits(schema, rows[0].Keys) ==> AllColumns(rows) <= schema.value)
      ensures temps == if ok then old(temps)[tmp := Stored(TempSchema(schema, rows), rows)] else old(temps)
    {
      var fits := schema.Some? && schema.value != {} && rows[0].Keys - schema.value == {};
      assert fits ==> forall c :: c in rows[0].Keys ==> c in rows[0].Keys - schema.value || c in schema.value;
      var columns := if fits then schema.value else AllColumns(rows);
      ok := !raises && AllColumns(rows) <= columns;
      if ok {
        temps := temps[tmp := Stored(columns, rows)];
      }
    }

    /** `_ensure_target_exists`: a failed check reads as "not there", and creating a table that is there raises. */
    method EnsureTargetExists(table: string, tmp: string, checkFails: bool, createRaises: bool) returns (ok: bool)
      requires tmp in temps
      modifies this`tables
      ensures ok <==> if table in old(tables) then !checkFails else !createRaises
      ensures tables == if ok && table !in old(tables) then old(tables)[table := Stored(temps[tmp].schema, [])]
          else old(tables)
    {
      ok := true;
      if checkFails || table !in tables {
        ok := !createRaises && table !in tables;
        if ok {
          tables := tables[table := Stored(temps[tmp].schema, [])];
        }
      }
    }

    /** `_evolve_target_schema`: a failure is logged and ignored. */
    method EvolveTargetSchema(table: string, tmp: string, existing: set<string>, fails: bool)
      requires tmp in temps && table in tables
      modifies this`tables
      ensures tables == old(tables)[table := Stored(
                if fails then old(tables)[table].schema else old(tables)[table].schema + (temps[tmp].schema - existing),
                old(tables)[table].rows)]
    {
      var added := temps[tmp].schema - existing;
      assert added == {} ==> tables[table] == Stored(tables[table].schema + added, tables[table].rows);
      if added != {} && !fails {
        tables := tables[table := Stored(tables[table].schema + added, tables[table].rows)];
      }
    }

    /**
     * `_run_merge`. The statement is rejected when it has nothing to match on or nothing to set, names a column its
     * table lacks, or finds two source rows for a target row.
     */
    method RunMerge(table: string, tmp: string, columns: set<string>, cols: seq<string>, raises: bool)
      returns (ok: bool)
      requires tmp in temps && table in tables
      modifies this`tables
      ensures ok <==> !raises && Accepted(columns, cols, temps[tmp].schema, old(tables)[table].schema)
                      && !Ambiguous(old(tables)[table].rows, temps[tmp].rows, MergeKey(cols))
      ensures tables == if !ok then old(tables) else old(tables)[table :=
          Stored(old(tables)[table].schema, MergeStatement(old(tables)[table].rows, temps[tmp].rows, columns, cols))]
    {
      var target, source := tables[table], temps[tmp];
      ok := !raises && Accepted(columns, cols, source.schema, target.schema)
            && !Ambiguous(target.rows, source.rows, MergeKey(cols));
      if ok {
        tables := tables[table := Stored(target.schema, MergeStatement(target.rows, source.rows, columns, cols))];
      }
    }

    method DropTemp(tmp: string)
      modifies this`temps
      ensures temps == old(temps) - {tmp}
    {
      temps := temps - {tmp};
    }
  }

  /** Which remote calls fail; the errors of the first, third and fifth are swallowed where they occur. */
  datatype Faults = Faults(
    readFails: bool,
    writeRaises: bool,
    checkFails: bool,
    createRaises: bool,
    alterFails: bool,
    mergeRaises: bool)

  datatype Outcome = Written(count: nat) | Raised

  function SeenSchema(faults: Faults, tables: map<string, Stored>, table: string): Option<set<string>> {
    if table in tables && !faults.readFails then Some(tables[table].schema) else None
  }

  /** The target's schema when the statement runs. */
  function SchemaAfter(faults: Faults, tables: map<string, Stored>, table: string, kept: seq<Row>): set<string>
    requires kept != []
  {
    if table !in tables then AllColumns(kept)
    else if faults.readFails || faults.alterFails then tables[table].schema
    else tables[table].schema + TempSchema(Some(tables[table].schema), kept)
  }

  /** No call before the statement raises: the rows can be loaded, and a failed check does not hide the table. */
  predicate Prepared(faults: Faults, tables: map<string, Stored>, table: string, kept: seq<Row>)
    requires kept != []
  {
    var seen := SeenSchema(faults, tables, table);
    && !faults.writeRaises && (Fits(seen, kept[0].Keys) ==> AllColumns(kept) <= seen.value)
    && if table in tables then !faults.checkFails else !faults.createRaises
  }

  /** When `merge` of these kept rows succeeds. */
  predicate Succeeds(faults: Faults, tables: map<string, Stored>, table: string, kept: seq<Row>, cols: seq<string>)
    requires kept != []
  {
    && Prepared(faults, tables, table, kept) && !faults.mergeRaises
    && Accepted(kept[0].Keys, cols, TempSchema(SeenSchema(faults, tables, table), kept),
                SchemaAfter(faults, tables, table, kept))
  }

  lemma SameColumnsEverywhere(kept: seq<Row>, columns: set<string>)
    requires kept != [] && forall r :: r in kept ==> r.Keys == columns
    ensures kept[0].Keys == columns && AllColumns(kept) == columns
  {
    assert kept[0] in kept;
    forall c ensures c in AllColumns(kept) <==> c in columns {
      if c in columns {
        assert c in kept[0];
      }
    }
  }

  lemma AcceptedIffTargetHasColumns(columns: set<string>, cols: seq<string>, source: set<string>, target: set<string>)
    requires cols != [] && (forall c :: c in cols ==> c in columns) && (columns - set c | c in cols) != {}
    requires columns <= source
    ensures Accepted(columns, cols, source, target) <==> columns <= target
  {
  }

  /**
   * For rows as `merge()` documents them, the same columns in each, key columns and others: it succeeds exactly when no
   * call raises, a failed check does not hide the table, and the target is new, has the columns, or gets them.
   */
  lemma DocumentedBatchSucceedsIff(faults: Faults, tables: map<string, Stored>, table: string, kept: seq<Row>,
                                   cols: seq<string>, columns: set<string>)
    requires kept != [] && forall r :: r in kept ==> r.Keys == columns
    requires cols != [] && (forall c :: c in cols ==> c in columns) && (columns - set c | c in cols) != {}
    ensures Succeeds(faults, tables, table, kept, cols) <==>
              && !faults.writeRaises && !faults.mergeRaises
              && (table !in tables ==> !faults.createRaises)
              && (table in tables ==>
                    && !faults.checkFails
                    && (columns <= tables[table].schema || (!faults.readFails && !faults.alterFails)))
  {
    SameColumnsEverywhere(kept, columns);
    var source, target := TempSchema(SeenSchema(faults, tables, table), kept), SchemaAfter(faults, tables, table, kept);
    AcceptedIffTargetHasColumns(columns, cols, source, target);
  }

  /** Some row has the column. */
  predicate Brought(kept: seq<Row>, c: string) {
    exists r :: r in kept && c in r
  }

  /** The temp table takes over the target's columns: they are known, and the first row brings no other. */
  predicate TakesOver(faults: Faults, tables: map<string, Stored>, table: string, first: Row) {
    table in tables && !faults.readFails && tables[table].schema != {} && first.Keys <= tables[table].schema
  }

  /** The target has the column, or gets it. */
  predicate Received(faults: Faults, tables: map<string, Stored>, table: string, c: string) {
    table in tables && (faults.readFails || faults.alterFails) ==> c in tables[table].schema
  }

  /**
   * When `merge` of any rows succeeds, column by column: no call raises; a failed check does not hide the table; a
   * temp table that takes over the target's columns is given no others; the statement has a key column, and a column to
   * set; the target has, or gets, every column of the first row and every key column; and every key column is brought
   * by some row, or taken over.
   */
  lemma SucceedsIff(faults: Faults, tables: map<string, Stored>, table: string, kept: seq<Row>, cols: seq<string>)
    requires kept != []
    ensures Succeeds(faults, tables, table, kept, cols) <==>
              && !faults.writeRaises && !faults.mergeRaises
              && (if table in tables then !faults.checkFails else !faults.createRaises)
              && cols != [] && (exists c :: c in kept[0] && c !in cols)
              && (forall c :: c in kept[0] || c in cols ==> Received(faults, tables, table, c))
              && (if TakesOver(faults, tables, table, kept[0])
                  then forall c :: Brought(kept, c) || c in cols ==> c in tables[table].schema
                  else forall c :: c in cols ==> Brought(kept, c))
  {
    var all := AllColumns(kept);
    forall c ensures c in all <==> Brought(kept, c) {
    }
    assert kept[0] in kept;
    var sets := kept[0].Keys - set c | c in cols;
    assert sets != {} <==> exists c :: c in kept[0] && c !in cols by {
      if c :| c in kept[0] && c !in cols {
        assert c in sets;
      }
    }
  }

  /** From the schema read to the moment before the statement runs; `ok` unless a call raised. */
  method Prepare(w: Warehouse, table: string, kept: seq<Row>, tmp: string, faults: Faults) returns (ok: bool)
    requires tmp !in w.temps && kept != []
    modifies w
    ensures w.temps - {tmp} == old(w.temps)
    ensures w.tables - {table} == old(w.tables) - {table}
    ensures w.RowsIn(table) == old(w.RowsIn(table))
    ensures ok <==> Prepared(faults, old(w.tables), table, kept)
    ensures ok ==> tmp in w.temps && table in w.tables
    ensures ok ==> w.temps[tmp] == Stored(TempSchema(SeenSchema(faults, old(w.tables), table), kept), kept)
    ensures ok ==> w.tables[table].schema == SchemaAfter(faults, old(w.tables), table, kept)
  {
    var schema := w.GetSchema(table, faults.readFails);
    ok := w.WriteTemp(tmp, kept, schema, faults.writeRaises);
    if ok {
      ok := w.EnsureTargetExists(table, tmp, faults.checkFails, faults.createRaises);
    }
    if ok && schema.Some? {
      var columns := w.temps[tmp].schema;
      assert schema.value + (columns - schema.value) == schema.value + columns;
      w.EvolveTargetSchema(table, tmp, schema.value, faults.alterFails);
    }
  }

  /** The part of `merge` inside the table's lock. */
  method MergeLocked(w: Warehouse, lock: Lock, table: string, kept: seq<Row>, cols: seq<string>, tmp: string,
                     faults: Faults)
    returns (ok: bool)
    requires !lock.held && tmp !in w.temps && kept != [] && !Ambiguous(w.RowsIn(table), kept, MergeKey(cols))
    modifies w, lock
    ensures !lock.held
    ensures w.temps == old(w.temps)
    ensures w.tables - {table} == old(w.tables) - {table}
    ensures ok <==> Succeeds(faults, old(w.tables), table, kept, cols)
    ensures w.RowsIn(table)
            == if ok then MergeStatement(old(w.RowsIn(table)), kept, kept[0].Keys, cols) else old(w.RowsIn(table))
    ensures ok ==> table in w.tables && w.tables[table].schema == SchemaAfter(faults, old(w.tables), table, kept)
  {
    lock.held := true;
    ok := Prepare(w, table, kept, tmp, faults);
    if ok {
      ok := w.RunMerge(table, tmp, kept[0].Keys, cols, faults.mergeRaises);
    }
    w.DropTemp(tmp);
    lock.held := false;
  }

  /** From the lock's lookup to its release. */
  method MergeKept(w: Warehouse, registry: LockRegistry, table: string, kept: seq<Row>, cols: seq<string>, tmp: string,
                   faults: Faults)
    returns (ok: bool)
    requires registry.Valid() && registry.AllFree()
    requires tmp !in w.temps && kept != [] && !Ambiguous(w.RowsIn(table), kept, MergeKey(cols))
    modifies w, registry, registry.locks.Values
    ensures registry.Valid() && registry.AllFree() && table in registry.locks
    ensures w.temps == old(w.temps)
    ensures w.tables - {table} == old(w.tables) - {table}
    ensures ok <==> Succeeds(faults, old(w.tables), table, kept, cols)
    ensures w.RowsIn(table)
            == if ok then MergeStatement(old(w.RowsIn(table)), kept, kept[0].Keys, cols) else old(w.RowsIn(table))
    ensures ok ==> table in w.tables && w.tables[table].schema == SchemaAfter(faults, old(w.tables), table, kept)
  {
    var lock := registry.LockFor(table);
    ok := MergeLocked(w, lock, table, kept, cols, tmp, faults);
  }

  /**
   * `BQWriter.merge` of any rows into any table. It succeeds exactly when there are rows, the dedup can compare them
   * and `Succeeds` holds; then the target is what the statement makes of the latest row per key, and otherwise its rows
   * are as they were. Other tables stay; the temp table is gone and the lock free again either way.
   */
  method Merge(w: Warehouse, registry: LockRegistry, table: string, rows: seq<Row>, cols: seq<string>, tmp: string,
               faults: Faults)
    returns (out: Outcome)
    requires registry.Valid() && registry.AllFree() && tmp !in w.temps
    modifies w, registry, registry.locks.Values
    ensures registry.Valid() && registry.AllFree()
    ensures w.temps == old(w.temps)
    ensures w.tables - {table} == old(w.tables) - {table}
    ensures rows != [] ==> Dedup(rows, DedupKey(cols), Recency) != []
    ensures out.Written? <==>
              && rows != [] && Datable(rows, cols)
              && Succeeds(faults, old(w.tables), table, Dedup(rows, DedupKey(cols), Recency), cols)
    ensures w.RowsIn(table) == if out.Written? then Merged(old(w.RowsIn(table)), rows, cols) else old(w.RowsIn(table))
    ensures out.Written? ==>
      && out.count == |Dedup(rows, DedupKey(cols), Recency)| && table in w.tables
      && w.tables[table].schema == SchemaAfter(faults, old(w.tables), table, Dedup(rows, DedupKey(cols), Recency))
  {
    KeptAreRows(rows, DedupKey(cols), Recency);
    if rows == [] {
      return Raised;
    }
    var kept := DedupByKey(rows, cols);
    if kept.None? {
      return Raised;
    }
    NeverAmbiguous(w.RowsIn(table), rows, cols);
    var ok := MergeKept(w, registry, table, kept.value, cols, tmp, faults);
    out := if ok then Written(|kept.value|) else Raised;
  }
}
