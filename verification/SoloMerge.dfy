/**
 * The merge protocol against `merge()` itself: a thread that meets no other, with any remote calls failing, goes
 * through the protocol's steps and ends as the call ends.
 */
module SoloMerge {
  import opened Text
  import opened KeyedMerge
  import opened Upsert
  import opened MergeProtocol
  import W = BqWriter

  type Calls = seq<Job<Key, Row>>
  type State = World<Key, Row>

  /** Some steps of the protocol lead from one world to the other. */
  ghost predicate Leads(jobs: Calls, w: State, v: State) {
    exists ws: seq<State> :: Path(jobs, w, v, ws)
  }

  ghost predicate Path(jobs: Calls, w: State, v: State, ws: seq<State>) {
    |ws| > 0 && ws[0] == w && ws[|ws| - 1] == v && forall n :: 0 <= n < |ws| - 1 ==> Next(jobs, ws[n], ws[n + 1])
  }

  lemma LeadsStep(jobs: Calls, w: State, i: nat, a: Action)
    requires i < |w.pcs| == |jobs| && Enabled(jobs, w, i, a)
    ensures Leads(jobs, w, Effect(jobs, w, i, a))
  {
    var v := Effect(jobs, w, i, a);
    assert Next(jobs, w, v);
    assert Path(jobs, w, v, [w, v]);
  }

  lemma LeadsOn(jobs: Calls, u: State, v: State, w: State)
    requires Leads(jobs, u, v) && Leads(jobs, v, w)
    ensures Leads(jobs, u, w)
  {
    var xs :| Path(jobs, u, v, xs);
    var ys :| Path(jobs, v, w, ys);
    var ws := xs + ys[1..];
    forall n | 0 <= n < |ws| - 1 ensures Next(jobs, ws[n], ws[n + 1]) {
      if n < |xs| - 1 {
        assert Next(jobs, xs[n], xs[n + 1]);
      } else {
        var m := n - (|xs| - 1);
        assert Next(jobs, ys[m], ys[m + 1]);
      }
    }
    assert Path(jobs, u, w, ws);
  }

  /** Thread `i` has the lock of its table to itself and stands at `pc`; the warehouse is as given. */
  ghost predicate At(jobs: Calls, w: State, i: nat, pc: Pc, tables: map<string, Table<Key, Row>>,
                     temps: map<nat, Temp<Key, Row>>)
  {
    && i < |w.pcs| == |jobs| && w.pcs[i] == pc && w.tables == tables && w.temps == temps
    && jobs[i].table in w.locks && w.locks[jobs[i].table] in w.holder
  }

  /** Thread `i` has not begun, has no temp table, and nobody holds its lock. */
  ghost predicate Fresh(jobs: Calls, w: State, i: nat) {
    && i < |w.pcs| == |jobs| && w.pcs[i].Start? && i !in w.temps
    && (if jobs[i].table in w.locks then w.locks[jobs[i].table] else w.minted) !in w.holder
  }

  lemma TakesLock(jobs: Calls, w: State, i: nat) returns (v: State)
    requires Fresh(jobs, w, i)
    ensures Leads(jobs, w, v) && At(jobs, v, i, Locked, w.tables, w.temps)
  {
    var u := Effect(jobs, w, i, LookUpLock);
    LeadsStep(jobs, w, i, LookUpLock);
    v := Effect(jobs, u, i, TakeLock);
    LeadsStep(jobs, u, i, TakeLock);
    LeadsOn(jobs, w, u, v);
  }

  /** One step inside the lock: the lock stays held. */
  lemma StepInside(jobs: Calls, w: State, i: nat, a: Action) returns (v: State)
    requires i < |w.pcs| == |jobs| && Enabled(jobs, w, i, a) && !a.LookUpLock? && !a.TakeLock? && !a.ReleaseLock?
    requires jobs[i].table in w.locks && w.locks[jobs[i].table] in w.holder
    ensures Leads(jobs, w, v)
    ensures At(jobs, v, i, PcAfter(jobs, w, i, a), TablesAfter(jobs, w, i, a), TempsAfter(jobs, w, i, a))
  {
    v := Effect(jobs, w, i, a);
    LeadsStep(jobs, w, i, a);
  }

  /** What the schema read is for the writer. */
  function Read(seen: Seen): Option<set<string>> {
    if seen.Known? then Some(seen.schema) else None
  }

  /** The protocol's temp table is the writer's. */
  lemma TempSchemaIsWriters(columns: set<string>, seen: Seen, kept: seq<Row>)
    requires kept != [] && forall r :: r in kept ==> r.Keys == columns
    ensures TempSchema(columns, seen) == W.TempSchema(Read(seen), kept)
  {
    W.SameColumnsEverywhere(kept, columns);
  }

  /** What the schema read inside the lock meets. */
  function SeenAt(tables: map<string, Table<Key, Row>>, t: string, fails: bool): Seen {
    if fails then Unread else if t in tables then Known(tables[t].schema) else Absent
  }

  /** The schema read and the load of the temp table. */
  lemma WritesTemp(jobs: Calls, w: State, i: nat, faults: W.Faults) returns (v: State)
    requires i < |jobs| && At(jobs, w, i, Locked, w.tables, w.temps)
    ensures Leads(jobs, w, v)
    ensures var seen := SeenAt(w.tables, jobs[i].table, faults.readFails);
      if faults.writeRaises then At(jobs, v, i, Failed, w.tables, w.temps)
      else At(jobs, v, i, TempWritten(seen), w.tables,
              w.temps[i := Temp(TempSchema(jobs[i].columns, seen), jobs[i].batch)])
  {
    var u := StepInside(jobs, w, i, ReadSchema(faults.readFails));
    v := StepInside(jobs, u, i, if faults.writeRaises then Raise else WriteTemp);
    LeadsOn(jobs, w, u, v);
  }

  /** The existence check and, if it does not find the table, its creation. */
  lemma EnsuresTarget(jobs: Calls, w: State, i: nat, seen: Seen, faults: W.Faults) returns (v: State)
    requires i < |jobs| && At(jobs, w, i, TempWritten(seen), w.tables, w.temps) && i in w.temps
    ensures Leads(jobs, w, v)
    ensures var t := jobs[i].table;
      if (if t in w.tables then faults.checkFails else faults.createRaises)
      then At(jobs, v, i, Failed, w.tables, w.temps)
      else At(jobs, v, i, TargetEnsured(seen),
              if t in w.tables then w.tables else w.tables[t := Table(w.temps[i].schema, map[])], w.temps)
  {
    var t := jobs[i].table;
    var u := StepInside(jobs, w, i, CheckTarget(faults.checkFails));
    v := StepInside(jobs, u, i, if t !in w.tables && faults.createRaises then Raise else CreateTarget);
    LeadsOn(jobs, w, u, v);
  }

  /** The target's schema after the new columns are added, unless that fails. */
  function Evolved(target: set<string>, temp: set<string>, seen: Seen, fails: bool): set<string> {
    if seen.Known? && !fails then target + (temp - seen.schema) else target
  }

  /** The new columns, and the statement. */
  lemma RunsStatement(jobs: Calls, w: State, i: nat, seen: Seen, faults: W.Faults) returns (v: State)
    requires i < |jobs| && At(jobs, w, i, TargetEnsured(seen), w.tables, w.temps)
    requires i in w.temps && jobs[i].table in w.tables
    ensures Leads(jobs, w, v)
    ensures var job, target := jobs[i], w.tables[jobs[i].table];
      var schema := Evolved(target.schema, w.temps[i].schema, seen, faults.alterFails);
      var evolved := w.tables[job.table := Table(schema, target.rows)];
      if faults.mergeRaises || !(job.columns <= schema) then At(jobs, v, i, Failed, evolved, w.temps)
      else At(jobs, v, i, MergeProtocol.Merged,
              w.tables[job.table := Table(schema, MergeMaps(target.rows, w.temps[i].rows, job.upd))], w.temps)
  {
    var job, target := jobs[i], w.tables[jobs[i].table];
    var schema := Evolved(target.schema, w.temps[i].schema, seen, faults.alterFails);
    var u := StepInside(jobs, w, i, EvolveSchema(faults.alterFails));
    assert u.tables == w.tables[job.table := Table(schema, target.rows)];
    v := StepInside(jobs, u, i, if faults.mergeRaises || !(job.columns <= schema) then Raise else RunMerge);
    LeadsOn(jobs, w, u, v);
  }

  /** The temp table is dropped and the lock given back. */
  lemma GivesBack(jobs: Calls, w: State, i: nat, pc: Pc) returns (v: State)
    requires i < |jobs| && At(jobs, w, i, pc, w.tables, w.temps) && (pc.Merged? || pc.Failed?)
    ensures Leads(jobs, w, v)
    ensures |v.pcs| == |jobs| && v.pcs[i] == Done(pc.Merged?) && v.tables == w.tables && v.temps == w.temps - {i}
    ensures jobs[i].table in v.locks && v.locks[jobs[i].table] !in v.holder
  {
    var u := StepInside(jobs, w, i, DropTemp);
    v := Effect(jobs, u, i, ReleaseLock);
    LeadsStep(jobs, u, i, ReleaseLock);
    LeadsOn(jobs, w, u, v);
  }

  /** Rows as `merge()` documents them, with the columns the call names. */
  ghost predicate Documented(kept: seq<Row>, columns: set<string>, cols: seq<string>) {
    && kept != [] && (forall r :: r in kept ==> r.Keys == columns)
    && cols != [] && (forall c :: c in cols ==> c in columns) && (columns - set c | c in cols) != {}
  }

  /** Both see the same target. */
  ghost predicate SameTarget(tables: map<string, Table<Key, Row>>, stored: map<string, W.Stored>, t: string) {
    (t in tables <==> t in stored) && (t in stored ==> tables[t].schema == stored[t].schema)
  }

  /** The schema the statement runs against is the one the writer arrives at. */
  lemma EvolvedIsWriters(tables: map<string, Table<Key, Row>>, stored: map<string, W.Stored>, t: string,
                         columns: set<string>, kept: seq<Row>, cols: seq<string>, faults: W.Faults)
    requires Documented(kept, columns, cols) && SameTarget(tables, stored, t)
    ensures var seen := SeenAt(tables, t, faults.readFails);
      var temp := TempSchema(columns, seen);
      Evolved(if t in tables then tables[t].schema else temp, temp, seen, faults.alterFails)
      == W.SchemaAfter(faults, stored, t, kept)
  {
    var seen := SeenAt(tables, t, faults.readFails);
    TempSchemaIsWriters(columns, seen, kept);
    W.SameColumnsEverywhere(kept, columns);
    if seen.Known? {
      AddMissing(seen.schema, TempSchema(columns, seen));
    }
  }

  lemma AddMissing(a: set<string>, b: set<string>)
    ensures a + (b - a) == a + b
  {
  }

  /** Up to the statement: a call raised, or the target is there and ready. */
  lemma Prepares(jobs: Calls, w: State, i: nat, faults: W.Faults) returns (v: State)
    requires i < |jobs| && Fresh(jobs, w, i)
    ensures Leads(jobs, w, v)
    ensures var t, seen := jobs[i].table, SeenAt(w.tables, jobs[i].table, faults.readFails);
      var temp := Temp(TempSchema(jobs[i].columns, seen), jobs[i].batch);
      if faults.writeRaises then At(jobs, v, i, Failed, w.tables, w.temps)
      else if (if t in w.tables then faults.checkFails else faults.createRaises)
      then At(jobs, v, i, Failed, w.tables, w.temps[i := temp])
      else At(jobs, v, i, TargetEnsured(seen),
              if t in w.tables then w.tables else w.tables[t := Table(temp.schema, map[])], w.temps[i := temp])
  {
    var a := TakesLock(jobs, w, i);
    var b := WritesTemp(jobs, a, i, faults);
    LeadsOn(jobs, w, a, b);
    if faults.writeRaises {
      v := b;
    } else {
      v := EnsuresTarget(jobs, b, i, SeenAt(w.tables, jobs[i].table, faults.readFails), faults);
      LeadsOn(jobs, w, b, v);
    }
  }

  /** The rows and the schema a call leaves in its table, which other tables do not notice. */
  ghost predicate Leaves(job: Job<Key, Row>, was: map<string, Table<Key, Row>>, now: map<string, Table<Key, Row>>,
                         ok: bool, schema: set<string>) {
    var t := job.table;
    && now - {t} == was - {t}
    && RowsOf(now, t) == (if ok then MergeMaps(RowsOf(was, t), job.batch, job.upd) else RowsOf(was, t))
    && (ok ==> t in now && now[t].schema == schema)
  }

  /** How a call that meets no other ends: with no temp table and its lock free. */
  ghost predicate EndsAs(jobs: Calls, w: State, v: State, i: nat, ok: bool, schema: set<string>) {
    && i < |jobs| == |v.pcs| && v.pcs[i] == Done(ok) && v.temps == w.temps
    && jobs[i].table in v.locks && v.locks[jobs[i].table] !in v.holder
    && Leaves(jobs[i], w.tables, v.tables, ok, schema)
  }

  lemma Ends(jobs: Calls, w: State, a: State, i: nat, pc: Pc, schema: set<string>) returns (v: State)
    requires i < |jobs| && Leads(jobs, w, a) && At(jobs, a, i, pc, a.tables, a.temps) && (pc.Merged? || pc.Failed?)
    requires a.temps - {i} == w.temps && Leaves(jobs[i], w.tables, a.tables, pc.Merged?, schema)
    ensures Leads(jobs, w, v) && EndsAs(jobs, w, v, i, pc.Merged?, schema)
  {
    v := GivesBack(jobs, a, i, pc);
    LeadsOn(jobs, w, a, v);
  }

  /** The target is there, with the rows it had. */
  ghost predicate Stands(was: map<string, Table<Key, Row>>, now: map<string, Table<Key, Row>>, t: string) {
    t in now && now - {t} == was - {t} && now[t].rows == RowsOf(was, t)
  }

  lemma TableReplaced(was: map<string, Table<Key, Row>>, now: map<string, Table<Key, Row>>, job: Job<Key, Row>,
                      schema: set<string>, ok: bool)
    requires Stands(was, now, job.table)
    ensures var rows := RowsOf(was, job.table);
      Leaves(job, was,
             now[job.table := Table(schema, if ok then MergeMaps(rows, job.batch, job.upd) else rows)], ok, schema)
  {
    var after := now[job.table := Table(schema, RowsOf(was, job.table))];
    assert after - {job.table} == now - {job.table};
  }

  /** From a target that is ready to the end of the call. */
  lemma StatementToEnd(jobs: Calls, w: State, a: State, i: nat, seen: Seen, temp: Temp<Key, Row>, faults: W.Faults)
    returns (v: State)
    requires i < |jobs| && i !in w.temps && Leads(jobs, w, a) && temp.rows == jobs[i].batch
    requires Stands(w.tables, a.tables, jobs[i].table)
    requires At(jobs, a, i, TargetEnsured(seen), a.tables, w.temps[i := temp])
    ensures var schema := Evolved(a.tables[jobs[i].table].schema, temp.schema, seen, faults.alterFails);
      Leads(jobs, w, v) && EndsAs(jobs, w, v, i, !faults.mergeRaises && jobs[i].columns <= schema, schema)
  {
    var job := jobs[i];
    var schema := Evolved(a.tables[job.table].schema, temp.schema, seen, faults.alterFails);
    var ok := !faults.mergeRaises && job.columns <= schema;
    var b := RunsStatement(jobs, a, i, seen, faults);
    LeadsOn(jobs, w, a, b);
    TableReplaced(w.tables, a.tables, job, schema, ok);
    assert w.temps[i := temp] - {i} == w.temps;
    v := Ends(jobs, w, b, i, if ok then MergeProtocol.Merged else Failed, schema);
  }

  /** No call before the statement raises. */
  predicate Ready(there: bool, faults: W.Faults) {
    !faults.writeRaises && if there then !faults.checkFails else !faults.createRaises
  }

  /** The target's schema when the statement runs, in the protocol's terms. */
  function SchemaAt(job: Job<Key, Row>, tables: map<string, Table<Key, Row>>, faults: W.Faults): set<string> {
    var seen := SeenAt(tables, job.table, faults.readFails);
    var temp := TempSchema(job.columns, seen);
    Evolved(if job.table in tables then tables[job.table].schema else temp, temp, seen, faults.alterFails)
  }

  lemma SoloRun(jobs: Calls, w: State, i: nat, faults: W.Faults) returns (v: State)
    requires i < |jobs| && Fresh(jobs, w, i)
    ensures Leads(jobs, w, v)
    ensures var schema := SchemaAt(jobs[i], w.tables, faults);
      EndsAs(jobs, w, v, i,
             Ready(jobs[i].table in w.tables, faults) && !faults.mergeRaises && jobs[i].columns <= schema, schema)
  {
    var seen := SeenAt(w.tables, jobs[i].table, faults.readFails);
    var temp := Temp(TempSchema(jobs[i].columns, seen), jobs[i].batch);
    var a := Prepares(jobs, w, i, faults);
    if Ready(jobs[i].table in w.tables, faults) {
      assert Stands(w.tables, a.tables, jobs[i].table);
      v := StatementToEnd(jobs, w, a, i, seen, temp, faults);
    } else {
      assert w.temps[i := temp] - {i} == w.temps && w.temps - {i} == w.temps;
      v := Ends(jobs, w, a, i, Failed, SchemaAt(jobs[i], w.tables, faults));
    }
  }

  lemma ReadyIsWriters(job: Job<Key, Row>, tables: map<string, Table<Key, Row>>, stored: map<string, W.Stored>,
                       kept: seq<Row>, cols: seq<string>, faults: W.Faults)
    requires Documented(kept, job.columns, cols) && SameTarget(tables, stored, job.table)
    ensures var schema := SchemaAt(job, tables, faults);
      && schema == W.SchemaAfter(faults, stored, job.table, kept)
      && (Ready(job.table in tables, faults) && !faults.mergeRaises && job.columns <= schema
          <==> W.Succeeds(faults, stored, job.table, kept, cols))
  {
    EvolvedIsWriters(tables, stored, job.table, job.columns, kept, cols, faults);
    W.DocumentedBatchSucceedsIff(faults, stored, job.table, kept, cols, job.columns);
    W.SameColumnsEverywhere(kept, job.columns);
  }

  /**
   * The protocol run by one thread alone is `merge()`: whatever remote calls fail, it ends, succeeds exactly when the
   * call does, and leaves the rows and the schema the call leaves, no temp table, other tables as they were, and the
   * lock free.
   */
  lemma SoloRunIsMerge(jobs: Calls, w: State, i: nat, faults: W.Faults, stored: map<string, W.Stored>, kept: seq<Row>,
                       cols: seq<string>)
    returns (v: State)
    requires i < |jobs| && Fresh(jobs, w, i) && SameTarget(w.tables, stored, jobs[i].table)
    requires Documented(kept, jobs[i].columns, cols)
    ensures Leads(jobs, w, v)
    ensures EndsAs(jobs, w, v, i, W.Succeeds(faults, stored, jobs[i].table, kept, cols),
                   W.SchemaAfter(faults, stored, jobs[i].table, kept))
  {
    ReadyIsWriters(jobs[i], w.tables, stored, kept, cols, faults);
    v := SoloRun(jobs, w, i, faults);
  }
}
