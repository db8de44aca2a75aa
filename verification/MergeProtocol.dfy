/**
 * Many threads merging into shared staging tables: `BQWriter.merge` cut into the steps another thread
 * can observe. A lock per table is looked up, taken, and held from the schema read to the temp drop.
 */
module MergeProtocol {
  import opened Text
  import opened KeyedMerge

  datatype Table<K, R> = Table(schema: set<string>, rows: map<K, R>)
  datatype Temp<K, R> = Temp(schema: set<string>, rows: map<K, R>)

  /**
   * One `merge()` call: its target, the columns of its rows, its deduplicated batch, and how a batch row updates its
   * match.
   */
  datatype Job<K, !R> = Job(table: string, columns: set<string>, batch: map<K, R>, upd: (R, R) -> R)

  /**
   * What `_get_schema` met: a schema, a missing table, or an error it swallowed. The code sees the last two as the same
   * `None`; nothing below lets a step tell them apart.
   */
  datatype Seen = Known(schema: set<string>) | Absent | Unread

  /** What the existence check met; an error it swallowed counts as "not there". */
  datatype Check = Present | Missing | Unanswered

  /** Where a thread stands; `swallowed` at `SchemaEvolved` says that adding the new columns failed and was ignored. */
  datatype Pc =
    | Start
    | Waiting(lock: nat)
    | Locked
    | SchemaRead(seen: Seen)
    | TempWritten(seen: Seen)
    | TargetChecked(seen: Seen, check: Check)
    | TargetEnsured(seen: Seen)
    | SchemaEvolved(seen: Seen, swallowed: bool)
    | Merged
    | Failed
    | TempDropped(ok: bool)
    | Done(ok: bool)

  /**
   * `locks` is the class-level dictionary, `holder` the thread inside each lock, `temps` the live temp
   * table of each thread. The rest records history: `turns` the threads that took a table's lock, `log` those whose
   * MERGE ran, `created` the number of `create_table` calls for a table, `misled` those of them made on a table that is
   * there because the check before them had failed.
   */
  datatype World<K, R> = World(
    locks: map<string, nat>,
    minted: nat,
    holder: map<nat, nat>,
    tables: map<string, Table<K, R>>,
    temps: map<nat, Temp<K, R>>,
    pcs: seq<Pc>,
    turns: map<string, seq<nat>>,
    log: map<string, seq<nat>>,
    created: map<string, nat>,
    misled: map<string, nat>)

  function Past(m: map<string, seq<nat>>, t: string): seq<nat> {
    if t in m then m[t] else []
  }

  function Count(m: map<string, nat>, t: string): nat {
    if t in m then m[t] else 0
  }

  function RowsOf<K, R>(tables: map<string, Table<K, R>>, t: string): map<K, R> {
    if t in tables then tables[t].rows else map[]
  }

  /** The temp table keeps the target's schema unless the batch brings a new column. */
  function TempSchema(columns: set<string>, seen: Seen): set<string> {
    if seen.Known? && columns <= seen.schema then seen.schema else columns
  }

  /** `swallowed`: the remote call raised and the error was logged or ignored. */
  datatype Action =
    | LookUpLock
    | TakeLock
    | ReadSchema(swallowed: bool)
    | WriteTemp
    | CheckTarget(swallowed: bool)
    | CreateTarget
    | EvolveSchema(swallowed: bool)
    | RunMerge
    | Raise
    | DropTemp
    | ReleaseLock

  /** The thread calls `create_table`: its check did not find the table. */
  predicate Creates(pc: Pc) {
    pc.TargetChecked? && !pc.check.Present?
  }

  predicate Enabled<K, R>(jobs: seq<Job<K, R>>, w: World<K, R>, i: nat, a: Action)
    requires i < |w.pcs| == |jobs|
  {
    var pc, t := w.pcs[i], jobs[i].table;
    match a
    case LookUpLock => pc.Start?
    case TakeLock => pc.Waiting? && pc.lock !in w.holder
    case ReadSchema(swallowed) => pc.Locked?
    case WriteTemp => pc.SchemaRead?
    case CheckTarget(swallowed) => pc.TempWritten?
    case CreateTarget => pc.TargetChecked? && i in w.temps
    case EvolveSchema(swallowed) => pc.TargetEnsured? && i in w.temps && t in w.tables
    case RunMerge => pc.SchemaEvolved? && i in w.temps && t in w.tables && jobs[i].columns <= w.tables[t].schema
    case Raise => pc.SchemaRead? || pc.TempWritten? || pc.TargetChecked? || pc.TargetEnsured? || pc.SchemaEvolved?
    case DropTemp => pc.Merged? || pc.Failed?
    case ReleaseLock => pc.TempDropped? && t in w.locks
  }

  /**
   * Where thread `i` stands after the action; a remote call that raises leads to `Failed`, and so does `create_table`
   * on a table that is there by now.
   */
  function PcAfter<K, R>(jobs: seq<Job<K, R>>, w: World<K, R>, i: nat, a: Action): Pc
    requires i < |w.pcs| == |jobs| && Enabled(jobs, w, i, a)
  {
    var pc, t := w.pcs[i], jobs[i].table;
    match a
    case LookUpLock => Waiting(if t in w.locks then w.locks[t] else w.minted)
    case TakeLock => Locked
    case ReadSchema(swallowed) =>
      SchemaRead(if swallowed then Unread else if t in w.tables then Known(w.tables[t].schema) else Absent)
    case WriteTemp => TempWritten(pc.seen)
    case CheckTarget(swallowed) =>
      TargetChecked(pc.seen, if swallowed then Unanswered else if t in w.tables then Present else Missing)
    case CreateTarget => if Creates(pc) && t in w.tables then Failed else TargetEnsured(pc.seen)
    case EvolveSchema(swallowed) => SchemaEvolved(pc.seen, pc.seen.Known? && swallowed)
    case RunMerge => Merged
    case Raise => Failed
    case DropTemp => TempDropped(pc.Merged?)
    case ReleaseLock => Done(pc.ok)
  }

  function TablesAfter<K, R>(jobs: seq<Job<K, R>>, w: World<K, R>, i: nat, a: Action): map<string, Table<K, R>>
    requires i < |w.pcs| == |jobs| && Enabled(jobs, w, i, a)
  {
    var t := jobs[i].table;
    if a.CreateTarget? && Creates(w.pcs[i]) && t !in w.tables then w.tables[t := Table(w.temps[i].schema, map[])]
    else if a.EvolveSchema? && w.pcs[i].seen.Known? && !a.swallowed then
      w.tables[t := Table(w.tables[t].schema + (w.temps[i].schema - w.pcs[i].seen.schema), w.tables[t].rows)]
    else if a.RunMerge? then
      w.tables[t := Table(w.tables[t].schema, MergeMaps(w.tables[t].rows, w.temps[i].rows, jobs[i].upd))]
    else w.tables
  }

  function TempsAfter<K, R>(jobs: seq<Job<K, R>>, w: World<K, R>, i: nat, a: Action): map<nat, Temp<K, R>>
    requires i < |w.pcs| == |jobs| && Enabled(jobs, w, i, a)
  {
    if a.WriteTemp? then w.temps[i := Temp(TempSchema(jobs[i].columns, w.pcs[i].seen), jobs[i].batch)]
    else if a.DropTemp? then w.temps - {i}
    else w.temps
  }

  /** The world after one step of thread `i`. */
  function Effect<K, R>(jobs: seq<Job<K, R>>, w: World<K, R>, i: nat, a: Action): World<K, R>
    requires i < |w.pcs| == |jobs| && Enabled(jobs, w, i, a)
  {
    var t := jobs[i].table;
    var mints := a.LookUpLock? && t !in w.locks;
    World(
      if mints then w.locks[t := w.minted] else w.locks,
      if mints then w.minted + 1 else w.minted,
      if a.TakeLock? then w.holder[w.pcs[i].lock := i]
      else if a.ReleaseLock? then w.holder - {w.locks[t]} else w.holder,
      TablesAfter(jobs, w, i, a),
      TempsAfter(jobs, w, i, a),
      w.pcs[i := PcAfter(jobs, w, i, a)],
      if a.TakeLock? then w.turns[t := Past(w.turns, t) + [i]] else w.turns,
      if a.RunMerge? then w.log[t := Past(w.log, t) + [i]] else w.log,
      if a.CreateTarget? && Creates(w.pcs[i]) then w.created[t := Count(w.created, t) + 1] else w.created,
      if a.CreateTarget? && w.pcs[i].check.Unanswered? && t in w.tables then w.misled[t := Count(w.misled, t) + 1]
      else w.misled)
  }

  ghost predicate Init<K, R>(jobs: seq<Job<K, R>>, tables: map<string, Table<K, R>>, w: World<K, R>) {
    w == World(map[], 0, map[], tables, map[], seq(|jobs|, i => Start), map[], map[], map[], map[])
  }

  ghost predicate Next<K, R>(jobs: seq<Job<K, R>>, w: World<K, R>, w': World<K, R>) {
    |w.pcs| == |jobs| && exists i: nat, a :: i < |jobs| && Enabled(jobs, w, i, a) && w' == Effect(jobs, w, i, a)
  }

  /** A run: any number of steps of any threads in any order. */
  ghost predicate Run<K, R>(jobs: seq<Job<K, R>>, tables: map<string, Table<K, R>>, ws: seq<World<K, R>>) {
    |ws| > 0 && Init(jobs, tables, ws[0]) && forall n :: 0 <= n < |ws| - 1 ==> Next(jobs, ws[n], ws[n + 1])
  }

  // ---- invariant ---------------------------------------------------------------

  /** Between taking the lock and giving it back. */
  predicate Inside(pc: Pc) {
    !(pc.Start? || pc.Waiting? || pc.Done?)
  }

  predicate HasMerged(pc: Pc) {
    pc.Merged? || pc == TempDropped(true) || pc == Done(true)
  }

  /** Lock objects: one per table, held by exactly the thread that is inside. */
  ghost predicate LockInv<K, R>(jobs: seq<Job<K, R>>, locks: map<string, nat>, minted: nat, holder: map<nat, nat>,
                                pcs: seq<Pc>) {
    && |pcs| == |jobs|
    && (forall t :: t in locks ==> locks[t] < minted)
    && (forall t, u :: t in locks && u in locks && t != u ==> locks[t] != locks[u])
    && (forall i :: 0 <= i < |jobs| && !pcs[i].Start? ==> jobs[i].table in locks)
    && (forall i :: 0 <= i < |jobs| && pcs[i].Waiting? ==> pcs[i].lock == locks[jobs[i].table])
    && (forall i :: 0 <= i < |jobs| && Inside(pcs[i]) ==> Holds(jobs, locks, holder, i))
    && (forall l :: l in holder ==> holder[l] < |jobs| && Inside(pcs[holder[l]]) && locks[jobs[holder[l]].table] == l)
  }

  ghost predicate Holds<K, R>(jobs: seq<Job<K, R>>, locks: map<string, nat>, holder: map<nat, nat>, i: int)
    requires 0 <= i < |jobs|
  {
    var t := jobs[i].table;
    t in locks && locks[t] in holder && holder[locks[t]] == i
  }

  lemma LookupKeepsLocks<K, R>(jobs: seq<Job<K, R>>, locks: map<string, nat>, minted: nat, holder: map<nat, nat>,
                               pcs: seq<Pc>, i: nat)
    requires LockInv(jobs, locks, minted, holder, pcs) && i < |jobs| && pcs[i].Start?
    ensures var t := jobs[i].table;
      if t in locks then LockInv(jobs, locks, minted, holder, pcs[i := Waiting(locks[t])])
      else LockInv(jobs, locks[t := minted], minted + 1, holder, pcs[i := Waiting(minted)])
  {
  }

  lemma TakeKeepsLocks<K, R>(jobs: seq<Job<K, R>>, locks: map<string, nat>, minted: nat, holder: map<nat, nat>,
                             pcs: seq<Pc>, i: nat)
    requires LockInv(jobs, locks, minted, holder, pcs) && i < |jobs| && pcs[i].Waiting? && pcs[i].lock !in holder
    ensures LockInv(jobs, locks, minted, holder[pcs[i].lock := i], pcs[i := Locked])
  {
  }

  lemma StayKeepsLocks<K, R>(jobs: seq<Job<K, R>>, locks: map<string, nat>, minted: nat, holder: map<nat, nat>,
                             pcs: seq<Pc>, i: nat, pc: Pc)
    requires LockInv(jobs, locks, minted, holder, pcs) && i < |jobs| && Inside(pcs[i]) && Inside(pc)
    ensures LockInv(jobs, locks, minted, holder, pcs[i := pc])
  {
  }

  lemma ReleaseKeepsLocks<K, R>(jobs: seq<Job<K, R>>, locks: map<string, nat>, minted: nat, holder: map<nat, nat>,
                                pcs: seq<Pc>, i: nat, ok: bool)
    requires LockInv(jobs, locks, minted, holder, pcs) && i < |jobs| && Inside(pcs[i])
    ensures jobs[i].table in locks && LockInv(jobs, locks, minted, holder - {locks[jobs[i].table]}, pcs[i := Done(ok)])
  {
  }

  lemma LocksUntouched<K, R>(jobs: seq<Job<K, R>>, w: World<K, R>, i: nat, a: Action)
    requires i < |w.pcs| == |jobs| && Enabled(jobs, w, i, a) && !a.LookUpLock? && !a.TakeLock? && !a.ReleaseLock?
    ensures var w' := Effect(jobs, w, i, a);
      && w'.locks == w.locks && w'.minted == w.minted && w'.holder == w.holder
      && w'.pcs == w.pcs[i := PcAfter(jobs, w, i, a)]
    ensures Inside(w.pcs[i]) && Inside(PcAfter(jobs, w, i, a))
  {
  }

  lemma LocksKept<K, R>(jobs: seq<Job<K, R>>, w: World<K, R>, i: nat, a: Action)
    requires LockInv(jobs, w.locks, w.minted, w.holder, w.pcs) && i < |jobs| && Enabled(jobs, w, i, a)
    ensures var w' := Effect(jobs, w, i, a); LockInv(jobs, w'.locks, w'.minted, w'.holder, w'.pcs)
  {
    match a
    case LookUpLock => LookupKeepsLocks(jobs, w.locks, w.minted, w.holder, w.pcs, i);
    case TakeLock => TakeKeepsLocks(jobs, w.locks, w.minted, w.holder, w.pcs, i);
    case ReleaseLock => ReleaseKeepsLocks(jobs, w.locks, w.minted, w.holder, w.pcs, i, w.pcs[i].ok);
    case _ =>
      LocksUntouched(jobs, w, i, a);
      StayKeepsLocks(jobs, w.locks, w.minted, w.holder, w.pcs, i, PcAfter(jobs, w, i, a));
  }

  lemma OnlyOneInside<K, R>(jobs: seq<Job<K, R>>, locks: map<string, nat>, minted: nat, holder: map<nat, nat>,
                            pcs: seq<Pc>, i: nat, j: nat)
    requires i < |jobs| && j < |jobs| && LockInv(jobs, locks, minted, holder, pcs)
    requires jobs[i].table == jobs[j].table && Inside(pcs[i]) && Inside(pcs[j])
    ensures i == j
  {
    assert Holds(jobs, locks, holder, i) && Holds(jobs, locks, holder, j);
  }

  ghost predicate Exclusive<K, R>(jobs: seq<Job<K, R>>, pcs: seq<Pc>) {
    && |pcs| == |jobs|
    && forall i, j :: 0 <= i < |jobs| && 0 <= j < |jobs| && jobs[i].table == jobs[j].table ==>
         Inside(pcs[i]) && Inside(pcs[j]) ==> i == j
  }

  lemma LocksExclude<K, R>(jobs: seq<Job<K, R>>, w: World<K, R>)
    requires LockInv(jobs, w.locks, w.minted, w.holder, w.pcs)
    ensures Exclusive(jobs, w.pcs)
  {
    forall i, j | 0 <= i < |jobs| && 0 <= j < |jobs| && jobs[i].table == jobs[j].table && Inside(w.pcs[i])
        && Inside(w.pcs[j])
      ensures i == j
    {
      OnlyOneInside(jobs, w.locks, w.minted, w.holder, w.pcs, i, j);
    }
  }

  // ---- temp tables and schemas -------------------------------------------------

  predicate HasTemp(pc: Pc) {
    pc.TempWritten? || pc.TargetChecked? || pc.TargetEnsured? || pc.SchemaEvolved? || pc.Merged?
  }

  /** A live temp table belongs to a thread inside a lock, and holds exactly that thread's batch. */
  ghost predicate TempHolds<K, R>(jobs: seq<Job<K, R>>, temps: map<nat, Temp<K, R>>, pcs: seq<Pc>, i: nat)
    requires |pcs| == |jobs|
  {
    && (i in temps ==> i < |jobs| && (HasTemp(pcs[i]) || pcs[i].Failed?) && temps[i].rows == jobs[i].batch)
    && (i < |jobs| && HasTemp(pcs[i]) ==>
          i in temps && (pcs[i].Merged? || temps[i].schema == TempSchema(jobs[i].columns, pcs[i].seen)))
  }

  ghost predicate TempInv<K, R>(jobs: seq<Job<K, R>>, temps: map<nat, Temp<K, R>>, pcs: seq<Pc>) {
    |pcs| == |jobs| && forall i: nat :: TempHolds(jobs, temps, pcs, i)
  }

  lemma TempKept<K, R>(jobs: seq<Job<K, R>>, w: World<K, R>, i: nat, a: Action, j: nat)
    requires i < |w.pcs| == |jobs| && Enabled(jobs, w, i, a)
    requires TempHolds(jobs, w.temps, w.pcs, i) && TempHolds(jobs, w.temps, w.pcs, j)
    ensures var w' := Effect(jobs, w, i, a); TempHolds(jobs, w'.temps, w'.pcs, j)
  {
    match a
    case LookUpLock =>
    case TakeLock =>
    case ReadSchema(_) =>
    case WriteTemp =>
    case CheckTarget(_) =>
    case CreateTarget =>
    case EvolveSchema(_) =>
    case RunMerge =>
    case Raise =>
    case DropTemp =>
    case ReleaseLock =>
  }

  /** The target's schema, once it exists, as the thread's own reads and writes make it. */
  ghost predicate SchemaIs<K, R>(job: Job<K, R>, tables: map<string, Table<K, R>>, schema: set<string>) {
    job.table in tables && tables[job.table].schema == schema
  }

  /**
   * What a thread learned inside the lock is still so: the schema it read is the target's, up to the columns it added
   * itself; a target it found missing is missing until it creates it, and then has the columns of its batch.
   */
  ghost predicate SchemaHolds<K, R>(job: Job<K, R>, tables: map<string, Table<K, R>>, pc: Pc) {
    match pc
    case SchemaRead(seen) => ReadHolds(job, tables, seen)
    case TempWritten(seen) => ReadHolds(job, tables, seen)
    case TargetChecked(seen, check) =>
      && ReadHolds(job, tables, seen)
      && (check.Present? ==> job.table in tables)
      && (check.Missing? ==> job.table !in tables)
    case TargetEnsured(seen) =>
      && job.table in tables
      && (seen.Known? ==> SchemaIs(job, tables, seen.schema))
      && (seen.Absent? ==> SchemaIs(job, tables, job.columns))
    case SchemaEvolved(seen, swallowed) =>
      && job.table in tables
      && (seen.Known? ==> SchemaIs(job, tables, if swallowed then seen.schema else seen.schema + job.columns))
      && (seen.Absent? ==> SchemaIs(job, tables, job.columns))
    case Merged => job.table in tables
    case _ => true
  }

  ghost predicate ReadHolds<K, R>(job: Job<K, R>, tables: map<string, Table<K, R>>, seen: Seen) {
    && (seen.Known? ==> SchemaIs(job, tables, seen.schema))
    && (seen.Absent? ==> job.table !in tables)
  }

  ghost predicate SchemaInv<K, R>(jobs: seq<Job<K, R>>, tables: map<string, Table<K, R>>, pcs: seq<Pc>) {
    |pcs| == |jobs| && forall i :: 0 <= i < |jobs| ==> SchemaHolds(jobs[i], tables, pcs[i])
  }

  lemma OwnSchemaKept<K, R>(jobs: seq<Job<K, R>>, w: World<K, R>, i: nat, a: Action)
    requires i < |w.pcs| == |jobs| && Enabled(jobs, w, i, a)
    requires TempHolds(jobs, w.temps, w.pcs, i) && SchemaHolds(jobs[i], w.tables, w.pcs[i])
    ensures var w' := Effect(jobs, w, i, a); SchemaHolds(jobs[i], w'.tables, w'.pcs[i])
  {
    match a
    case LookUpLock =>
    case TakeLock =>
    case ReadSchema(_) =>
    case WriteTemp =>
    case CheckTarget(_) =>
    case CreateTarget =>
    case EvolveSchema(_) =>
    case RunMerge =>
    case Raise =>
    case DropTemp =>
    case ReleaseLock =>
  }

  /** A step of thread `i` leaves the tables of other threads alone, and all tables unless it is inside the lock. */
  ghost predicate OnlyOwnTable<K, R>(jobs: seq<Job<K, R>>, w: World<K, R>, w': World<K, R>, i: nat)
    requires i < |w.pcs| == |w'.pcs| == |jobs|
  {
    && (forall t :: t != jobs[i].table ==>
      (t in w'.tables <==> t in w.tables) && (t in w.tables ==> w'.tables[t] == w.tables[t]))
    && (jobs[i].table in w.tables ==> jobs[i].table in w'.tables)
    && (!Inside(w.pcs[i]) ==> w'.tables == w.tables)
    && (forall j :: 0 <= j < |jobs| && j != i ==> w'.pcs[j] == w.pcs[j])
  }

  lemma StepsAreOwnTable<K, R>(jobs: seq<Job<K, R>>, w: World<K, R>, i: nat, a: Action)
    requires i < |w.pcs| == |jobs| && Enabled(jobs, w, i, a)
    ensures OnlyOwnTable(jobs, w, Effect(jobs, w, i, a), i)
  {
    match a
    case LookUpLock =>
    case TakeLock =>
    case ReadSchema(_) =>
    case WriteTemp =>
    case CheckTarget(_) =>
    case CreateTarget =>
    case EvolveSchema(_) =>
    case RunMerge =>
    case Raise =>
    case DropTemp =>
    case ReleaseLock =>
  }

  lemma OtherSchemasKept<K, R>(jobs: seq<Job<K, R>>, w: World<K, R>, w': World<K, R>, i: nat, j: nat)
    requires i < |w.pcs| == |w'.pcs| == |jobs| && j < |jobs| && j != i && OnlyOwnTable(jobs, w, w', i)
    requires Exclusive(jobs, w.pcs) && SchemaHolds(jobs[j], w.tables, w.pcs[j])
    ensures SchemaHolds(jobs[j], w'.tables, w'.pcs[j])
  {
  }

  /** Apart from calls misled by a failed check, a missing target is created once, and one that was there never. */
  ghost predicate CreatedOnce<K, R>(init: map<string, Table<K, R>>, w: World<K, R>, t: string) {
    && Count(w.created, t) == Count(w.misled, t) + (if t in w.tables && t !in init then 1 else 0)
    && (t in init ==> t in w.tables)
  }

  lemma CreatedKept<K, R>(jobs: seq<Job<K, R>>, init: map<string, Table<K, R>>, w: World<K, R>, i: nat, a: Action,
                          t: string)
    requires i < |w.pcs| == |jobs| && Enabled(jobs, w, i, a)
    requires SchemaHolds(jobs[i], w.tables, w.pcs[i]) && CreatedOnce(init, w, t)
    ensures CreatedOnce(init, Effect(jobs, w, i, a), t)
  {
  }

  /**
   * Without the lock: two threads that both found the target missing both call `create_table`, and the second fails.
   */
  lemma CreationRacesWithoutTheLock<K, R>(jobs: seq<Job<K, R>>, w: World<K, R>, i: nat, j: nat)
    requires i < |w.pcs| == |jobs| && j < |jobs| && i != j && jobs[i].table == jobs[j].table && i in w.temps
        && j in w.temps
    requires w.pcs[i].TargetChecked? && w.pcs[i].check.Missing? && w.pcs[j].TargetChecked? && w.pcs[j].check.Missing?
    requires jobs[i].table !in w.tables && Count(w.created, jobs[i].table) == 0
    ensures var first := Effect(jobs, w, i, CreateTarget);
      && Enabled(jobs, first, j, CreateTarget)
      && var second := Effect(jobs, first, j, CreateTarget);
         Count(second.created, jobs[i].table) == 2 && second.misled == w.misled && second.pcs[j].Failed?
  {
  }

  // ---- history -----------------------------------------------------------------

  /** Lock turns of one table: each thread once, and only the last can still be inside. */
  ghost predicate TurnsOf<K, R>(jobs: seq<Job<K, R>>, turns: seq<nat>, pcs: seq<Pc>, t: string)
    requires |pcs| == |jobs|
  {
    && (forall n :: 0 <= n < |turns| ==>
      turns[n] < |jobs| && jobs[turns[n]].table == t && (Inside(pcs[turns[n]]) || pcs[turns[n]].Done?))
    && (forall n :: 0 <= n < |turns| - 1 ==> pcs[turns[n]].Done?)
    && (forall n, m :: 0 <= n < m < |turns| ==> turns[n] != turns[m])
    && (forall i :: 0 <= i < |jobs| && jobs[i].table == t && (Inside(pcs[i]) || pcs[i].Done?) ==> i in turns)
  }

  /** The threads of `turns` whose MERGE has run, in lock order. */
  function MergedOf(turns: seq<nat>, n: nat, pcs: seq<Pc>): seq<nat>
    requires n <= |turns|
  {
    if n == 0 then []
    else
      var i := turns[n - 1];
      MergedOf(turns, n - 1, pcs) + if i < |pcs| && HasMerged(pcs[i]) then [i] else []
  }

  lemma {:induction false} MergedOfSame(turns: seq<nat>, more: seq<nat>, n: nat, pcs: seq<Pc>, pcs': seq<Pc>)
    requires n <= |turns| <= |more| && |pcs| == |pcs'|
    requires forall m :: 0 <= m < n ==> turns[m] == more[m]
    requires forall m :: 0 <= m < n && turns[m] < |pcs| ==> HasMerged(pcs[turns[m]]) == HasMerged(pcs'[turns[m]])
    ensures MergedOf(turns, n, pcs) == MergedOf(more, n, pcs')
  {
    if n > 0 {
      MergedOfSame(turns, more, n - 1, pcs, pcs');
    }
  }

  /** The log of a table is the merged part of its lock turns, in the order the lock was taken. */
  ghost predicate TurnState<K, R>(jobs: seq<Job<K, R>>, turns: seq<nat>, log: seq<nat>, pcs: seq<Pc>, t: string)
    requires |pcs| == |jobs|
  {
    TurnsOf(jobs, turns, pcs, t) && log == MergedOf(turns, |turns|, pcs)
  }

  lemma TurnsExtended<K, R>(jobs: seq<Job<K, R>>, turns: seq<nat>, pcs: seq<Pc>, t: string, i: nat)
    requires |pcs| == |jobs| && i < |jobs| && jobs[i].table == t && pcs[i].Waiting? && TurnsOf(jobs, turns, pcs, t)
    requires forall j :: 0 <= j < |jobs| && jobs[j].table == t ==> !Inside(pcs[j])
    ensures TurnsOf(jobs, turns + [i], pcs[i := Locked], t)
  {
    var more, pcs' := turns + [i], pcs[i := Locked];
    assert i !in turns;
    forall j | 0 <= j < |jobs| && jobs[j].table == t && (Inside(pcs'[j]) || pcs'[j].Done?) ensures j in more {
      if j == i { assert more[|turns|] == i; }
    }
  }

  lemma TurnTaken<K, R>(jobs: seq<Job<K, R>>, turns: seq<nat>, log: seq<nat>, pcs: seq<Pc>, t: string, i: nat)
    requires |pcs| == |jobs| && i < |jobs| && jobs[i].table == t && pcs[i].Waiting?
    requires TurnState(jobs, turns, log, pcs, t)
    requires forall j :: 0 <= j < |jobs| && jobs[j].table == t ==> !Inside(pcs[j])
    ensures TurnState(jobs, turns + [i], log, pcs[i := Locked], t)
  {
    TurnsExtended(jobs, turns, pcs, t, i);
    MergedOfSame(turns, turns + [i], |turns|, pcs, pcs[i := Locked]);
  }

  /** A step inside the lock, or out of it, that does not run MERGE. */
  lemma TurnGoesOn<K, R>(jobs: seq<Job<K, R>>, turns: seq<nat>, log: seq<nat>, pcs: seq<Pc>, t: string, i: nat, pc: Pc)
    requires |pcs| == |jobs| && i < |jobs| && TurnState(jobs, turns, log, pcs, t)
    requires Inside(pcs[i]) && (Inside(pc) || pc.Done?) && HasMerged(pc) == HasMerged(pcs[i])
    ensures TurnState(jobs, turns, log, pcs[i := pc], t)
  {
    MergedOfSame(turns, turns, |turns|, pcs, pcs[i := pc]);
  }

  lemma InsideIsLast<K, R>(jobs: seq<Job<K, R>>, turns: seq<nat>, pcs: seq<Pc>, t: string, i: nat)
    requires |pcs| == |jobs| && i < |jobs| && jobs[i].table == t && TurnsOf(jobs, turns, pcs, t) && Inside(pcs[i])
    ensures |turns| > 0 && turns[|turns| - 1] == i
  {
    assert i in turns;
    var m :| 0 <= m < |turns| && turns[m] == i;
  }

  lemma TurnMerges<K, R>(jobs: seq<Job<K, R>>, turns: seq<nat>, log: seq<nat>, pcs: seq<Pc>, t: string, i: nat)
    requires |pcs| == |jobs| && i < |jobs| && jobs[i].table == t && TurnState(jobs, turns, log, pcs, t)
    requires pcs[i].SchemaEvolved?
    ensures TurnState(jobs, turns, log + [i], pcs[i := Merged], t)
  {
    var n, pcs' := |turns|, pcs[i := Merged];
    InsideIsLast(jobs, turns, pcs, t, i);
    MergedOfSame(turns, turns, n - 1, pcs, pcs');
    assert MergedOf(turns, n, pcs) == MergedOf(turns, n - 1, pcs) + [];
    assert MergedOf(turns, n, pcs') == MergedOf(turns, n - 1, pcs') + [i];
    assert TurnsOf(jobs, turns, pcs', t);
  }

  lemma TurnUntouched<K, R>(jobs: seq<Job<K, R>>, turns: seq<nat>, log: seq<nat>, pcs: seq<Pc>, t: string, i: nat,
                            pc: Pc)
    requires |pcs| == |jobs| && i < |jobs| && TurnState(jobs, turns, log, pcs, t)
    requires jobs[i].table != t || (!Inside(pcs[i]) && !pcs[i].Done? && !Inside(pc) && !pc.Done?)
    ensures TurnState(jobs, turns, log, pcs[i := pc], t)
  {
    MergedOfSame(turns, turns, |turns|, pcs, pcs[i := pc]);
  }

  ghost predicate TurnHolds<K, R>(jobs: seq<Job<K, R>>, w: World<K, R>, t: string)
    requires |w.pcs| == |jobs|
  {
    TurnState(jobs, Past(w.turns, t), Past(w.log, t), w.pcs, t)
  }

  /** A lock nobody holds has nobody inside. */
  lemma FreeLockIsEmpty<K, R>(jobs: seq<Job<K, R>>, w: World<K, R>, i: nat)
    requires LockInv(jobs, w.locks, w.minted, w.holder, w.pcs)
    requires i < |jobs| && w.pcs[i].Waiting? && w.pcs[i].lock !in w.holder
    ensures forall j :: 0 <= j < |jobs| && jobs[j].table == jobs[i].table ==> !Inside(w.pcs[j])
  {
    forall j | 0 <= j < |jobs| && jobs[j].table == jobs[i].table ensures !Inside(w.pcs[j]) {
      assert Inside(w.pcs[j]) ==> Holds(jobs, w.locks, w.holder, j);
    }
  }

  lemma HistoryAfter<K, R>(jobs: seq<Job<K, R>>, w: World<K, R>, i: nat, a: Action, t: string)
    requires i < |w.pcs| == |jobs| && Enabled(jobs, w, i, a)
    ensures var w', mine := Effect(jobs, w, i, a), jobs[i].table == t;
      && Past(w'.turns, t) == Past(w.turns, t) + (if a.TakeLock? && mine then [i] else [])
      && Past(w'.log, t) == Past(w.log, t) + (if a.RunMerge? && mine then [i] else [])
      && w'.pcs == w.pcs[i := PcAfter(jobs, w, i, a)]
  {
  }

  lemma TurnKept<K, R>(jobs: seq<Job<K, R>>, w: World<K, R>, i: nat, a: Action, t: string)
    requires i < |w.pcs| == |jobs| && Enabled(jobs, w, i, a) && TurnHolds(jobs, w, t)
    requires a.TakeLock? ==> forall j :: 0 <= j < |jobs| && jobs[j].table == jobs[i].table ==> !Inside(w.pcs[j])
    ensures TurnHolds(jobs, Effect(jobs, w, i, a), t)
  {
    HistoryAfter(jobs, w, i, a, t);
    TurnStep(jobs, w, i, a, t, PcAfter(jobs, w, i, a));
  }

  lemma TurnStep<K, R>(jobs: seq<Job<K, R>>, w: World<K, R>, i: nat, a: Action, t: string, pc: Pc)
    requires i < |w.pcs| == |jobs| && Enabled(jobs, w, i, a) && TurnHolds(jobs, w, t) && pc == PcAfter(jobs, w, i, a)
    requires a.TakeLock? ==> forall j :: 0 <= j < |jobs| && jobs[j].table == jobs[i].table ==> !Inside(w.pcs[j])
    ensures var mine := jobs[i].table == t;
      TurnState(jobs, Past(w.turns, t) + (if a.TakeLock? && mine then [i] else []),
                Past(w.log, t) + (if a.RunMerge? && mine then [i] else []), w.pcs[i := pc], t)
  {
    var turns, log := Past(w.turns, t), Past(w.log, t);
    assert turns + [] == turns && log + [] == log;
    if jobs[i].table != t || a.LookUpLock? {
      TurnUntouched(jobs, turns, log, w.pcs, t, i, pc);
    } else if a.TakeLock? {
      TurnTaken(jobs, turns, log, w.pcs, t, i);
    } else if a.RunMerge? {
      TurnMerges(jobs, turns, log, w.pcs, t, i);
    } else {
      TurnGoesOn(jobs, turns, log, w.pcs, t, i, pc);
    }
  }

  // ---- linearizability -----------------------------------------------------------

  /** The batches of the first `n` threads of `log`, merged one after another. */
  function Sequentially<K, R>(jobs: seq<Job<K, R>>, m: map<K, R>, log: seq<nat>, n: nat): map<K, R>
    requires n <= |log|
  {
    if n == 0 then m
    else
      var before := Sequentially(jobs, m, log, n - 1);
      if log[n - 1] < |jobs| then MergeMaps(before, jobs[log[n - 1]].batch, jobs[log[n - 1]].upd) else before
  }

  lemma {:induction false} SequentiallyPrefix<K, R>(jobs: seq<Job<K, R>>, m: map<K, R>, log: seq<nat>,
      more: seq<nat>, n: nat)
    requires n <= |log| <= |more| && forall p :: 0 <= p < n ==> more[p] == log[p]
    ensures Sequentially(jobs, m, more, n) == Sequentially(jobs, m, log, n)
  {
    if n > 0 {
      SequentiallyPrefix(jobs, m, log, more, n - 1);
    }
  }

  ghost predicate RowsHold<K, R>(jobs: seq<Job<K, R>>, init: map<string, Table<K, R>>, w: World<K, R>, t: string) {
    RowsOf(w.tables, t) == Sequentially(jobs, RowsOf(init, t), Past(w.log, t), |Past(w.log, t)|)
  }

  /** Only a MERGE changes rows: a table is created empty, and new columns leave its rows alone. */
  lemma OnlyMergeChangesRows<K, R>(jobs: seq<Job<K, R>>, w: World<K, R>, i: nat, a: Action, t: string)
    requires i < |w.pcs| == |jobs| && Enabled(jobs, w, i, a) && !(a.RunMerge? && jobs[i].table == t)
    ensures RowsOf(TablesAfter(jobs, w, i, a), t) == RowsOf(w.tables, t)
  {
  }

  lemma RowsKept<K, R>(jobs: seq<Job<K, R>>, init: map<string, Table<K, R>>, w: World<K, R>, i: nat, a: Action,
                       t: string)
    requires i < |w.pcs| == |jobs| && Enabled(jobs, w, i, a)
    requires TempHolds(jobs, w.temps, w.pcs, i) && RowsHold(jobs, init, w, t)
    ensures RowsHold(jobs, init, Effect(jobs, w, i, a), t)
  {
    if a.RunMerge? && jobs[i].table == t {
      MergedRowsKept(jobs, init, w, i, t);
    } else {
      OnlyMergeChangesRows(jobs, w, i, a, t);
      assert Past(Effect(jobs, w, i, a).log, t) == Past(w.log, t);
    }
  }

  lemma MergedRowsKept<K, R>(jobs: seq<Job<K, R>>, init: map<string, Table<K, R>>, w: World<K, R>, i: nat, t: string)
    requires i < |w.pcs| == |jobs| && Enabled(jobs, w, i, RunMerge) && jobs[i].table == t
    requires TempHolds(jobs, w.temps, w.pcs, i) && RowsHold(jobs, init, w, t)
    ensures RowsHold(jobs, init, Effect(jobs, w, i, RunMerge), t)
  {
    var log := Past(w.log, t);
    SequentiallyPrefix(jobs, RowsOf(init, t), log, log + [i], |log|);
    assert Past(Effect(jobs, w, i, RunMerge).log, t) == log + [i];
  }

  // ---- all runs ------------------------------------------------------------------

  ghost predicate Inv<K, R>(jobs: seq<Job<K, R>>, init: map<string, Table<K, R>>, w: World<K, R>) {
    && LockInv(jobs, w.locks, w.minted, w.holder, w.pcs)
    && TempInv(jobs, w.temps, w.pcs)
    && SchemaInv(jobs, w.tables, w.pcs)
    && (forall t :: CreatedOnce(init, w, t))
    && (forall t :: TurnHolds(jobs, w, t))
    && (forall t :: RowsHold(jobs, init, w, t))
  }

  lemma InvStarts<K, R>(jobs: seq<Job<K, R>>, init: map<string, Table<K, R>>, w: World<K, R>)
    requires Init(jobs, init, w)
    ensures Inv(jobs, init, w)
  {
  }

  lemma InvKept<K, R>(jobs: seq<Job<K, R>>, init: map<string, Table<K, R>>, w: World<K, R>, i: nat, a: Action)
    requires Inv(jobs, init, w) && i < |jobs| && Enabled(jobs, w, i, a)
    ensures Inv(jobs, init, Effect(jobs, w, i, a))
  {
    var w' := Effect(jobs, w, i, a);
    LocksExclude(jobs, w);
    LocksKept(jobs, w, i, a);
    assert TempHolds(jobs, w.temps, w.pcs, i);
    forall j: nat { TempKept(jobs, w, i, a, j); }
    assert SchemaHolds(jobs[i], w.tables, w.pcs[i]);
    StepsAreOwnTable(jobs, w, i, a);
    OwnSchemaKept(jobs, w, i, a);
    forall j: nat | j < |jobs| ensures SchemaHolds(jobs[j], w'.tables, w'.pcs[j]) {
      if j != i { OtherSchemasKept(jobs, w, w', i, j); }
    }
    forall t { CreatedKept(jobs, init, w, i, a, t); }
    if a.TakeLock? { FreeLockIsEmpty(jobs, w, i); }
    forall t { TurnKept(jobs, w, i, a, t); }
    forall t { RowsKept(jobs, init, w, i, a, t); }
  }

  lemma {:induction false} InvAlways<K, R>(jobs: seq<Job<K, R>>, init: map<string, Table<K, R>>,
                                           ws: seq<World<K, R>>, n: nat)
    requires Run(jobs, init, ws) && n < |ws|
    ensures Inv(jobs, init, ws[n])
  {
    if n == 0 {
      InvStarts(jobs, init, ws[0]);
    } else {
      InvAlways(jobs, init, ws, n - 1);
      assert Next(jobs, ws[n - 1], ws[n - 1 + 1]);
      var i: nat, a :| i < |jobs| && Enabled(jobs, ws[n - 1], i, a) && ws[n] == Effect(jobs, ws[n - 1], i, a);
      InvKept(jobs, init, ws[n - 1], i, a);
    }
  }

  /**
   * In every run two threads merging into one table are never both inside, and live temp tables belong to lock
   * holders.
   */
  lemma OneThreadPerTable<K, R>(jobs: seq<Job<K, R>>, init: map<string, Table<K, R>>, ws: seq<World<K, R>>, n: nat)
    requires Run(jobs, init, ws) && n < |ws|
    ensures Exclusive(jobs, ws[n].pcs)
    ensures forall i :: i in ws[n].temps ==> i < |jobs| && Holds(jobs, ws[n].locks, ws[n].holder, i)
    ensures forall t, u :: t in ws[n].locks && u in ws[n].locks && ws[n].locks[t] == ws[n].locks[u] ==> t == u
  {
    InvAlways(jobs, init, ws, n);
    LocksExclude(jobs, ws[n]);
    forall i | i in ws[n].temps ensures i < |jobs| && Holds(jobs, ws[n].locks, ws[n].holder, i) {
      assert TempHolds(jobs, ws[n].temps, ws[n].pcs, i);
      assert Inside(ws[n].pcs[i]);
    }
  }

  /**
   * In every run, when a thread's MERGE is next, the target exists, and its schema is the one the thread read inside
   * the lock plus the batch's columns, unless adding them failed; a target it found missing has exactly those columns.
   */
  lemma SchemaReadIsCurrentAtMerge<K, R>(jobs: seq<Job<K, R>>, init: map<string, Table<K, R>>, ws: seq<World<K, R>>,
                                         n: nat, i: nat)
    requires Run(jobs, init, ws) && n < |ws| && i < |jobs|
    requires |ws[n].pcs| == |jobs| && ws[n].pcs[i].SchemaEvolved?
    ensures jobs[i].table in ws[n].tables
    ensures var now, columns := ws[n].tables[jobs[i].table].schema, jobs[i].columns;
      match ws[n].pcs[i].seen {
        case Known(schema) => now == if ws[n].pcs[i].swallowed then schema else schema + columns
        case Absent => now == columns
        case Unread => true
      }
  {
    InvAlways(jobs, init, ws, n);
    assert SchemaHolds(jobs[i], ws[n].tables, ws[n].pcs[i]);
  }

  /** So BigQuery accepts the MERGE, which names the batch's columns, of every call that had no error swallowed. */
  lemma MergeIsAccepted<K, R>(jobs: seq<Job<K, R>>, init: map<string, Table<K, R>>, ws: seq<World<K, R>>, n: nat,
                              i: nat)
    requires Run(jobs, init, ws) && n < |ws| && i < |jobs| && |ws[n].pcs| == |jobs|
    requires ws[n].pcs[i].SchemaEvolved? && !ws[n].pcs[i].seen.Unread? && !ws[n].pcs[i].swallowed
    ensures Enabled(jobs, ws[n], i, RunMerge)
  {
    InvAlways(jobs, init, ws, n);
    assert SchemaHolds(jobs[i], ws[n].tables, ws[n].pcs[i]);
    assert TempHolds(jobs, ws[n].temps, ws[n].pcs, i);
  }

  /** What the existence check found is still so when the thread acts on it. */
  lemma CheckIsCurrentAtCreation<K, R>(jobs: seq<Job<K, R>>, init: map<string, Table<K, R>>, ws: seq<World<K, R>>,
                                       n: nat, i: nat)
    requires Run(jobs, init, ws) && n < |ws| && i < |jobs| && |ws[n].pcs| == |jobs| && ws[n].pcs[i].TargetChecked?
    ensures ws[n].pcs[i].check.Missing? ==> jobs[i].table !in ws[n].tables
    ensures ws[n].pcs[i].check.Present? ==> jobs[i].table in ws[n].tables
  {
    InvAlways(jobs, init, ws, n);
    assert SchemaHolds(jobs[i], ws[n].tables, ws[n].pcs[i]);
  }

  /**
   * In every run `create_table` is called exactly once for a target that was missing and never for one that was there,
   * apart from calls on an existing table by threads whose check had itself failed.
   */
  lemma TargetsAreCreatedOnce<K, R>(jobs: seq<Job<K, R>>, init: map<string, Table<K, R>>, ws: seq<World<K, R>>,
                                    n: nat, t: string)
    requires Run(jobs, init, ws) && n < |ws|
    ensures Count(ws[n].created, t) == Count(ws[n].misled, t) + if t in ws[n].tables && t !in init then 1 else 0
  {
    InvAlways(jobs, init, ws, n);
    assert CreatedOnce(init, ws[n], t);
  }

  /**
   * In every run, at every moment, a table's rows are its initial rows with the finished merges applied
   * one after another, in the order in which their threads took the table's lock.
   */
  lemma MergesAreSequential<K, R>(jobs: seq<Job<K, R>>, init: map<string, Table<K, R>>, ws: seq<World<K, R>>,
                                  n: nat, t: string)
    requires Run(jobs, init, ws) && n < |ws|
    ensures var turns := Past(ws[n].turns, t);
      var merged := MergedOf(turns, |turns|, ws[n].pcs);
      RowsOf(ws[n].tables, t) == Sequentially(jobs, RowsOf(init, t), merged, |merged|)
  {
    InvAlways(jobs, init, ws, n);
    assert TurnHolds(jobs, ws[n], t);
    assert RowsHold(jobs, init, ws[n], t);
  }

  /**
   * No run gets stuck: while a call is unfinished, some call into the same table can take a step of its own. Only a
   * call that had an error swallowed can be left with nothing but a rejected MERGE.
   */
  lemma NeverStuck<K, R>(jobs: seq<Job<K, R>>, init: map<string, Table<K, R>>, ws: seq<World<K, R>>, n: nat, i: nat)
    returns (j: nat, a: Action)
    requires Run(jobs, init, ws) && n < |ws| && i < |jobs|
    requires |ws[n].pcs| == |jobs| && !ws[n].pcs[i].Done?
    ensures j < |jobs| && jobs[j].table == jobs[i].table && Enabled(jobs, ws[n], j, a)
    ensures a.Raise? ==>
      && ws[n].pcs[j].SchemaEvolved? && (ws[n].pcs[j].seen.Unread? || ws[n].pcs[j].swallowed)
      && !Enabled(jobs, ws[n], j, RunMerge)
  {
    InvAlways(jobs, init, ws, n);
    var w := ws[n];
    j := i;
    if w.pcs[i].Waiting? && w.pcs[i].lock in w.holder {
      j := w.holder[w.pcs[i].lock];
    }
    assert TempHolds(jobs, w.temps, w.pcs, j) && SchemaHolds(jobs[j], w.tables, w.pcs[j]);
    a := OwnStep(jobs, w, j);
  }

  lemma OwnStep<K, R>(jobs: seq<Job<K, R>>, w: World<K, R>, j: nat) returns (a: Action)
    requires j < |w.pcs| == |jobs| && !w.pcs[j].Done? && (w.pcs[j].Waiting? ==> w.pcs[j].lock !in w.holder)
    requires TempHolds(jobs, w.temps, w.pcs, j) && SchemaHolds(jobs[j], w.tables, w.pcs[j])
    requires !w.pcs[j].Start? ==> jobs[j].table in w.locks
    ensures Enabled(jobs, w, j, a)
    ensures a.Raise? ==>
      w.pcs[j].SchemaEvolved? && (w.pcs[j].seen.Unread? || w.pcs[j].swallowed) && !Enabled(jobs, w, j, RunMerge)
  {
    match w.pcs[j]
    case Start => a := LookUpLock;
    case Waiting(_) => a := TakeLock;
    case Locked => a := ReadSchema(false);
    case SchemaRead(_) => a := WriteTemp;
    case TempWritten(_) => a := CheckTarget(false);
    case TargetChecked(_, _) => a := CreateTarget;
    case TargetEnsured(_) => a := EvolveSchema(false);
    case SchemaEvolved(_, _) => a := if Enabled(jobs, w, j, RunMerge) then RunMerge else Raise;
    case Merged => a := DropTemp;
    case Failed => a := DropTemp;
    case TempDropped(_) => a := ReleaseLock;
  }

  // ---- schedule independence -----------------------------------------------------

  /** The calls into table `t` bring disjoint keys; nothing is asked of calls into other tables. */
  ghost predicate DisjointIn<K, R>(jobs: seq<Job<K, R>>, t: string) {
    forall i, j :: 0 <= i < j < |jobs| && jobs[i].table == t && jobs[j].table == t ==>
      jobs[i].batch.Keys !! jobs[j].batch.Keys
  }

  ghost predicate Distinct(log: seq<nat>) {
    forall p, q :: 0 <= p < q < |log| ==> log[p] != log[q]
  }

  /** What one key holds after all calls into table `t` have merged: its single batch row over its initial row. */
  ghost predicate KeyIsSettled<K, R>(jobs: seq<Job<K, R>>, m: map<K, R>, log: seq<nat>, n: nat, out: map<K, R>, k: K)
    requires n <= |log|
  {
    && (forall p :: 0 <= p < n && log[p] < |jobs| && k in jobs[log[p]].batch ==>
          k in out && out[k] == if k in m then jobs[log[p]].upd(m[k], jobs[log[p]].batch[k]) else jobs[log[p]].batch[k])
    && ((forall p :: 0 <= p < n && log[p] < |jobs| ==> k !in jobs[log[p]].batch) ==>
          (k in out <==> k in m) && (k in m ==> out[k] == m[k]))
  }

  lemma {:induction false} SequentiallySettles<K, R>(jobs: seq<Job<K, R>>, m: map<K, R>, log: seq<nat>, n: nat,
      t: string, k: K)
    requires n <= |log| && Distinct(log) && DisjointIn(jobs, t)
    requires forall p :: 0 <= p < |log| ==> log[p] < |jobs| && jobs[log[p]].table == t
    ensures KeyIsSettled(jobs, m, log, n, Sequentially(jobs, m, log, n), k)
  {
    if n > 0 {
      SequentiallySettles(jobs, m, log, n - 1, t, k);
      var i := log[n - 1];
      if k in jobs[i].batch {
        forall p | 0 <= p < n - 1 ensures k !in jobs[log[p]].batch {
          assert log[p] != i;
        }
      }
    }
  }

  /** All calls into `t` have finished and succeeded. */
  ghost predicate Finished<K, R>(jobs: seq<Job<K, R>>, pcs: seq<Pc>, t: string) {
    |pcs| == |jobs| && forall i :: 0 <= i < |jobs| && jobs[i].table == t ==> pcs[i] == Done(true)
  }

  lemma FinishedLog<K, R>(jobs: seq<Job<K, R>>, w: World<K, R>, t: string)
    requires |w.pcs| == |jobs| && TurnHolds(jobs, w, t) && Finished(jobs, w.pcs, t)
    ensures Past(w.log, t) == Past(w.turns, t)
    ensures forall i: nat :: i in Past(w.log, t) <==> i < |jobs| && jobs[i].table == t
  {
    AllMerged(Past(w.turns, t), |Past(w.turns, t)|, w.pcs);
  }

  lemma {:induction false} AllMerged(turns: seq<nat>, n: nat, pcs: seq<Pc>)
    requires n <= |turns| && forall p :: 0 <= p < n ==> turns[p] < |pcs| && HasMerged(pcs[turns[p]])
    ensures MergedOf(turns, n, pcs) == turns[..n]
  {
    if n > 0 {
      AllMerged(turns, n - 1, pcs);
    }
  }

  /** After a run in which all calls into `t` succeeded, every key is settled by a log of exactly those calls. */
  lemma FinishedRunSettles<K, R>(jobs: seq<Job<K, R>>, init: map<string, Table<K, R>>, t: string,
                                 ws: seq<World<K, R>>, k: K) returns (log: seq<nat>)
    requires DisjointIn(jobs, t) && Run(jobs, init, ws) && Finished(jobs, ws[|ws| - 1].pcs, t)
    ensures KeyIsSettled(jobs, RowsOf(init, t), log, |log|, RowsOf(ws[|ws| - 1].tables, t), k)
    ensures LogIsCallsInto(jobs, log, t)
  {
    var w := ws[|ws| - 1];
    InvAlways(jobs, init, ws, |ws| - 1);
    assert TurnHolds(jobs, w, t) && RowsHold(jobs, init, w, t);
    FinishedLog(jobs, w, t);
    log := Past(w.log, t);
    SequentiallySettles(jobs, RowsOf(init, t), log, |log|, t, k);
  }

  /** Every call of `a` into `t` is among those of `b`. */
  ghost predicate CallsCovered<K, R>(a: seq<Job<K, R>>, b: seq<Job<K, R>>, t: string) {
    forall i :: 0 <= i < |a| && a[i].table == t ==> a[i] in b
  }

  ghost predicate SameCallsInto<K, R>(a: seq<Job<K, R>>, b: seq<Job<K, R>>, t: string) {
    CallsCovered(a, b, t) && CallsCovered(b, a, t)
  }

  /**
   * Whatever the schedule, and whatever else is merged: two runs that make the same calls into a table, with disjoint
   * keys, starting from the same rows of it, leave the same rows in it if all of these calls succeed. Other tables,
   * calls into them and their outcomes may differ.
   */
  lemma ScheduleDoesNotMatter<K(!new), R>(a: seq<Job<K, R>>, start: map<string, Table<K, R>>, us: seq<World<K, R>>,
                                          b: seq<Job<K, R>>, other: map<string, Table<K, R>>, vs: seq<World<K, R>>,
                                          t: string)
    requires SameCallsInto(a, b, t) && DisjointIn(a, t) && DisjointIn(b, t) && RowsOf(start, t) == RowsOf(other, t)
    requires Run(a, start, us) && Finished(a, us[|us| - 1].pcs, t)
    requires Run(b, other, vs) && Finished(b, vs[|vs| - 1].pcs, t)
    ensures RowsOf(us[|us| - 1].tables, t) == RowsOf(vs[|vs| - 1].tables, t)
  {
    var x, y := RowsOf(us[|us| - 1].tables, t), RowsOf(vs[|vs| - 1].tables, t);
    forall k ensures (k in x <==> k in y) && (k in x ==> x[k] == y[k]) {
      var p := FinishedRunSettles(a, start, t, us, k);
      var q := FinishedRunSettles(b, other, t, vs, k);
      SettledAgree(a, p, b, q, t, RowsOf(start, t), x, y, k);
    }
    assert x.Keys == y.Keys;
  }

  /** The log names exactly the calls into `t`. */
  ghost predicate LogIsCallsInto<K, R>(jobs: seq<Job<K, R>>, log: seq<nat>, t: string) {
    forall i: nat :: i in log <==> i < |jobs| && jobs[i].table == t
  }

  /** A call of one log that brings a key, found in the other log. */
  lemma BroughtInOther<K, R>(a: seq<Job<K, R>>, p: seq<nat>, b: seq<Job<K, R>>, q: seq<nat>, t: string, n: nat)
    returns (m: nat)
    requires CallsCovered(a, b, t) && LogIsCallsInto(a, p, t) && LogIsCallsInto(b, q, t) && n < |p|
    ensures p[n] < |a| && m < |q| && q[m] < |b| && b[q[m]] == a[p[n]]
  {
    assert p[n] in p;
    var j: nat :| j < |b| && b[j] == a[p[n]];
    assert j in q;
    m :| m < |q| && q[m] == j;
  }

  lemma SettledAgree<K, R>(a: seq<Job<K, R>>, p: seq<nat>, b: seq<Job<K, R>>, q: seq<nat>, t: string, m: map<K, R>,
                           x: map<K, R>, y: map<K, R>, k: K)
    requires SameCallsInto(a, b, t) && LogIsCallsInto(a, p, t) && LogIsCallsInto(b, q, t)
    requires KeyIsSettled(a, m, p, |p|, x, k) && KeyIsSettled(b, m, q, |q|, y, k)
    ensures k in x <==> k in y
    ensures k in x ==> x[k] == y[k]
  {
    if n: nat :| n < |p| && p[n] < |a| && k in a[p[n]].batch {
      var l := BroughtInOther(a, p, b, q, t, n);
    } else {
      forall l: nat | l < |q| && q[l] < |b| ensures k !in b[q[l]].batch {
        var n := BroughtInOther(b, q, a, p, t, l);
      }
    }
  }
}
