/** `run_backfill`: which sub-runs a backfill makes, and what they pull between them. */
module BackfillPlan {
  import opened Text
  import opened Blocks
  import opened Positions
  import opened Dates
  import opened Chunks
  import opened Modes
  import opened SyncRun

  /** One `job.run(..)`: the date of its objects, its entities, its mode. */
  datatype SubRun = SubRun(date: Day, entities: seq<string>, mode: Mode)

  /** One side of `partition`, in order. */
  function Part(entities: seq<string>, n: nat, windowable: string -> bool, side: bool): (part: seq<string>)
    requires n <= |entities|
  {
    if n == 0 then []
    else
      var before := Part(entities, n - 1, windowable, side);
      if windowable(entities[n - 1]) == side then before + [entities[n - 1]] else before
  }

  lemma {:induction false} PartHolds(entities: seq<string>, n: nat, windowable: string -> bool, side: bool, e: string)
    requires n <= |entities|
    ensures e in Part(entities, n, windowable, side) <==> e in entities[..n] && windowable(e) == side
    ensures Distinct(entities[..n]) ==> Distinct(Part(entities, n, windowable, side))
  {
    if n > 0 {
      PartHolds(entities, n - 1, windowable, side, e);
      PartHolds(entities, n - 1, windowable, side, entities[n - 1]);
      assert entities[..n] == entities[..n - 1] + [entities[n - 1]];
      assert Distinct(entities[..n]) ==> Distinct(entities[..n - 1]) && entities[n - 1] !in entities[..n - 1];
    }
  }

  /** The partition keeps the order: it reads its entities at increasing positions, and misses none. */
  lemma {:induction false} PartKeepsOrder(entities: seq<string>, n: nat, windowable: string -> bool, side: bool)
    returns (at: seq<nat>)
    requires n <= |entities|
    ensures |at| == |Part(entities, n, windowable, side)|
    ensures forall k :: 0 <= k < |at| ==> at[k] < n && Part(entities, n, windowable, side)[k] == entities[at[k]]
    ensures forall k, l :: 0 <= k < l < |at| ==> at[k] < at[l]
    ensures forall i: nat :: i < n ==> (i in at <==> windowable(entities[i]) == side)
  {
    at := [];
    if n > 0 {
      at := PartKeepsOrder(entities, n - 1, windowable, side);
      if windowable(entities[n - 1]) == side {
        at := at + [n - 1];
      }
    }
  }

  function ChunkRun(c: Chunk, entities: seq<string>): SubRun {
    SubRun(c.to, entities, Backfill(c.from, c.to))
  }

  function ChunkRuns(chunks: seq<Chunk>, entities: seq<string>): (runs: seq<SubRun>)
    ensures |runs| == |chunks|
  {
    seq(|chunks|, k requires 0 <= k < |chunks| => ChunkRun(chunks[k], entities))
  }

  /** One unfiltered pull of the entities without a date, then one windowed pull per chunk of the others. */
  function Plan(chunks: seq<Chunk>, to: Day, fullOnce: seq<string>, windowed: seq<string>): seq<SubRun> {
    (if fullOnce == [] then [] else [SubRun(to, fullOnce, Master)])
      + (if windowed == [] then [] else ChunkRuns(chunks, windowed))
  }

  // ---- the loop ------------------------------------------------------------------

  /** What the units of a sub-run will return, in the order of the units. */
  function UnitResults(run: SubRun, tenants: seq<string>, world: nat -> Result): (results: seq<Result>)
    ensures |results| == |Units(tenants, run.entities)|
  {
    seq(|Units(tenants, run.entities)|, u requires 0 <= u < |Units(tenants, run.entities)| => world(u))
  }

  /** The outcomes of one sub-run: one per unit, in some completion order. */
  ghost predicate PartOf(outcomes: seq<Outcome>, run: SubRun, tenants: seq<string>, world: nat -> Result) {
    OnePerUnit(outcomes, Units(tenants, run.entities), UnitResults(run, tenants, world))
  }

  function ResultsOf(world: (nat, nat) -> Result, k: nat): nat -> Result {
    (u: nat) => world(k, u)
  }

  ghost predicate PartsOf(parts: seq<seq<Outcome>>, runs: seq<SubRun>, tenants: seq<string>,
                          world: (nat, nat) -> Result) {
    |parts| == |runs| && forall k: nat :: k < |runs| ==> PartOf(parts[k], runs[k], tenants, ResultsOf(world, k))
  }

  /** A manifest's outcomes: those of the sub-runs, one after another. */
  ghost predicate ManifestOf(outcomes: seq<Outcome>, runs: seq<SubRun>, tenants: seq<string>,
                             world: (nat, nat) -> Result) {
    exists parts :: PartsOf(parts, runs, tenants, world) && outcomes == Joined(parts, |parts|)
  }

  /** The sub-runs of a backfill over the range: the plan for its chunks, which only windowable entities need. */
  ghost predicate PlanOf(runs: seq<SubRun>, from: Day, to: Day, months: nat, entities: seq<string>,
                         windowable: string -> bool) {
    exists chunks :: ChunksFor(chunks, from, to, months, entities, windowable)
      && PlanWith(runs, chunks, to, entities, windowable)
  }

  ghost predicate ChunksFor(chunks: seq<Chunk>, from: Day, to: Day, months: nat, entities: seq<string>,
                            windowable: string -> bool) {
    Part(entities, |entities|, windowable, true) == [] || Chunked(chunks, from, to, months)
  }

  ghost predicate PlanWith(runs: seq<SubRun>, chunks: seq<Chunk>, to: Day, entities: seq<string>,
                           windowable: string -> bool) {
    runs == Plan(chunks, to, Part(entities, |entities|, windowable, false),
      Part(entities, |entities|, windowable, true))
  }

  method RunPart(run: SubRun, tenants: seq<string>, maxConcurrent: nat, world: nat -> Result)
    returns (outcomes: seq<Outcome>)
    ensures PartOf(outcomes, run, tenants, world)
    ensures |outcomes| == |tenants| * |run.entities|
  {
    outcomes := Run(tenants, run.entities, UnitResults(run, tenants, world), maxConcurrent);
  }

  /** The loop over the chunks: one sub-run each, after those already made. */
  method RunWindows(windows: seq<Chunk>, windowed: seq<string>, tenants: seq<string>, maxConcurrent: nat,
                    world: (nat, nat) -> Result, runsBefore: seq<SubRun>, partsBefore: seq<seq<Outcome>>)
    returns (runs: seq<SubRun>, parts: seq<seq<Outcome>>)
    requires PartsOf(partsBefore, runsBefore, tenants, world)
    ensures runs == runsBefore + ChunkRuns(windows, windowed) && PartsOf(parts, runs, tenants, world)
  {
    runs, parts := runsBefore, partsBefore;
    for k := 0 to |windows|
      invariant |runs| == |runsBefore| + k && runs == runsBefore + ChunkRuns(windows, windowed)[..k]
      invariant PartsOf(parts, runs, tenants, world)
    {
      var run, index := ChunkRun(windows[k], windowed), |runs|;
      var outcomes := RunPart(run, tenants, maxConcurrent, ResultsOf(world, index));
      OneMorePart(parts, runs, tenants, world, outcomes, run);
      runs, parts := runs + [run], parts + [outcomes];
    }
  }

  /**
   * `run_backfill` on a parsed range. `world(k, u)` is what unit `u` of sub-run `k` will return. No manifest for a
   * reversed range or an empty entity list; otherwise the outcomes of all sub-runs of the plan, in plan order.
   */
  method RunBackfill(from: Day, to: Day, chunkMonths: nat, tenants: seq<string>, entities: seq<string>,
                     windowable: string -> bool, maxConcurrent: nat, world: (nat, nat) -> Result)
    returns (merged: Option<seq<Outcome>>, ghost runs: seq<SubRun>)
    requires to != MAX || Part(entities, |entities|, windowable, true) == []
    ensures merged.None? <==> Before(to, from) || entities == []
    ensures merged.Some? ==>
      && PlanOf(runs, from, to, AtLeastOne(chunkMonths), entities, windowable)
      && ManifestOf(merged.value, runs, tenants, world)
  {
    runs := [];
    if Before(to, from) {
      return None, runs;
    }
    var fullOnce := Part(entities, |entities|, windowable, false);
    var windowed := Part(entities, |entities|, windowable, true);
    var subRuns: seq<SubRun>, parts: seq<seq<Outcome>> := [], [];
    if fullOnce != [] {
      var run := SubRun(to, fullOnce, Master);
      var outcomes := RunPart(run, tenants, maxConcurrent, ResultsOf(world, 0));
      subRuns, parts := [run], [outcomes];
    }
    ghost var chunks: seq<Chunk> := [];
    if windowed != [] {
      var windows := BackfillChunks(from, to, chunkMonths);
      chunks := windows;
      SomeChunk(windows, from, to, AtLeastOne(chunkMonths));
      subRuns, parts := RunWindows(windows, windowed, tenants, maxConcurrent, world, subRuns, parts);
    }
    runs := subRuns;
    assert PlanWith(runs, chunks, to, entities, windowable);
    EmptyParts(entities, windowable);
    merged := MergeManifests(parts);
  }

  /** The first manifest, extended by the others. */
  method MergeManifests(parts: seq<seq<Outcome>>) returns (merged: Option<seq<Outcome>>)
    ensures merged == if parts == [] then None else Some(Joined(parts, |parts|))
  {
    if parts == [] {
      return None;
    }
    var all := parts[0];
    for k := 1 to |parts|
      invariant all == Joined(parts, k)
    {
      all := all + parts[k];
    }
    merged := Some(all);
  }

  lemma OneMorePart(parts: seq<seq<Outcome>>, runs: seq<SubRun>, tenants: seq<string>, world: (nat, nat) -> Result,
                    outcomes: seq<Outcome>, run: SubRun)
    requires PartsOf(parts, runs, tenants, world) && PartOf(outcomes, run, tenants, ResultsOf(world, |runs|))
    ensures PartsOf(parts + [outcomes], runs + [run], tenants, world)
  {
  }

  lemma SomeChunk(chunks: seq<Chunk>, from: Day, to: Day, months: nat)
    requires Chunked(chunks, from, to, months) && !Before(to, from)
    ensures chunks != []
  {
    var cursors :| ChunkList(chunks, cursors, from, to, months);
  }

  lemma EmptyParts(entities: seq<string>, windowable: string -> bool)
    ensures Part(entities, |entities|, windowable, false) == [] && Part(entities, |entities|, windowable, true) == []
            <==> entities == []
  {
    if entities != [] {
      PartHolds(entities, |entities|, windowable, windowable(entities[0]), entities[0]);
    }
  }

  // ---- what the plan covers --------------------------------------------------------

  /** Unit `u` of sub-run `k` pulls the entity for the tenant, with the filter the mode gives it. */
  ghost predicate Pulls(runs: seq<SubRun>, tenants: seq<string>, k: nat, u: nat, tenant: string, entity: string)
    requires k < |runs|
  {
    var units := Units(tenants, runs[k].entities);
    u < |units| && units[u] == (tenant, entity)
  }

  function FilterOf(run: SubRun, windowable: bool, windowDays: int): Option<Filter> {
    FetchParams(run.mode, windowable, run.date, windowDays)
  }

  predicate LetsThrough(run: SubRun, windowable: bool, windowDays: int, d: Day) {
    var f := FilterOf(run, windowable, windowDays);
    f.Some? && Admits(f.value, d)
  }

  /** The position of a pair among the units of a sub-run. */
  lemma UnitPosition(tenants: seq<string>, entities: seq<string>, tenant: string, entity: string) returns (u: nat)
    requires Distinct(tenants) && Distinct(entities) && tenant in tenants && entity in entities
    ensures u < |Units(tenants, entities)| && Units(tenants, entities)[u] == (tenant, entity)
    ensures forall v: nat :: v < |Units(tenants, entities)| && Units(tenants, entities)[v] == (tenant, entity) ==>
        v == u
  {
    UnitsArePairsOnce(tenants, entities, tenant, entity);
    var units := Units(tenants, entities);
    u :| u < |units| && units[u] == (tenant, entity);
  }

  /** The windowed part of the plan starts after the one unfiltered sub-run, if there is one. */
  function Offset(entities: seq<string>, windowable: string -> bool): nat {
    if Part(entities, |entities|, windowable, false) == [] then 0 else 1
  }

  lemma PlanAt(chunks: seq<Chunk>, to: Day, undated: seq<string>, windowed: seq<string>, k: nat)
    requires k < |Plan(chunks, to, undated, windowed)|
    ensures var at := if undated == [] then 0 else 1;
      if k < at then Plan(chunks, to, undated, windowed)[k] == SubRun(to, undated, Master)
      else k - at < |chunks| && Plan(chunks, to, undated, windowed)[k] == ChunkRun(chunks[k - at], windowed)
  {
  }

  /** Which sub-runs an entity is in, and what they are. */
  lemma PlannedRun(runs: seq<SubRun>, chunks: seq<Chunk>, to: Day, entities: seq<string>,
                   windowable: string -> bool, entity: string, k: nat)
    requires PlanWith(runs, chunks, to, entities, windowable) && k < |runs|
    ensures var at := Offset(entities, windowable);
      && (k < at ==> runs[k].mode == Master && runs[k].date == to)
      && (k >= at ==>
            && k - at < |chunks|
            && runs[k] == ChunkRun(chunks[k - at], Part(entities, |entities|, windowable, true)))
      && (entity in runs[k].entities <==> entity in entities && (windowable(entity) <==> k >= at))
    ensures Distinct(entities) ==> Distinct(runs[k].entities)
  {
    var undated, windowed :=
        Part(entities, |entities|, windowable, false), Part(entities, |entities|, windowable, true);
    PartHolds(entities, |entities|, windowable, true, entity);
    PartHolds(entities, |entities|, windowable, false, entity);
    assert entities[..|entities|] == entities;
    PlanAt(chunks, to, undated, windowed, k);
  }

  /** Where an entity's unit stands among the units of a part of the plan. */
  lemma PartPosition(tenants: seq<string>, entities: seq<string>, windowable: string -> bool, tenant: string,
                     entity: string)
    returns (u: nat)
    requires Distinct(tenants) && Distinct(entities) && tenant in tenants && entity in entities
    ensures var part := Part(entities, |entities|, windowable, windowable(entity)); var units := Units(tenants, part);
      && part != [] && u < |units| && units[u] == (tenant, entity)
      && forall v: nat :: v < |units| && units[v] == (tenant, entity) ==> v == u
  {
    PartHolds(entities, |entities|, windowable, windowable(entity), entity);
    assert entities[..|entities|] == entities;
    u := UnitPosition(tenants, Part(entities, |entities|, windowable, windowable(entity)), tenant, entity);
  }

  lemma PulledEntity(runs: seq<SubRun>, tenants: seq<string>, k: nat, u: nat, tenant: string, entity: string)
    requires k < |runs| && Pulls(runs, tenants, k, u, tenant, entity)
    ensures entity in runs[k].entities
  {
    UnitsArePairsOnce(tenants, runs[k].entities, tenant, entity);
    assert Units(tenants, runs[k].entities)[u] in Units(tenants, runs[k].entities);
  }

  lemma ChunkLetsThrough(c: Chunk, entities: seq<string>, windowDays: int, d: Day)
    ensures LetsThrough(ChunkRun(c, entities), true, windowDays, d) <==> Within(d, c)
  {
  }

  lemma WindowedRun(runs: seq<SubRun>, chunks: seq<Chunk>, to: Day, entities: seq<string>,
                    windowable: string -> bool, entity: string, k: nat)
    requires PlanWith(runs, chunks, to, entities, windowable) && windowable(entity) && k < |runs|
        && entity in runs[k].entities
    ensures var at := Offset(entities, windowable);
      at <= k && k - at < |chunks| && runs[k] == ChunkRun(chunks[k - at], Part(entities, |entities|, windowable, true))
  {
    PlannedRun(runs, chunks, to, entities, windowable, entity, k);
  }

  lemma UndatedRun(runs: seq<SubRun>, chunks: seq<Chunk>, to: Day, entities: seq<string>, windowable: string -> bool,
                   entity: string, k: nat)
    requires PlanWith(runs, chunks, to, entities, windowable) && !windowable(entity) && k < |runs|
        && entity in runs[k].entities
    ensures k == 0
  {
    PlannedRun(runs, chunks, to, entities, windowable, entity, k);
  }

  /** A sub-run with a windowable entity is that of a chunk, and lets through that chunk's days. */
  lemma WindowedDays(runs: seq<SubRun>, chunks: seq<Chunk>, to: Day, entities: seq<string>, windowable: string -> bool,
                     windowDays: int, entity: string, d: Day, k: nat)
    requires PlanWith(runs, chunks, to, entities, windowable) && windowable(entity) && k < |runs|
        && entity in runs[k].entities
    ensures var at := Offset(entities, windowable);
      at <= k && k - at < |chunks| && (LetsThrough(runs[k], true, windowDays, d) <==> Within(d, chunks[k - at]))
    ensures runs[k].entities == Part(entities, |entities|, windowable, true)
  {
    WindowedRun(runs, chunks, to, entities, windowable, entity, k);
    ChunkLetsThrough(chunks[k - Offset(entities, windowable)], Part(entities, |entities|, windowable, true), windowDays,
      d);
  }

  /**
   * Every tenant's every windowable entity is asked for every day of the range exactly once: one sub-run has a unit for
   * the pair whose filter lets the day through, and no other unit of any sub-run does.
   */
  lemma DayPulledOnce(runs: seq<SubRun>, from: Day, to: Day, months: nat, tenants: seq<string>, entities: seq<string>,
                      windowable: string -> bool, windowDays: int, tenant: string, entity: string, d: Day)
    returns (k: nat, u: nat)
    requires PlanOf(runs, from, to, months, entities, windowable)
    requires Distinct(tenants) && Distinct(entities) && tenant in tenants && entity in entities && windowable(entity)
    requires NotAfter(from, d) && NotAfter(d, to)
    ensures k < |runs| && Pulls(runs, tenants, k, u, tenant, entity) && LetsThrough(runs[k], true, windowDays, d)
    ensures forall l: nat, v: nat ::
      l < |runs| && Pulls(runs, tenants, l, v, tenant, entity) && LetsThrough(runs[l], true, windowDays, d) ==>
        l == k && v == u
  {
    var chunks :| ChunksFor(chunks, from, to, months, entities, windowable)
        && PlanWith(runs, chunks, to, entities, windowable);
    var at := Offset(entities, windowable);
    u := PartPosition(tenants, entities, windowable, tenant, entity);
    EveryDayInOneChunk(chunks, from, to, months, d);
    var c :| 0 <= c < |chunks| && Within(d, chunks[c]);
    k := at + c;
    PlannedRun(runs, chunks, to, entities, windowable, entity, k);
    WindowedDays(runs, chunks, to, entities, windowable, windowDays, entity, d, k);
    forall l: nat, v: nat | l < |runs| && Pulls(runs, tenants, l, v, tenant, entity)
        && LetsThrough(runs[l], true, windowDays, d)
      ensures l == k && v == u
    {
      PulledEntity(runs, tenants, l, v, tenant, entity);
      WindowedDays(runs, chunks, to, entities, windowable, windowDays, entity, d, l);
    }
  }

  /** Every tenant's every other entity is pulled exactly once, without a filter. */
  lemma UndatedPulledOnce(runs: seq<SubRun>, from: Day, to: Day, months: nat, tenants: seq<string>,
                          entities: seq<string>,
                          windowable: string -> bool, windowDays: int, tenant: string, entity: string)
    returns (k: nat, u: nat)
    requires PlanOf(runs, from, to, months, entities, windowable)
    requires Distinct(tenants) && Distinct(entities) && tenant in tenants && entity in entities && !windowable(entity)
    ensures k < |runs| && Pulls(runs, tenants, k, u, tenant, entity)
        && FilterOf(runs[k], false, windowDays) == Some(Everything)
    ensures forall l: nat, v: nat :: l < |runs| && Pulls(runs, tenants, l, v, tenant, entity) ==> l == k && v == u
  {
    var chunks :| ChunksFor(chunks, from, to, months, entities, windowable)
        && PlanWith(runs, chunks, to, entities, windowable);
    k := 0;
    u := PartPosition(tenants, entities, windowable, tenant, entity);
    forall l: nat, v: nat | l < |runs| && Pulls(runs, tenants, l, v, tenant, entity) ensures l == k && v == u {
      PulledEntity(runs, tenants, l, v, tenant, entity);
      PlannedRun(runs, chunks, to, entities, windowable, entity, l);
    }
  }

  /** The manifest has one outcome per tenant for each undated entity and for each chunk of each windowable one. */
  lemma ManifestSize(outcomes: seq<Outcome>, runs: seq<SubRun>, chunks: seq<Chunk>, from: Day, to: Day, months: nat,
                     tenants: seq<string>, entities: seq<string>, windowable: string -> bool,
                     world: (nat, nat) -> Result)
    requires PlanOf(runs, from, to, months, entities, windowable)
    requires ChunksFor(chunks, from, to, months, entities, windowable)
    requires ManifestOf(outcomes, runs, tenants, world)
    ensures var undated, windowed :=
        Part(entities, |entities|, windowable, false), Part(entities, |entities|, windowable, true);
      |outcomes| == |tenants| * |undated| + |chunks| * (|tenants| * |windowed|)
  {
    var own :| ChunksFor(own, from, to, months, entities, windowable) && PlanWith(runs, own, to, entities, windowable);
    if Part(entities, |entities|, windowable, true) != [] {
      ChunkListIsUnique(chunks, own, from, to, months);
    }
    var parts :| PartsOf(parts, runs, tenants, world) && outcomes == Joined(parts, |parts|);
    forall k: nat | k < |runs| ensures |parts[k]| == |tenants| * |runs[k].entities| {
      PartSize(parts[k], runs[k], tenants, ResultsOf(world, k));
    }
    var undated, windowed :=
        Part(entities, |entities|, windowable, false), Part(entities, |entities|, windowable, true);
    PlanSize(parts, runs, chunks, to, tenants, undated, windowed);
  }

  lemma PlanSize(parts: seq<seq<Outcome>>, runs: seq<SubRun>, chunks: seq<Chunk>, to: Day, tenants: seq<string>,
                 undated: seq<string>, windowed: seq<string>)
    requires runs == Plan(chunks, to, undated, windowed) && |parts| == |runs|
    requires forall k: nat :: k < |runs| ==> |parts[k]| == |tenants| * |runs[k].entities|
    ensures |Joined(parts, |parts|)| == |tenants| * |undated| + |chunks| * (|tenants| * |windowed|)
  {
    var at := if undated == [] then 0 else 1;
    if undated != [] { assert Joined(parts, 1) == Joined(parts, 0) + parts[0]; }
    if windowed == [] {
      assert |chunks| * (|tenants| * 0) == 0;
    } else {
      JoinedTail(parts, at, |parts|, |tenants| * |windowed|);
    }
  }

  lemma PartSize(outcomes: seq<Outcome>, run: SubRun, tenants: seq<string>, world: nat -> Result)
    requires PartOf(outcomes, run, tenants, world)
    ensures |outcomes| == |tenants| * |run.entities|
  {
    UnitsArePairsOnce(tenants, run.entities, "", "");
  }

  lemma {:induction false} JoinedTail<T>(blocks: seq<seq<T>>, from: nat, n: nat, size: nat)
    requires from <= n <= |blocks| && forall i :: from <= i < n ==> |blocks[i]| == size
    ensures |Joined(blocks, n)| == |Joined(blocks, from)| + (n - from) * size
    decreases n
  {
    if from < n {
      JoinedTail(blocks, from, n - 1, size);
      LastBlock(blocks, n - 1, blocks[n - 1]);
      assert (n - from) * size == (n - 1 - from) * size + size;
    }
  }

  // ---- what the merged manifest says --------------------------------------------------

  /** Every unit of every sub-run is reported in the merged manifest with its own result. */
  lemma {:induction false} EveryPullReported(outcomes: seq<Outcome>, runs: seq<SubRun>, tenants: seq<string>,
                                             world: (nat, nat) -> Result, k: nat, u: nat)
    returns (m: nat)
    requires ManifestOf(outcomes, runs, tenants, world) && k < |runs| && u < |Units(tenants, runs[k].entities)|
    ensures m < |outcomes| && Carries(outcomes[m], world(k, u))
    ensures (outcomes[m].tenant, outcomes[m].endpoint) == Units(tenants, runs[k].entities)[u]
  {
    var parts :| PartsOf(parts, runs, tenants, world) && outcomes == Joined(parts, |parts|);
    assert PartOf(parts[k], runs[k], tenants, ResultsOf(world, k));
    var units, results := Units(tenants, runs[k].entities), UnitResults(runs[k], tenants, ResultsOf(world, k));
    var l := EveryUnitReported(parts[k], units, results, u);
    JoinedHas(parts, |parts|, k, parts[k][l]);
    m :| m < |outcomes| && outcomes[m] == parts[k][l];
  }

  /** What the units of each sub-run will return. */
  function ResultBlocks(runs: seq<SubRun>, tenants: seq<string>, world: (nat, nat) -> Result)
    : (blocks: seq<seq<Result>>)
    ensures |blocks| == |runs|
  {
    seq(|runs|, k requires 0 <= k < |runs| => UnitResults(runs[k], tenants, ResultsOf(world, k)))
  }

  lemma {:induction false} TotalOfParts(parts: seq<seq<Outcome>>, blocks: seq<seq<Result>>, n: nat)
    requires n <= |parts| == |blocks|
    requires forall k :: 0 <= k < n ==>
      Total(parts[k], (o: Outcome) => o.records) == Total(blocks[k], (r: Result) => if r.Ok? then r.records else 0)
    ensures Total(Joined(parts, n), (o: Outcome) => o.records)
        == Total(Joined(blocks, n), (r: Result) => if r.Ok? then r.records else 0)
  {
    if n > 0 {
      TotalOfParts(parts, blocks, n - 1);
      TotalOfConcat(Joined(parts, n - 1), parts[n - 1], (o: Outcome) => o.records);
      TotalOfConcat(Joined(blocks, n - 1), blocks[n - 1], (r: Result) => if r.Ok? then r.records else 0);
    }
  }

  /** The record total of the merged manifest is that of all units of all sub-runs that succeeded. */
  lemma {:induction false} BackfillTotal(outcomes: seq<Outcome>, runs: seq<SubRun>, tenants: seq<string>,
                                         world: (nat, nat) -> Result)
    requires ManifestOf(outcomes, runs, tenants, world)
    ensures var blocks := ResultBlocks(runs, tenants, world);
      Total(outcomes, (o: Outcome) => o.records)
      == Total(Joined(blocks, |blocks|), (r: Result) => if r.Ok? then r.records else 0)
  {
    var parts :| PartsOf(parts, runs, tenants, world) && outcomes == Joined(parts, |parts|);
    var blocks := ResultBlocks(runs, tenants, world);
    forall k | 0 <= k < |parts|
      ensures Total(parts[k], (o: Outcome) => o.records)
          == Total(blocks[k], (r: Result) => if r.Ok? then r.records else 0)
    {
      var at: nat := k;
      assert PartOf(parts[at], runs[at], tenants, ResultsOf(world, at));
      ManifestTotals(parts[k], Units(tenants, runs[k].entities), blocks[k]);
    }
    TotalOfParts(parts, blocks, |parts|);
  }
}
