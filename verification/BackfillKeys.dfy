/** A whole backfill never writes an object name twice. */
module BackfillKeys {
  import opened Text
  import opened Dates
  import opened Chunks
  import opened SyncRun
  import opened BackfillPlan
  import opened ObjectKeys
  import opened KeyReaders

  /** One page written by unit `u` of sub-run `k`. */
  datatype Write = Write(k: nat, u: nat, page: nat)

  /** The timestamp of each sub-run is arbitrary: all may fall in the same second. */
  ghost predicate Written(runs: seq<SubRun>, tenants: seq<string>, w: Write) {
    w.k < |runs| && w.u < |Units(tenants, runs[w.k].entities)|
  }

  function NameOf(runs: seq<SubRun>, tenants: seq<string>, prefix: string, ts: nat -> string, runId: string,
                  w: Write): string
    requires w.k < |runs| && w.u < |Units(tenants, runs[w.k].entities)|
  {
    var unit := Units(tenants, runs[w.k].entities)[w.u];
    ObjectKey(prefix, unit.0, unit.1, runs[w.k].date, ts(w.k), runId, w.page)
  }

  /** Sub-runs that share an entity and a date are the same. */
  lemma SameEntitySameDate(runs: seq<SubRun>, from: Day, to: Day, months: nat, entities: seq<string>,
                           windowable: string -> bool,
                           entity: string, k: nat, l: nat)
    requires PlanOf(runs, from, to, months, entities, windowable) && k < |runs| && l < |runs|
    requires entity in runs[k].entities && entity in runs[l].entities && runs[k].date == runs[l].date
    ensures k == l
  {
    var chunks :| ChunksFor(chunks, from, to, months, entities, windowable)
        && PlanWith(runs, chunks, to, entities, windowable);
    if windowable(entity) {
      WindowedRun(runs, chunks, to, entities, windowable, entity, k);
    }
    SameDateSameRun(runs, chunks, from, to, months, entities, windowable, entity, k, l);
  }

  lemma SameDateSameRun(runs: seq<SubRun>, chunks: seq<Chunk>, from: Day, to: Day, months: nat, entities: seq<string>,
                        windowable: string -> bool, entity: string, k: nat, l: nat)
    requires windowable(entity) ==> Chunked(chunks, from, to, months)
    requires PlanWith(runs, chunks, to, entities, windowable) && k < |runs| && l < |runs|
    requires entity in runs[k].entities && entity in runs[l].entities && runs[k].date == runs[l].date
    ensures k == l
  {
    if windowable(entity) {
      var at := Offset(entities, windowable);
      WindowedRun(runs, chunks, to, entities, windowable, entity, k);
      WindowedRun(runs, chunks, to, entities, windowable, entity, l);
      SameEndSameChunk(chunks, from, to, months, k - at, l - at);
    } else {
      UndatedRun(runs, chunks, to, entities, windowable, entity, k);
      UndatedRun(runs, chunks, to, entities, windowable, entity, l);
    }
  }

  lemma SameEndSameChunk(chunks: seq<Chunk>, from: Day, to: Day, months: nat, i: nat, j: nat)
    requires Chunked(chunks, from, to, months) && i < |chunks| && j < |chunks| && chunks[i].to == chunks[j].to
    ensures i == j
  {
    if i < j {
      EndsIncrease(chunks, from, to, months, i, j);
    } else if j < i {
      EndsIncrease(chunks, from, to, months, j, i);
    }
  }

  lemma EntitiesOfRun(runs: seq<SubRun>, from: Day, to: Day, months: nat, entities: seq<string>,
                      windowable: string -> bool, entity: string, k: nat)
    requires PlanOf(runs, from, to, months, entities, windowable) && k < |runs|
    ensures entity in runs[k].entities ==> entity in entities
    ensures Distinct(entities) ==> Distinct(runs[k].entities)
  {
    var chunks :| ChunksFor(chunks, from, to, months, entities, windowable)
        && PlanWith(runs, chunks, to, entities, windowable);
    PlannedRun(runs, chunks, to, entities, windowable, entity, k);
  }

  lemma UnitParts(tenants: seq<string>, entities: seq<string>, u: nat)
    requires u < |Units(tenants, entities)|
    ensures Units(tenants, entities)[u].0 in tenants && Units(tenants, entities)[u].1 in entities
  {
    var unit := Units(tenants, entities)[u];
    UnitsArePairsOnce(tenants, entities, unit.0, unit.1);
    assert unit in Units(tenants, entities) && unit == (unit.0, unit.1);
  }

  lemma SameUnit(tenants: seq<string>, entities: seq<string>, u: nat, v: nat)
    requires Distinct(tenants) && Distinct(entities) && u < |Units(tenants, entities)| && v < |Units(tenants, entities)|
    requires Units(tenants, entities)[u] == Units(tenants, entities)[v]
    ensures u == v
  {
    DistinctUnits(tenants, entities);
  }

  /**
   * With duplicate-free tenants and entities, two page writes of a whole backfill have the same name only if they are
   * the same write, even if every sub-run has the same timestamp.
   */
  lemma NoNameWrittenTwice(runs: seq<SubRun>, from: Day, to: Day, months: nat, tenants: seq<string>,
                           entities: seq<string>,
                           windowable: string -> bool, prefix: string, ts: nat -> string, runId: string, a: Write,
                           b: Write)
    requires PlanOf(runs, from, to, months, entities, windowable)
    requires Distinct(tenants) && Distinct(entities) && (forall e :: e in entities ==> SnakeCase(e))
    requires forall k :: Without(ts(k), '/')
    requires Written(runs, tenants, a) && Written(runs, tenants, b)
    ensures NameOf(runs, tenants, prefix, ts, runId, a) == NameOf(runs, tenants, prefix, ts, runId, b) <==> a == b
  {
    var x, y := Units(tenants, runs[a.k].entities)[a.u], Units(tenants, runs[b.k].entities)[b.u];
    UnitParts(tenants, runs[a.k].entities, a.u);
    UnitParts(tenants, runs[b.k].entities, b.u);
    EntitiesOfRun(runs, from, to, months, entities, windowable, x.1, a.k);
    EntitiesOfRun(runs, from, to, months, entities, windowable, y.1, b.k);
    if NameOf(runs, tenants, prefix, ts, runId, a) == NameOf(runs, tenants, prefix, ts, runId, b) {
      ObjectKeyIdentifies(prefix, x.0, x.1, runs[a.k].date, ts(a.k), runId, a.page, y.0, y.1, runs[b.k].date, ts(b.k),
        runId, b.page);
      SameEntitySameDate(runs, from, to, months, entities, windowable, x.1, a.k, b.k);
      SameUnit(tenants, runs[a.k].entities, a.u, b.u);
    }
  }

  /**
   * From the uploader to the readers: the name of every page of a backfill is read as its vendor, tenant, endpoint,
   * date and file, and its sidecar is found by the tight listing of its tenant and endpoint, for its own date or for
   * none.
   */
  lemma {:induction false} EveryPageIsFound(runs: seq<SubRun>, tenants: seq<string>, ts: nat -> string, runId: string,
                                            w: Write, date: Option<string>)
    requires Written(runs, tenants, w) && Without(ts(w.k), '/') && (date.Some? ==> Without(date.value, '/'))
    requires var (tenant, entity) := Units(tenants, runs[w.k].entities)[w.u];
      tenant != "" && Without(tenant, '/') && entity != "" && SnakeCase(entity)
    ensures var (tenant, entity) := Units(tenants, runs[w.k].entities)[w.u];
      var name, day := NameOf(runs, tenants, "raw/xero", ts, runId, w), DateText(runs[w.k].date);
      && Search(name, 0) == Some(Groups("xero", tenant, entity, day, PageFile(ts(w.k), runId, w.page)))
      && (TenantPrefix(tenant, entity, date) <= SidecarKey(name) && Wanted(SidecarKey(name), entity, date)
          <==> (date.Some? && date.value != "" ==> date.value == day))
      && RemoveSuffix(SidecarKey(name), ".meta.json") == name
  {
    var (tenant, entity) := Units(tenants, runs[w.k].entities)[w.u];
    var name, day := NameOf(runs, tenants, "raw/xero", ts, runId, w), DateText(runs[w.k].date);
    var file := PageFile(ts(w.k), runId, w.page);
    PageFileHasNoSlash(ts(w.k), runId, w.page);
    SanitizeIsSnakeCase(entity);
    PrintedKeysHaveSegments(tenant, entity, runs[w.k].date, file);
    PatternRecoversSegments(name, tenant, entity, day, file);
    RemoveSuffixInvertsSidecar(name);
    RemoveSuffixInvertsSidecar(file);
    ListingFindsSidecars(Item(SidecarKey(name), tenant, entity, day, file + ".meta.json"), tenant, entity, date);
  }
}
