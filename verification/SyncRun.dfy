/** `SyncJob::run`: the bounded fan-out over tenants and entities, with outcomes collected in completion order. */
module SyncRun {
  import opened Text
  import opened Blocks
  import opened Positions
  import opened FanOut

  /** What `run_entity` returns for one unit. */
  datatype Result = Ok(pages: nat, records: int, termination: string) | Err(error: string)

  datatype Outcome = Outcome(
    tenant: string, endpoint: string, pages: nat, records: int, termination: string, error: Option<string>)

  /** `run_unit`: an error becomes this unit's own outcome. */
  function RunUnit(tenant: string, entity: string, result: Result): (o: Outcome)
    ensures o.tenant == tenant && o.endpoint == entity
    ensures o.error.Some? <==> result.Err?
    ensures o.error.Some? ==> o.termination == "error" && o.pages == 0 && o.records == 0
  {
    match result
    case Ok(pages, records, termination) => Outcome(tenant, entity, pages, records, termination, None)
    case Err(error) => Outcome(tenant, entity, 0, 0, "error", Some(error))
  }

  function PairsOf(tenant: string, entities: seq<string>): seq<(string, string)> {
    seq(|entities|, e requires 0 <= e < |entities| => (tenant, entities[e]))
  }

  function PairBlocks(tenants: seq<string>, entities: seq<string>): seq<seq<(string, string)>> {
    seq(|tenants|, t requires 0 <= t < |tenants| => PairsOf(tenants[t], entities))
  }

  /** All (tenant, entity) pairs, tenant by tenant. */
  function Units(tenants: seq<string>, entities: seq<string>): seq<(string, string)> {
    Joined(PairBlocks(tenants, entities), |tenants|)
  }

  ghost predicate Distinct<T>(s: seq<T>) {
    forall i, j :: 0 <= i < j < |s| ==> s[i] != s[j]
  }

  function Itself(): ((string, string)) -> (string, string) {
    unit => unit
  }

  /** The units are exactly the pairs, and with duplicate-free lists every pair is a unit exactly once. */
  lemma UnitsArePairsOnce(tenants: seq<string>, entities: seq<string>, tenant: string, entity: string)
    ensures |Units(tenants, entities)| == |tenants| * |entities|
    ensures (tenant, entity) in Units(tenants, entities) <==> tenant in tenants && entity in entities
    ensures Distinct(tenants) && Distinct(entities) ==> Distinct(Units(tenants, entities))
  {
    var blocks := PairBlocks(tenants, entities);
    JoinedSize(blocks, |tenants|, |entities|);
    if tenant in tenants && entity in entities {
      var t :| 0 <= t < |tenants| && tenants[t] == tenant;
      var e :| 0 <= e < |entities| && entities[e] == entity;
      assert blocks[t][e] == (tenant, entity);
      JoinedHas(blocks, |tenants|, t, (tenant, entity));
    }
    if (tenant, entity) in Units(tenants, entities) {
      var t := JoinedOrigin(blocks, |tenants|, (tenant, entity));
    }
    if Distinct(tenants) && Distinct(entities) {
      DistinctUnits(tenants, entities);
    }
  }

  /** The units are worked through tenant by tenant, each tenant's entities in their order. */
  lemma {:induction false} UnitAt(tenants: seq<string>, entities: seq<string>, t: nat, e: nat)
    requires t < |tenants| && e < |entities|
    ensures t * |entities| + e < |Units(tenants, entities)|
    ensures Units(tenants, entities)[t * |entities| + e] == (tenants[t], entities[e])
  {
    var blocks := PairBlocks(tenants, entities);
    JoinedAt(blocks, |tenants|, |entities|, t, e);
  }

  lemma DistinctUnits(tenants: seq<string>, entities: seq<string>)
    requires Distinct(tenants) && Distinct(entities)
    ensures Distinct(Units(tenants, entities))
  {
    var blocks := PairBlocks(tenants, entities);
    JoinedDistinctIff(blocks, |tenants|, Itself());
    assert KeysDistinct(Units(tenants, entities), Itself());
    forall i, j | 0 <= i < j < |Units(tenants, entities)|
        ensures Units(tenants, entities)[i] != Units(tenants, entities)[j] {
      assert Itself()(Units(tenants, entities)[i]) != Itself()(Units(tenants, entities)[j]);
    }
  }

  /** `done` names every unit below `n` exactly once. */
  ghost predicate Permutation(done: seq<nat>, n: nat) {
    && |done| == n && Distinct(done)
    && forall i: nat :: i in done <==> i < n
  }

  /** Outcome `m` is that of unit `done[m]`, made from that unit's own result alone. */
  ghost predicate OutcomesOf(outcomes: seq<Outcome>, done: seq<nat>, units: seq<(string, string)>,
                             results: seq<Result>) {
    && |outcomes| == |done| && |results| == |units|
    && forall m :: 0 <= m < |done| ==>
         done[m] < |units| && outcomes[m] == RunUnit(units[done[m]].0, units[done[m]].1, results[done[m]])
  }

  /** One outcome per unit, in some completion order. */
  ghost predicate OnePerUnit(outcomes: seq<Outcome>, units: seq<(string, string)>, results: seq<Result>) {
    exists done :: Permutation(done, |units|) && OutcomesOf(outcomes, done, units, results)
  }

  /** `done` and `inFlight` together are the first `next` units, each once. */
  ghost predicate Accounted(done: seq<nat>, inFlight: set<nat>, next: nat) {
    && Distinct(done)
    && (forall i: nat :: i in done || i in inFlight <==> i < next)
    && (forall i: nat :: i in done ==> i !in inFlight)
    && next == |done| + |inFlight|
  }

  lemma StartOne(done: seq<nat>, inFlight: set<nat>, next: nat)
    requires Accounted(done, inFlight, next)
    ensures Accounted(done, inFlight + {next}, next + 1) && |inFlight + {next}| == |inFlight| + 1
  {
  }

  lemma CollectOne(done: seq<nat>, inFlight: set<nat>, next: nat, i: nat)
    requires Accounted(done, inFlight, next) && i in inFlight
    ensures Accounted(done + [i], inFlight - {i}, next) && |inFlight - {i}| == |inFlight| - 1
  {
  }

  /** One completion: the unit is collected, and the next one started while there is one. */
  lemma RefillRound(done: seq<nat>, inFlight: set<nat>, next: nat, i: nat)
    requires Accounted(done, inFlight, next) && i in inFlight
    ensures var rest := inFlight - {i};
      && Accounted(done + [i], rest, next) && |rest| == |inFlight| - 1
      && Accounted(done + [i], rest + {next}, next + 1) && |rest + {next}| == |inFlight|
  {
    CollectOne(done, inFlight, next, i);
    StartOne(done + [i], inFlight - {i}, next);
  }

  lemma OutcomeAdded(outcomes: seq<Outcome>, done: seq<nat>, units: seq<(string, string)>, results: seq<Result>, i: nat)
    requires OutcomesOf(outcomes, done, units, results) && i < |units|
    ensures OutcomesOf(outcomes + [RunUnit(units[i].0, units[i].1, results[i])], done + [i], units, results)
  {
  }

  lemma AllAccounted(outcomes: seq<Outcome>, done: seq<nat>, units: seq<(string, string)>, results: seq<Result>)
    requires OutcomesOf(outcomes, done, units, results) && Accounted(done, {}, |units|)
    ensures OnePerUnit(outcomes, units, results) && |outcomes| == |units|
  {
    assert Permutation(done, |units|);
  }

  /**
   * The fan-out loop. `results[i]` is what unit `i` will return; which future completes next is arbitrary. The
   * outcomes are one per unit, in completion order.
   */
  method RunUnits(units: seq<(string, string)>, results: seq<Result>, concurrency: nat)
    returns (outcomes: seq<Outcome>)
    requires |results| == |units| && concurrency > 0
    ensures OnePerUnit(outcomes, units, results) && |outcomes| == |units|
  {
    ghost var done: seq<nat> := [];
    var inFlight: set<nat> := {};
    var next := 0;
    outcomes := [];
    while next < |units| && |inFlight| < concurrency
      invariant next <= |units| && |inFlight| <= concurrency && Accounted(done, inFlight, next)
    {
      StartOne(done, inFlight, next);
      inFlight := inFlight + {next};
      next := next + 1;
    }
    while inFlight != {}
      invariant next <= |units| && |inFlight| <= concurrency && Accounted(done, inFlight, next)
      invariant next < |units| ==> |inFlight| == concurrency
      invariant OutcomesOf(outcomes, done, units, results)
      decreases |units| - |done|
    {
      var i :| i in inFlight;
      RefillRound(done, inFlight, next, i);
      OutcomeAdded(outcomes, done, units, results, i);
      inFlight := inFlight - {i};
      outcomes, done := outcomes + [RunUnit(units[i].0, units[i].1, results[i])], done + [i];
      if next < |units| {
        inFlight := inFlight + {next};
        next := next + 1;
      }
    }
    AllAccounted(outcomes, done, units, results);
  }

  /** `SyncJob::run`. */
  method Run(tenants: seq<string>, entities: seq<string>, results: seq<Result>, maxConcurrent: nat)
    returns (outcomes: seq<Outcome>)
    requires |results| == |Units(tenants, entities)|
    ensures |outcomes| == |tenants| * |entities|
    ensures OnePerUnit(outcomes, Units(tenants, entities), results)
  {
    UnitsArePairsOnce(tenants, entities, "", "");
    outcomes := RunUnits(Units(tenants, entities), results, Clamp(maxConcurrent));
  }

  /** Every unit's outcome, in the order of the units. */
  function UnitOutcomes(units: seq<(string, string)>, results: seq<Result>): seq<Outcome>
    requires |results| == |units|
  {
    seq(|units|, i requires 0 <= i < |units| => RunUnit(units[i].0, units[i].1, results[i]))
  }

  /** Whatever the completion order, the manifest holds the same outcomes, as often. */
  lemma OrderDoesNotMatter(outcomes: seq<Outcome>, units: seq<(string, string)>, results: seq<Result>)
    requires |results| == |units| && OnePerUnit(outcomes, units, results)
    ensures multiset(outcomes) == multiset(UnitOutcomes(units, results))
  {
    var done :| Permutation(done, |units|) && OutcomesOf(outcomes, done, units, results);
    assert forall m :: 0 <= m < |done| ==> done[m] in done;
    Rearranged(done, outcomes, UnitOutcomes(units, results));
  }

  /**
   * When one unit's result is an error instead, the manifest differs in that unit's outcome only, even if every unit
   * now completes at another time.
   */
  lemma FailureIsIsolated(units: seq<(string, string)>, results: seq<Result>, failed: nat, error: string,
                          a: seq<Outcome>, b: seq<Outcome>)
    requires |results| == |units| && failed < |units|
    requires OnePerUnit(a, units, results) && OnePerUnit(b, units, results[failed := Err(error)])
    ensures var (tenant, entity) := units[failed];
      multiset(b) + multiset{RunUnit(tenant, entity, results[failed])}
      == multiset(a) + multiset{RunUnit(tenant, entity, Err(error))}
  {
    var before, after := UnitOutcomes(units, results), UnitOutcomes(units, results[failed := Err(error)]);
    OrderDoesNotMatter(a, units, results);
    OrderDoesNotMatter(b, units, results[failed := Err(error)]);
    assert after == before[failed := after[failed]];
    OneReplaced(before, failed, after[failed]);
  }

  lemma OneReplaced<T>(s: seq<T>, i: nat, x: T)
    requires i < |s|
    ensures multiset(s[i := x]) + multiset{s[i]} == multiset(s) + multiset{x}
  {
  }

  // ---- what the manifest says --------------------------------------------------------

  /** `o` carries the result: its own page count, record count and stop, or its own error and nothing else. */
  predicate Carries(o: Outcome, result: Result) {
    match result
    case Ok(pages, records, termination) =>
      o.pages == pages && o.records == records && o.termination == termination && o.error == None
    case Err(error) =>
      o.pages == 0 && o.records == 0 && o.termination == "error" && o.error == Some(error)
  }

  /** Whatever the completion order, every unit is reported with its own result, and by one outcome only. */
  lemma {:induction false} EveryUnitReported(outcomes: seq<Outcome>, units: seq<(string, string)>, results: seq<Result>,
                                             u: nat)
    returns (m: nat)
    requires |results| == |units| && OnePerUnit(outcomes, units, results) && u < |units|
    ensures m < |outcomes| && Carries(outcomes[m], results[u])
    ensures outcomes[m].tenant == units[u].0 && outcomes[m].endpoint == units[u].1
    ensures Distinct(units) ==> forall l :: 0 <= l < |outcomes| && l != m ==>
      outcomes[l].tenant != units[u].0 || outcomes[l].endpoint != units[u].1
  {
    var done :| Permutation(done, |units|) && OutcomesOf(outcomes, done, units, results);
    assert u in done;
    m :| m < |done| && done[m] == u;
    forall l | 0 <= l < |outcomes| && l != m && Distinct(units)
      ensures outcomes[l].tenant != units[u].0 || outcomes[l].endpoint != units[u].1
    {
      assert done[l] != done[m];
      assert units[done[l]] != units[u];
    }
  }

  /** The manifest's totals are those of the units that succeeded, whatever the completion order. */
  lemma {:induction false} ManifestTotals(outcomes: seq<Outcome>, units: seq<(string, string)>, results: seq<Result>)
    requires |results| == |units| && OnePerUnit(outcomes, units, results)
    ensures Total(outcomes, (o: Outcome) => o.pages)
        == Total(results, (r: Result) => if r.Ok? then r.pages else 0)
    ensures Total(outcomes, (o: Outcome) => o.records)
        == Total(results, (r: Result) => if r.Ok? then r.records else 0)
  {
    var all := UnitOutcomes(units, results);
    OrderDoesNotMatter(outcomes, units, results);
    TotalInAnyOrder(outcomes, all, (o: Outcome) => o.pages);
    TotalInAnyOrder(outcomes, all, (o: Outcome) => o.records);
    TotalAlike(all, results, (o: Outcome) => o.pages, (r: Result) => if r.Ok? then r.pages else 0);
    TotalAlike(all, results, (o: Outcome) => o.records, (r: Result) => if r.Ok? then r.records else 0);
  }
}
