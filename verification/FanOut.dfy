/**
 * `SyncJob::run` and the per-tenant limiter as one protocol: the fan-out starts and collects units while every unit
 * checks the limiter, enters and releases in separate critical sections. Any unit may take the next step.
 */
module FanOut {

  const MAX_CONCURRENT_PER_TENANT := 6
  const MAX_CONCURRENCY := 6

  /** `max_concurrent.clamp(1, MAX_CONCURRENCY)`. */
  function Clamp(maxConcurrent: nat): (c: nat)
    ensures 1 <= c <= MAX_CONCURRENCY && (1 <= maxConcurrent <= MAX_CONCURRENCY ==> c == maxConcurrent)
  {
    if maxConcurrent < 1 then 1 else if maxConcurrent > MAX_CONCURRENCY then MAX_CONCURRENCY else maxConcurrent
  }

  /**
   * Where a unit stands: between requests, past the limiter's check, holding a permit, finished, its outcome
   * collected.
   */
  datatype Phase = Unstarted | Idle | Passed | Holding | Finished | Collected

  /**
   * `tenants[i]` is unit `i`'s tenant; `counts` the limiters' counters; `flying` and `done` the futures and outcomes.
   */
  datatype World = World(
    priming: bool,
    next: nat,
    phases: seq<Phase>,
    flying: set<nat>,
    done: seq<nat>,
    counts: map<string, nat>)

  function Count(counts: map<string, nat>, t: string): nat {
    if t in counts then counts[t] else 0
  }

  datatype Action =
    | Prime
    | EndPrime
    | Check(i: nat)
    | Enter(i: nat)
    | Release(i: nat)
    | Finish(i: nat)
    | Collect(i: nat)

  predicate Enabled(tenants: seq<string>, bound: nat, w: World, a: Action)
    requires |w.phases| == |tenants|
  {
    match a
    case Prime => w.priming && w.next < |tenants| && |w.flying| < bound
    case EndPrime => w.priming && !(w.next < |tenants| && |w.flying| < bound)
    case Check(i) => i < |tenants| && w.phases[i].Idle?
    case Enter(i) => i < |tenants| && w.phases[i].Passed?
    case Release(i) => i < |tenants| && w.phases[i].Holding?
    case Finish(i) => i < |tenants| && w.phases[i].Idle?
    case Collect(i) => !w.priming && i < |tenants| && i in w.flying && w.phases[i].Finished?
  }

  function Start(w: World): World {
    if w.next < |w.phases| then
      w.(phases := w.phases[w.next := Idle], flying := w.flying + {w.next}, next := w.next + 1)
    else w
  }

  /** The check and the increment of `acquire` are two steps; a failed check leaves the unit where it was. */
  function Effect(tenants: seq<string>, bound: nat, w: World, a: Action): World
    requires |w.phases| == |tenants| && Enabled(tenants, bound, w, a)
  {
    match a
    case Prime => Start(w)
    case EndPrime => w.(priming := false)
    case Check(i) =>
      if Count(w.counts, tenants[i]) < MAX_CONCURRENT_PER_TENANT then w.(phases := w.phases[i := Passed]) else w
    case Enter(i) =>
      w.(phases := w.phases[i := Holding], counts := w.counts[tenants[i] := Count(w.counts, tenants[i]) + 1])
    case Release(i) =>
      w.(phases := w.phases[i := Idle],
         counts := if Count(w.counts, tenants[i]) > 0 then w.counts[tenants[i] := Count(w.counts, tenants[i]) - 1]
                   else w.counts)
    case Finish(i) => w.(phases := w.phases[i := Finished])
    case Collect(i) => Start(w.(phases := w.phases[i := Collected], flying := w.flying - {i}, done := w.done + [i]))
  }

  function Init(n: nat): World {
    World(true, 0, seq(n, i => Unstarted), {}, [], map[])
  }

  ghost predicate Next(tenants: seq<string>, bound: nat, v: World, w: World) {
    |v.phases| == |tenants| && exists a :: Enabled(tenants, bound, v, a) && w == Effect(tenants, bound, v, a)
  }

  /** A run: any number of steps of the fan-out and of any units, in any order. */
  ghost predicate Run(tenants: seq<string>, bound: nat, ws: seq<World>) {
    |ws| > 0 && ws[0] == Init(|tenants|) && forall n :: 0 <= n < |ws| - 1 ==> Next(tenants, bound, ws[n], ws[n + 1])
  }

  /** Some run leads to `w`. */
  ghost predicate Reachable(tenants: seq<string>, bound: nat, w: World) {
    exists ws: seq<World> :: Run(tenants, bound, ws) && ws[|ws| - 1] == w
  }

  // ---- invariant -----------------------------------------------------------------

  /** The fan-out's bookkeeping: `flying` is what was started and not collected, and it is full while units remain. */
  ghost predicate Bookkept(n: nat, bound: nat, w: World) {
    && |w.phases| == n && w.next <= n
    && (forall i :: 0 <= i < n ==> (w.phases[i].Unstarted? <==> w.next <= i))
    && (forall i: nat :: i in w.flying <==> i < w.next && !w.phases[i].Collected?)
    && w.next == |w.done| + |w.flying|
    && |w.flying| <= bound
    && (!w.priming && w.next < n ==> |w.flying| == bound)
  }

  ghost predicate Collections(w: World) {
    && (forall m :: 0 <= m < |w.done| ==> w.done[m] < |w.phases| && w.phases[w.done[m]].Collected?)
    && (forall m, l :: 0 <= m < l < |w.done| ==> w.done[m] != w.done[l])
    && (forall i: nat :: i < |w.phases| && w.phases[i].Collected? ==> i in w.done)
  }

  /** The units of a tenant that hold a permit. */
  function Holders(tenants: seq<string>, phases: seq<Phase>, t: string): set<nat>
    requires |phases| == |tenants|
  {
    set i: nat | i < |phases| && phases[i].Holding? && tenants[i] == t
  }

  ghost predicate Counted(tenants: seq<string>, phases: seq<Phase>, counts: map<string, nat>, t: string)
    requires |phases| == |tenants|
  {
    Count(counts, t) == |Holders(tenants, phases, t)|
  }

  ghost predicate Inv(tenants: seq<string>, bound: nat, w: World) {
    Bookkept(|tenants|, bound, w) && Collections(w) && forall t :: Counted(tenants, w.phases, w.counts, t)
  }

  lemma StartKeeps(n: nat, bound: nat, w: World)
    requires Bookkept(n, bound, w.(priming := true)) && |w.flying| < bound
    requires !w.priming ==> w.next < n ==> |w.flying| + 1 == bound
    ensures Bookkept(n, bound, Start(w))
  {
    if w.next < n {
      assert |w.flying + {w.next}| == |w.flying| + 1;
    }
  }

  lemma CollectKeeps(n: nat, bound: nat, w: World, i: nat)
    requires Bookkept(n, bound, w) && !w.priming && i in w.flying
    ensures Bookkept(n, bound,
        Start(w.(phases := w.phases[i := Collected], flying := w.flying - {i}, done := w.done + [i])))
  {
    var v := w.(phases := w.phases[i := Collected], flying := w.flying - {i}, done := w.done + [i]);
    assert |w.flying - {i}| == |w.flying| - 1;
    StartKeeps(n, bound, v);
  }

  lemma PhaseChangeKeeps(n: nat, bound: nat, w: World, i: nat, p: Phase, counts: map<string, nat>)
    requires Bookkept(n, bound, w) && i < w.next && !w.phases[i].Collected? && !p.Unstarted? && !p.Collected?
    ensures Bookkept(n, bound, w.(phases := w.phases[i := p], counts := counts))
  {
  }

  lemma BookkeepingKept(tenants: seq<string>, bound: nat, w: World, a: Action)
    requires Bookkept(|tenants|, bound, w) && Enabled(tenants, bound, w, a)
    ensures Bookkept(|tenants|, bound, Effect(tenants, bound, w, a))
  {
    var w' := Effect(tenants, bound, w, a);
    match a
    case Prime => StartKeeps(|tenants|, bound, w);
    case EndPrime =>
    case Check(i) => PhaseChangeKeeps(|tenants|, bound, w, i, Passed, w.counts);
    case Enter(i) => PhaseChangeKeeps(|tenants|, bound, w, i, Holding, w'.counts);
    case Release(i) => PhaseChangeKeeps(|tenants|, bound, w, i, Idle, w'.counts);
    case Finish(i) => PhaseChangeKeeps(|tenants|, bound, w, i, Finished, w.counts);
    case Collect(i) => CollectKeeps(|tenants|, bound, w, i);
  }

  lemma PhaseKeepsCollections(w: World, i: nat, p: Phase, counts: map<string, nat>)
    requires Collections(w) && i < |w.phases| && !w.phases[i].Collected? && !p.Collected?
    ensures Collections(w.(phases := w.phases[i := p], counts := counts))
  {
  }

  lemma CollectionsKept(tenants: seq<string>, bound: nat, w: World, a: Action)
    requires Bookkept(|tenants|, bound, w) && Collections(w) && Enabled(tenants, bound, w, a)
    ensures Collections(Effect(tenants, bound, w, a))
  {
    var w' := Effect(tenants, bound, w, a);
    match a
    case Prime => StartKeepsCollections(w);
    case EndPrime =>
    case Check(i) => PhaseKeepsCollections(w, i, Passed, w.counts);
    case Enter(i) => PhaseKeepsCollections(w, i, Holding, w'.counts);
    case Release(i) => PhaseKeepsCollections(w, i, Idle, w'.counts);
    case Finish(i) => PhaseKeepsCollections(w, i, Finished, w.counts);
    case Collect(i) =>
      DoneGrows(w, i);
      StartKeepsCollections(w.(phases := w.phases[i := Collected], flying := w.flying - {i}, done := w.done + [i]));
  }

  lemma StartKeepsCollections(w: World)
    requires Collections(w) && (w.next < |w.phases| ==> w.phases[w.next].Unstarted?)
    ensures Collections(Start(w))
  {
    if w.next < |w.phases| {
      assert w.next !in w.done;
    }
  }

  lemma DoneGrows(w: World, i: nat)
    requires Collections(w) && i < |w.phases| && w.phases[i].Finished?
    ensures Collections(w.(phases := w.phases[i := Collected], flying := w.flying - {i}, done := w.done + [i]))
  {
    var v := w.(phases := w.phases[i := Collected], flying := w.flying - {i}, done := w.done + [i]);
    assert v.done[|w.done|] == i && i !in w.done;
  }

  lemma HoldersKept(tenants: seq<string>, phases: seq<Phase>, i: nat, p: Phase, t: string)
    requires i < |phases| == |tenants| && (tenants[i] != t || phases[i].Holding? == p.Holding?)
    ensures Holders(tenants, phases[i := p], t) == Holders(tenants, phases, t)
  {
  }

  lemma HolderAdded(tenants: seq<string>, phases: seq<Phase>, i: nat, t: string)
    requires i < |phases| == |tenants| && tenants[i] == t && !phases[i].Holding?
    ensures Holders(tenants, phases[i := Holding], t) == Holders(tenants, phases, t) + {i}
    ensures |Holders(tenants, phases[i := Holding], t)| == |Holders(tenants, phases, t)| + 1
  {
    var was, now := Holders(tenants, phases, t), Holders(tenants, phases[i := Holding], t);
    forall j: nat ensures j in now <==> j in was + {i} {
    }
    assert now == was + {i};
  }

  /** One unit's phase change moves it into or out of the holders of its own tenant only. */
  lemma HoldersAfter(tenants: seq<string>, phases: seq<Phase>, i: nat, p: Phase, t: string)
    requires i < |phases| == |tenants|
    ensures var was, now := Holders(tenants, phases, t), Holders(tenants, phases[i := p], t);
      if tenants[i] != t || phases[i].Holding? == p.Holding? then now == was
      else if p.Holding? then |now| == |was| + 1 else |now| == |was| - 1
  {
    if tenants[i] != t || phases[i].Holding? == p.Holding? {
      HoldersKept(tenants, phases, i, p, t);
    } else if p.Holding? {
      HolderAdded(tenants, phases, i, t);
    } else {
      var after := phases[i := p];
      assert after[i := Holding] == phases;
      HolderAdded(tenants, after, i, t);
    }
  }

  lemma StartCounts(tenants: seq<string>, w: World, t: string)
    requires |w.phases| == |tenants| && (w.next < |tenants| ==> !w.phases[w.next].Holding?)
        && Counted(tenants, w.phases, w.counts, t)
    ensures Counted(tenants, Start(w).phases, Start(w).counts, t)
  {
    if w.next < |tenants| {
      HoldersAfter(tenants, w.phases, w.next, Idle, t);
    }
  }

  lemma CountersKept(tenants: seq<string>, bound: nat, w: World, a: Action, t: string)
    requires Bookkept(|tenants|, bound, w) && Enabled(tenants, bound, w, a)
    requires Counted(tenants, w.phases, w.counts, t)
    ensures var w' := Effect(tenants, bound, w, a); Counted(tenants, w'.phases, w'.counts, t)
  {
    match a
    case Prime => StartCounts(tenants, w, t);
    case EndPrime =>
    case Check(i) => HoldersAfter(tenants, w.phases, i, Passed, t);
    case Enter(i) => HoldersAfter(tenants, w.phases, i, Holding, t);
    case Release(i) => HoldersAfter(tenants, w.phases, i, Idle, t);
    case Finish(i) => HoldersAfter(tenants, w.phases, i, Finished, t);
    case Collect(i) =>
      HoldersAfter(tenants, w.phases, i, Collected, t);
      StartCounts(tenants, w.(phases := w.phases[i := Collected], flying := w.flying - {i}, done := w.done + [i]), t);
  }

  lemma InvStarts(tenants: seq<string>, bound: nat)
    ensures Inv(tenants, bound, Init(|tenants|))
  {
    forall t ensures Counted(tenants, Init(|tenants|).phases, map[], t) {
      assert Holders(tenants, Init(|tenants|).phases, t) == {};
    }
  }

  lemma InvKept(tenants: seq<string>, bound: nat, w: World, a: Action)
    requires Inv(tenants, bound, w) && Enabled(tenants, bound, w, a)
    ensures Inv(tenants, bound, Effect(tenants, bound, w, a))
  {
    var w' := Effect(tenants, bound, w, a);
    BookkeepingKept(tenants, bound, w, a);
    CollectionsKept(tenants, bound, w, a);
    forall t ensures Counted(tenants, w'.phases, w'.counts, t) {
      CountersKept(tenants, bound, w, a, t);
    }
  }

  lemma {:induction false} InvInRun(tenants: seq<string>, bound: nat, ws: seq<World>, n: nat)
    requires Run(tenants, bound, ws) && n < |ws|
    ensures Inv(tenants, bound, ws[n])
  {
    if n == 0 {
      InvStarts(tenants, bound);
    } else {
      InvInRun(tenants, bound, ws, n - 1);
      assert Next(tenants, bound, ws[n - 1], ws[n - 1 + 1]);
      var a :| Enabled(tenants, bound, ws[n - 1], a) && ws[n] == Effect(tenants, bound, ws[n - 1], a);
      InvKept(tenants, bound, ws[n - 1], a);
    }
  }

  lemma InvAlways(tenants: seq<string>, bound: nat, w: World)
    requires Reachable(tenants, bound, w)
    ensures Inv(tenants, bound, w)
  {
    var ws: seq<World> :| Run(tenants, bound, ws) && ws[|ws| - 1] == w;
    InvInRun(tenants, bound, ws, |ws| - 1);
  }

  // ---- what every interleaving keeps -----------------------------------------------

  lemma SubsetIsSmaller<T>(a: set<T>, b: set<T>)
    requires a <= b
    ensures |a| <= |b|
  {
    assert b == a + (b - a) && |b| == |a| + |b - a|;
  }

  /**
   * A tenant's counter is the number of its live permits, and with at most `bound` units in flight never exceeds
   * `bound`.
   */
  lemma CounterIsLivePermits(tenants: seq<string>, bound: nat, w: World, t: string)
    requires Reachable(tenants, bound, w)
    ensures |w.phases| == |tenants| && Count(w.counts, t) == |Holders(tenants, w.phases, t)|
    ensures Count(w.counts, t) <= |w.flying| <= bound
  {
    InvAlways(tenants, bound, w);
    assert Counted(tenants, w.phases, w.counts, t);
    SubsetIsSmaller(Holders(tenants, w.phases, t), w.flying);
  }

  /**
   * A unit passes the limiter's check exactly when fewer than six permits of its tenant are live, however many passed
   * before it and have not entered yet; a check that fails changes nothing.
   */
  lemma CheckPassesBelowSix(tenants: seq<string>, bound: nat, w: World, i: nat)
    requires Reachable(tenants, bound, w) && i < |w.phases| == |tenants| && w.phases[i].Idle?
    ensures Enabled(tenants, bound, w, Check(i))
    ensures var after := Effect(tenants, bound, w, Check(i));
      && |after.phases| == |tenants|
      && (after.phases[i].Passed? <==> |Holders(tenants, w.phases, tenants[i])| < 6)
      && (!after.phases[i].Passed? ==> after == w)
  {
    CounterIsLivePermits(tenants, bound, w, tenants[i]);
  }

  /** `release` always finds the counter positive. */
  lemma ReleaseFindsPermit(tenants: seq<string>, bound: nat, w: World, i: nat)
    requires Reachable(tenants, bound, w) && i < |w.phases| == |tenants| && w.phases[i].Holding?
    ensures Count(w.counts, tenants[i]) > 0
  {
    CounterIsLivePermits(tenants, bound, w, tenants[i]);
    assert i in Holders(tenants, w.phases, tenants[i]);
  }

  /** With at most six units in flight no acquirer ever finds the limiter full: the wait loop never turns. */
  lemma NobodySpins(tenants: seq<string>, bound: nat, w: World, i: nat)
    requires bound <= MAX_CONCURRENT_PER_TENANT
    requires Reachable(tenants, bound, w) && i < |w.phases| == |tenants| && w.phases[i].Idle?
    ensures Count(w.counts, tenants[i]) < MAX_CONCURRENT_PER_TENANT
  {
    InvAlways(tenants, bound, w);
    CounterIsLivePermits(tenants, bound, w, tenants[i]);
    SubsetIsSmaller(Holders(tenants, w.phases, tenants[i]) + {i}, w.flying);
    assert |Holders(tenants, w.phases, tenants[i]) + {i}| == |Holders(tenants, w.phases, tenants[i])| + 1;
  }

  /** `next` accounts for every started unit, and while unstarted units remain the fan-out is exactly full. */
  lemma FanOutStaysFull(tenants: seq<string>, bound: nat, w: World)
    requires Reachable(tenants, bound, w)
    ensures w.next == |w.done| + |w.flying| && |w.flying| <= bound
    ensures !w.priming && w.next < |tenants| ==> |w.flying| == bound
  {
    InvAlways(tenants, bound, w);
  }

  /** When the run ends, every unit has been collected exactly once. */
  lemma EveryUnitCollectedOnce(tenants: seq<string>, bound: nat, w: World)
    requires bound > 0 && Reachable(tenants, bound, w) && !w.priming && w.flying == {}
    ensures |w.done| == |tenants|
    ensures forall i: nat :: i in w.done <==> i < |tenants|
    ensures forall m, l :: 0 <= m < l < |w.done| ==> w.done[m] != w.done[l]
  {
    InvAlways(tenants, bound, w);
  }

  /**
   * Before every unit is collected some step changes the world, other than a unit finishing: the fan-out starts or
   * collects a unit, a unit passes the check or enters, or a permit a full limiter waits for is released.
   */
  lemma NeverStuck(tenants: seq<string>, bound: nat, w: World) returns (a: Action)
    requires bound > 0 && Reachable(tenants, bound, w) && |w.done| < |tenants|
    ensures |w.phases| == |tenants| && Enabled(tenants, bound, w, a) && Effect(tenants, bound, w, a) != w
    ensures !a.Finish?
  {
    InvAlways(tenants, bound, w);
    if w.priming {
      a := if w.next < |tenants| && |w.flying| < bound then Prime else EndPrime;
    } else {
      assert w.flying != {};
      var i :| i in w.flying;
      match w.phases[i]
      case Idle => a := PassOrFree(tenants, bound, w, i);
      case Passed => a := Enter(i);
      case Holding => a := Release(i);
      case Finished => a := Collect(i);
      if !a.Collect? {
        UnitMoves(tenants, bound, w, a);
      }
    }
  }

  /** A unit that wants a permit passes the check, or another unit holds one to give back. */
  lemma PassOrFree(tenants: seq<string>, bound: nat, w: World, i: nat) returns (a: Action)
    requires Inv(tenants, bound, w) && i < |tenants| && w.phases[i].Idle?
    ensures a.Check? || a.Release?
    ensures Enabled(tenants, bound, w, a)
    ensures a.Check? ==> Count(w.counts, tenants[a.i]) < MAX_CONCURRENT_PER_TENANT
  {
    a := Check(i);
    if Count(w.counts, tenants[i]) >= MAX_CONCURRENT_PER_TENANT {
      assert Counted(tenants, w.phases, w.counts, tenants[i]);
      var j: nat :| j in Holders(tenants, w.phases, tenants[i]);
      a := Release(j);
    }
  }

  lemma UnitMoves(tenants: seq<string>, bound: nat, w: World, a: Action)
    requires |w.phases| == |tenants| && Enabled(tenants, bound, w, a) && (a.Check? || a.Enter? || a.Release?)
    requires a.Check? ==> Count(w.counts, tenants[a.i]) < MAX_CONCURRENT_PER_TENANT
    ensures Effect(tenants, bound, w, a).phases[a.i] != w.phases[a.i]
  {
  }

  // ---- the cap holds by composition only ---------------------------------------------

  lemma ReachableStep(tenants: seq<string>, bound: nat, w: World, a: Action)
    requires Reachable(tenants, bound, w) && |w.phases| == |tenants| && Enabled(tenants, bound, w, a)
    ensures Reachable(tenants, bound, Effect(tenants, bound, w, a))
  {
    var ws: seq<World> :| Run(tenants, bound, ws) && ws[|ws| - 1] == w;
    var w' := Effect(tenants, bound, w, a);
    assert Next(tenants, bound, w, w');
    assert Run(tenants, bound, ws + [w']);
  }

  /** Seven units of one tenant: all start, all pass the check while the counter is 0, then all enter. */
  lemma SevenOvertake(bound: nat) returns (tenants: seq<string>, w: World)
    requires bound > 6
    ensures Reachable(tenants, bound, w) && Count(w.counts, "t") == 7
  {
    tenants := seq(7, i => "t");
    w := Init(7);
    assert Run(tenants, bound, [w]);
    for i := 0 to 7
      invariant Reachable(tenants, bound, w) && |w.phases| == 7 && w.priming && w.next == i && |w.flying| <= i
          && w.counts == map[]
      invariant forall j :: 0 <= j < i ==> w.phases[j].Idle?
    {
      ReachableStep(tenants, bound, w, Prime);
      w := Effect(tenants, bound, w, Prime);
    }
    for i := 0 to 7
      invariant Reachable(tenants, bound, w) && |w.phases| == 7 && w.counts == map[]
      invariant forall j :: 0 <= j < 7 ==> if j < i then w.phases[j].Passed? else w.phases[j].Idle?
    {
      ReachableStep(tenants, bound, w, Check(i));
      w := Effect(tenants, bound, w, Check(i));
    }
    for i := 0 to 7
      invariant Reachable(tenants, bound, w) && |w.phases| == 7 && Count(w.counts, "t") == i
      invariant forall j :: i <= j < 7 ==> w.phases[j].Passed?
    {
      ReachableStep(tenants, bound, w, Enter(i));
      w := Effect(tenants, bound, w, Enter(i));
    }
  }

  /**
   * The limiter's check and increment are separate critical sections, so the cap of six per tenant is kept in every
   * interleaving exactly when the fan-out keeps at most six units in flight.
   */
  lemma CapHoldsIffFanOutAtMostSix(bound: nat)
    ensures (forall tenants, w, t :: Reachable(tenants, bound, w) ==> Count(w.counts, t) <= MAX_CONCURRENT_PER_TENANT)
            <==> bound <= 6
  {
    if bound <= 6 {
      forall tenants, w, t | Reachable(tenants, bound, w) ensures Count(w.counts, t) <= MAX_CONCURRENT_PER_TENANT {
        CounterIsLivePermits(tenants, bound, w, t);
      }
    } else {
      var tenants, w := SevenOvertake(bound);
      assert Count(w.counts, "t") > MAX_CONCURRENT_PER_TENANT;
    }
  }

  /** The fan-out runs as near to the concurrency asked for as one to six allow. */
  lemma ClampIsNearest(maxConcurrent: nat, x: nat)
    requires 1 <= x <= 6
    ensures 1 <= Clamp(maxConcurrent) <= 6
    ensures var c := Clamp(maxConcurrent);
      (if c < maxConcurrent then maxConcurrent - c else c - maxConcurrent)
      <= (if x < maxConcurrent then maxConcurrent - x else x - maxConcurrent)
  {
  }

  /** Under `SyncJob::run`, whatever concurrency was asked for, no tenant ever has more than six requests in flight. */
  lemma AtMostSixPerTenant(tenants: seq<string>, maxConcurrent: nat, w: World, t: string)
    requires Reachable(tenants, Clamp(maxConcurrent), w)
    ensures |w.phases| == |tenants| && |Holders(tenants, w.phases, t)| <= 6
  {
    CounterIsLivePermits(tenants, Clamp(maxConcurrent), w, t);
  }
}
