/**
 * Why `FanOut` may treat a unit as a phase: the events of a unit's request loops drive it through the phases, and the
 * phase machine accepts exactly the traces `Retry` calls disciplined.
 */
module UnitSteps {
  import opened Text
  import R = Retry
  import opened FanOut

  /** The phase of a unit that holds this many permits between two events. */
  function PhaseOf(held: nat): Phase {
    if held == 0 then Idle else Holding
  }

  /**
   * What an event of unit `i` is in the protocol: acquiring is a check that passes and an entry, dropping a release; a
   * send needs a permit, a sleep none. `None` if the protocol has no such step here.
   */
  function Step(tenants: seq<string>, bound: nat, w: World, i: nat, e: R.Event): Option<World>
    requires i < |w.phases| == |tenants|
  {
    match e
    case Acquire =>
      if !Enabled(tenants, bound, w, Check(i)) then None
      else
        var checked := Effect(tenants, bound, w, Check(i));
        if Enabled(tenants, bound, checked, Enter(i)) then Some(Effect(tenants, bound, checked, Enter(i))) else None
    case Drop => if Enabled(tenants, bound, w, Release(i)) then Some(Effect(tenants, bound, w, Release(i))) else None
    case Send => if w.phases[i].Holding? then Some(w) else None
    case Sleep(_) => if w.phases[i].Idle? then Some(w) else None
  }

  /** The worlds unit `i` alone leads through with the first `n` events of a trace. */
  function Play(tenants: seq<string>, bound: nat, w: World, i: nat, trace: seq<R.Event>, n: nat): (v: Option<World>)
    requires i < |w.phases| == |tenants| && n <= |trace|
    ensures v.Some? ==> |v.value.phases| == |tenants|
  {
    if n == 0 then Some(w)
    else
      var v := Play(tenants, bound, w, i, trace, n - 1);
      if v.None? then None else Step(tenants, bound, v.value, i, trace[n - 1])
  }

  /** `v` is `w` but for unit `i`, which holds `held` permits. */
  ghost predicate OnlyUnit(tenants: seq<string>, w: World, v: World, i: nat, held: nat)
    requires i < |w.phases| == |tenants|
  {
    && v.phases == w.phases[i := PhaseOf(held)]
    && v.next == w.next && v.flying == w.flying && v.done == w.done && v.priming == w.priming
    && forall t :: Count(v.counts, t) == Count(w.counts, t) + if t == tenants[i] then held else 0
  }

  /** The permits of one event, as `Retry.HeldAfter` counts them. */
  function HeldNext(held: nat, e: R.Event): Option<nat> {
    match e
    case Acquire => if held == 0 then Some(1) else None
    case Send => if held == 1 then Some(1) else None
    case Drop => if held == 1 then Some(0) else None
    case Sleep(_) => if held == 0 then Some(0) else None
  }

  /**
   * In any reachable world, whatever the other units did meanwhile: the protocol has a step for the event exactly when
   * the permit count allows it, and the step leads to the phase of the new count.
   */
  lemma StepFollowsPermits(tenants: seq<string>, bound: nat, w: World, i: nat, held: nat, e: R.Event)
    requires bound <= MAX_CONCURRENT_PER_TENANT && Reachable(tenants, bound, w)
    requires i < |w.phases| == |tenants| && held <= 1 && w.phases[i] == PhaseOf(held)
    ensures var v := Step(tenants, bound, w, i, e);
      && (v.Some? <==> HeldNext(held, e).Some?)
      && (v.Some? ==>
            && Reachable(tenants, bound, v.value)
            && v.value.phases == w.phases[i := PhaseOf(HeldNext(held, e).value)])
  {
    match e
    case Acquire =>
      if held == 0 {
        NobodySpins(tenants, bound, w, i);
        ReachableStep(tenants, bound, w, Check(i));
        ReachableStep(tenants, bound, Effect(tenants, bound, w, Check(i)), Enter(i));
      }
    case Drop =>
      if held == 1 {
        ReachableStep(tenants, bound, w, Release(i));
      }
    case Send =>
    case Sleep(_) =>
  }

  /** How the event moves the counters. */
  lemma StepCounts(tenants: seq<string>, bound: nat, w: World, i: nat, e: R.Event)
    requires bound <= MAX_CONCURRENT_PER_TENANT && Reachable(tenants, bound, w) && i < |w.phases| == |tenants|
    requires Step(tenants, bound, w, i, e).Some?
    ensures var v := Step(tenants, bound, w, i, e).value;
      && v.next == w.next && v.flying == w.flying && v.done == w.done && v.priming == w.priming
      && forall t :: Count(v.counts, t) == Count(w.counts, t)
                     + if t != tenants[i] then 0 else if e.Acquire? then 1 else if e.Drop? then -1 else 0
  {
    if e.Drop? {
      ReleaseFindsPermit(tenants, bound, w, i);
    }
  }

  lemma HeldAfterNext(trace: seq<R.Event>, n: nat)
    requires n < |trace| && R.HeldAfter(trace, n).Some?
    ensures R.HeldAfter(trace, n + 1) == HeldNext(R.HeldAfter(trace, n).value, trace[n])
  {
  }

  /**
   * From any reachable world in which the unit is between requests, with at most six units in flight: the protocol
   * accepts a trace exactly as far as it is disciplined, the unit's phase says whether it holds a permit, and nothing
   * but its phase and its tenant's counter moves.
   */
  lemma {:induction false} ProtocolAcceptsDisciplined(tenants: seq<string>, bound: nat, w: World, i: nat,
                                                      trace: seq<R.Event>, n: nat)
    requires bound <= MAX_CONCURRENT_PER_TENANT && Reachable(tenants, bound, w)
    requires i < |w.phases| == |tenants| && w.phases[i].Idle? && n <= |trace|
    ensures var v, held := Play(tenants, bound, w, i, trace, n), R.HeldAfter(trace, n);
      && (v.Some? <==> held.Some?)
      && (v.Some? ==>
            && held.value <= 1 && Reachable(tenants, bound, v.value)
            && OnlyUnit(tenants, w, v.value, i, held.value))
  {
    if n == 0 {
      assert w.phases[i := PhaseOf(0)] == w.phases;
    } else {
      ProtocolAcceptsDisciplined(tenants, bound, w, i, trace, n - 1);
      var v := Play(tenants, bound, w, i, trace, n - 1);
      if v.Some? {
        var held := R.HeldAfter(trace, n - 1).value;
        HeldAfterNext(trace, n - 1);
        StepFollowsPermits(tenants, bound, v.value, i, held, trace[n - 1]);
        if HeldNext(held, trace[n - 1]).Some? {
          StepCounts(tenants, bound, v.value, i, trace[n - 1]);
        }
      }
    }
  }

  /** A request loop, against any server, takes its unit from idle to idle and leaves every counter as it found it. */
  lemma LoopReturnsToIdle<B>(tenants: seq<string>, bound: nat, w: World, i: nat, server: nat -> R.Reply<B>,
                             jitter: nat -> nat)
    requires bound <= MAX_CONCURRENT_PER_TENANT && Reachable(tenants, bound, w)
    requires i < |w.phases| == |tenants| && w.phases[i].Idle?
    ensures var trace := R.TraceFrom(server, jitter, 0); var v := Play(tenants, bound, w, i, trace, |trace|);
      && v.Some? && Reachable(tenants, bound, v.value)
      && v.value.phases == w.phases && forall t :: Count(v.value.counts, t) == Count(w.counts, t)
  {
    var trace := R.TraceFrom(server, jitter, 0);
    R.LoopIsDisciplined(server, jitter, 0);
    ProtocolAcceptsDisciplined(tenants, bound, w, i, trace, |trace|);
    assert w.phases[i := PhaseOf(0)] == w.phases;
  }

  // ---- other units stepping in between ---------------------------------------------------

  /** Where a unit stands in its trace: before event `n`, or, with `half`, between the check and the entry of it. */
  datatype Place = Place(n: nat, half: bool)

  /** The place can be reached: `half` only inside an acquire that found no permit held. */
  ghost predicate Sensible(trace: seq<R.Event>, p: Place) {
    && p.n <= |trace| && R.HeldAfter(trace, p.n).Some?
    && (p.half ==> p.n < |trace| && trace[p.n].Acquire? && R.HeldAfter(trace, p.n) == Some(0))
  }

  ghost function PhaseAt(trace: seq<R.Event>, p: Place): Phase
    requires Sensible(trace, p)
  {
    if p.half then Passed else PhaseOf(R.HeldAfter(trace, p.n).value)
  }

  /** The unit's next step on its own, one critical section at a time; `None` if it has none here. */
  function OwnStep(tenants: seq<string>, bound: nat, w: World, i: nat, trace: seq<R.Event>, p: Place)
    : Option<(World, Place)>
    requires i < |w.phases| == |tenants| && p.n < |trace|
  {
    var next := Place(p.n + 1, false);
    match trace[p.n]
    case Acquire =>
      if p.half then
        if Enabled(tenants, bound, w, Enter(i)) then Some((Effect(tenants, bound, w, Enter(i)), next)) else None
      else if Enabled(tenants, bound, w, Check(i)) && Count(w.counts, tenants[i]) < MAX_CONCURRENT_PER_TENANT then
        Some((Effect(tenants, bound, w, Check(i)), Place(p.n, true)))
      else None
    case Drop =>
      if Enabled(tenants, bound, w, Release(i)) then Some((Effect(tenants, bound, w, Release(i)), next)) else None
    case Send => if w.phases[i].Holding? then Some((w, next)) else None
    case Sleep(_) => if w.phases[i].Idle? then Some((w, next)) else None
  }

  /**
   * In any reachable world, whatever other units did since the unit's last critical section: it has a next step exactly
   * when its trace may go on, and the step leads to the phase of its new place.
   */
  lemma OwnStepIffPermitted(tenants: seq<string>, bound: nat, w: World, i: nat, trace: seq<R.Event>, p: Place)
    requires bound <= MAX_CONCURRENT_PER_TENANT && Reachable(tenants, bound, w) && i < |w.phases| == |tenants|
    requires Sensible(trace, p) && p.n < |trace| && w.phases[i] == PhaseAt(trace, p)
    requires R.HeldAfter(trace, p.n).value <= 1
    ensures var step := OwnStep(tenants, bound, w, i, trace, p);
      && (step.Some? <==> R.HeldAfter(trace, p.n + 1).Some?)
      && (step.Some? ==>
            && Reachable(tenants, bound, step.value.0) && Sensible(trace, step.value.1)
            && step.value.0.phases == w.phases[i := PhaseAt(trace, step.value.1)])
  {
    HeldAfterNext(trace, p.n);
    match trace[p.n]
    case Acquire =>
      if p.half {
        ReachableStep(tenants, bound, w, Enter(i));
      } else if w.phases[i].Idle? {
        NobodySpins(tenants, bound, w, i);
        ReachableStep(tenants, bound, w, Check(i));
      }
    case Drop =>
      if w.phases[i].Holding? {
        ReachableStep(tenants, bound, w, Release(i));
      }
    case Send =>
    case Sleep(_) =>
  }

  predicate Others(a: Action, i: nat) {
    a.Prime? || a.EndPrime? || a.i != i
  }

  /** Steps of other units, and of the fan-out, leave a unit in the middle of its requests where it is. */
  lemma OthersLeaveUnit(tenants: seq<string>, bound: nat, w: World, i: nat, a: Action)
    requires Reachable(tenants, bound, w) && i < |w.phases| == |tenants|
    requires w.phases[i].Idle? || w.phases[i].Passed? || w.phases[i].Holding?
    requires Enabled(tenants, bound, w, a) && Others(a, i)
    ensures Effect(tenants, bound, w, a).phases[i] == w.phases[i]
    ensures |Effect(tenants, bound, w, a).phases| == |tenants|
        && Reachable(tenants, bound, Effect(tenants, bound, w, a))
  {
    InvAlways(tenants, bound, w);
    ReachableStep(tenants, bound, w, a);
  }

  ghost predicate OtherStep(tenants: seq<string>, bound: nat, w: World, i: nat, w': World)
    requires |w.phases| == |tenants|
  {
    exists a :: Enabled(tenants, bound, w, a) && Others(a, i) && w' == Effect(tenants, bound, w, a)
  }

  /** One step of the unit along its trace, or of anybody else. */
  ghost predicate WovenStep(tenants: seq<string>, bound: nat, i: nat, trace: seq<R.Event>, w: World, p: Place,
                            w': World, p': Place)
  {
    && i < |w.phases| == |tenants|
    && ((p.n < |trace| && OwnStep(tenants, bound, w, i, trace, p) == Some((w', p')))
        || (p' == p && OtherStep(tenants, bound, w, i, w')))
  }

  /** The unit's trace, from a reachable world in which it is idle, woven with any steps of the others. */
  ghost predicate Woven(tenants: seq<string>, bound: nat, i: nat, trace: seq<R.Event>, ws: seq<World>, ps: seq<Place>) {
    && |ws| == |ps| > 0 && Reachable(tenants, bound, ws[0]) && i < |ws[0].phases| == |tenants|
    && ws[0].phases[i].Idle? && ps[0] == Place(0, false)
    && forall m :: 0 <= m < |ws| - 1 ==> WovenStep(tenants, bound, i, trace, ws[m], ps[m], ws[m + 1], ps[m + 1])
  }

  /** The world agrees with the unit's place. */
  ghost predicate Follows(tenants: seq<string>, bound: nat, i: nat, trace: seq<R.Event>, w: World, p: Place) {
    && Reachable(tenants, bound, w) && i < |w.phases| == |tenants|
    && Sensible(trace, p) && w.phases[i] == PhaseAt(trace, p)
  }

  lemma FollowsOn(tenants: seq<string>, bound: nat, i: nat, trace: seq<R.Event>, w: World, p: Place, w': World,
                  p': Place)
    requires bound <= MAX_CONCURRENT_PER_TENANT && R.Disciplined(trace)
    requires Follows(tenants, bound, i, trace, w, p) && WovenStep(tenants, bound, i, trace, w, p, w', p')
    ensures Follows(tenants, bound, i, trace, w', p')
  {
    if p' == p && OtherStep(tenants, bound, w, i, w') {
      var a :| Enabled(tenants, bound, w, a) && Others(a, i) && w' == Effect(tenants, bound, w, a);
      OthersLeaveUnit(tenants, bound, w, i, a);
    } else {
      R.AtMostOne(trace, p.n);
      OwnStepIffPermitted(tenants, bound, w, i, trace, p);
    }
  }

  lemma NeverBlocked(tenants: seq<string>, bound: nat, i: nat, trace: seq<R.Event>, w: World, p: Place)
    requires bound <= MAX_CONCURRENT_PER_TENANT && R.Disciplined(trace)
    requires Follows(tenants, bound, i, trace, w, p) && p.n < |trace|
    ensures OwnStep(tenants, bound, w, i, trace, p).Some?
  {
    R.AtMostOne(trace, p.n);
    R.HeldBefore(trace, |trace|, p.n + 1);
    OwnStepIffPermitted(tenants, bound, w, i, trace, p);
  }

  /**
   * A unit with a disciplined trace, as all request loops have, in any interleaving of any length with at most six
   * units in flight: its phase always says where it stands, it always has a next step until its trace ends, and then it
   * is idle.
   */
  lemma {:induction false} TraceRunsInEveryInterleaving(tenants: seq<string>, bound: nat, i: nat, trace: seq<R.Event>,
                                                        ws: seq<World>, ps: seq<Place>, m: nat)
    requires bound <= MAX_CONCURRENT_PER_TENANT && R.Disciplined(trace)
    requires Woven(tenants, bound, i, trace, ws, ps) && m < |ws|
    ensures Follows(tenants, bound, i, trace, ws[m], ps[m])
    ensures ps[m].n < |trace| ==> OwnStep(tenants, bound, ws[m], i, trace, ps[m]).Some?
    ensures ps[m].n == |trace| ==> ws[m].phases[i].Idle?
  {
    if m > 0 {
      TraceRunsInEveryInterleaving(tenants, bound, i, trace, ws, ps, m - 1);
      assert WovenStep(tenants, bound, i, trace, ws[m - 1], ps[m - 1], ws[m - 1 + 1], ps[m - 1 + 1]);
      FollowsOn(tenants, bound, i, trace, ws[m - 1], ps[m - 1], ws[m], ps[m]);
    }
    if ps[m].n < |trace| {
      NeverBlocked(tenants, bound, i, trace, ws[m], ps[m]);
    }
  }
}
