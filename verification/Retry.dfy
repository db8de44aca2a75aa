/**
 * The request loop every fetch shares: permits, sends, retries and backoff. A server is any stream of replies, one per
 * request; the jitter is any value the random generator may return.
 */
module Retry {
  import opened Blocks
  import opened Text

  const MAX_ATTEMPTS := 5
  const BASE_DELAY_MS := 500
  const MAX_DELAY_MS := 30_000
  const FALLBACK_RETRY_AFTER_SECS := 30

  /** `body` is `None` when reading the response body fails. */
  datatype Reply<+B> =
    | Response(status: nat, retryAfter: Option<nat>, body: Option<B>)
    | TransportError(transient: bool)

  datatype Result<+B> = NotModified | Body(status: nat, body: B) | Failed

  datatype Event = Acquire | Send | Drop | Sleep(ms: nat)

  predicate ServerError(status: nat) { 500 <= status < 600 }

  predicate Backoff<B>(r: Reply<B>) {
    match r case Response(status, _, _) => ServerError(status) case TransportError(transient) => transient
  }

  predicate Retryable<B>(r: Reply<B>) {
    (r.Response? && r.status == 429) || Backoff(r)
  }

  /** What a reply that is not retried leads to. */
  function Verdict<B>(r: Reply<B>): Result<B> {
    if r.TransportError? then Failed
    else if r.status == 304 then NotModified
    else if 200 <= r.status < 300 && r.body.Some? then Body(r.status, r.body.value)
    else Failed
  }

  predicate Success<B>(r: Result<B>) { !r.Failed? }

  function PowerOfTwo(n: nat): (p: nat)
    ensures p > 0
  {
    if n == 0 then 1 else 2 * PowerOfTwo(n - 1)
  }

  /** `exp_backoff` before the jitter is added. */
  function Capped(attempt: nat): (ms: nat)
    ensures 0 < ms <= MAX_DELAY_MS
  {
    var exp := BASE_DELAY_MS * PowerOfTwo(if attempt < 6 then attempt else 6);
    if exp < MAX_DELAY_MS then exp else MAX_DELAY_MS
  }

  /** `gen_range(0..(capped / 4).max(1))`. */
  predicate Jitter(attempt: nat, j: nat) {
    j < if Capped(attempt) / 4 > 1 then Capped(attempt) / 4 else 1
  }

  function Wait<B>(r: Reply<B>, attempt: nat, jitter: nat): nat {
    if r.Response? && r.status == 429
      then 1000 * (if r.retryAfter.Some? then r.retryAfter.value else FALLBACK_RETRY_AFTER_SECS)
    else Capped(attempt) + jitter
  }

  // ---- the loop ------------------------------------------------------------------

  /** The result, given that request number `a` is about to be sent. */
  function ResultFrom<B>(server: nat -> Reply<B>, a: nat): Result<B>
    requires a <= MAX_ATTEMPTS
    decreases MAX_ATTEMPTS - a
  {
    if Retryable(server(a)) then (if a < MAX_ATTEMPTS then ResultFrom(server, a + 1) else Failed)
      else Verdict(server(a))
  }

  function TraceFrom<B>(server: nat -> Reply<B>, jitter: nat -> nat, a: nat): (trace: seq<Event>)
    requires a <= MAX_ATTEMPTS
    decreases MAX_ATTEMPTS - a
  {
    if Retryable(server(a)) && a < MAX_ATTEMPTS then
      [Acquire, Send, Drop, Sleep(Wait(server(a), a, jitter(a)))] + TraceFrom(server, jitter, a + 1)
    else [Acquire, Send, Drop]
  }

  /** `fetch_raw_with_query`: the permit is dropped before every sleep and on every return. */
  method FetchWithRetry<B>(server: nat -> Reply<B>, jitter: nat -> nat) returns (result: Result<B>, trace: seq<Event>)
    requires forall a :: Jitter(a, jitter(a))
    ensures result == ResultFrom(server, 0)
    ensures trace == TraceFrom(server, jitter, 0)
  {
    var attempt := 0;
    trace := [];
    while true
      invariant attempt <= MAX_ATTEMPTS
      invariant trace + TraceFrom(server, jitter, attempt) == TraceFrom(server, jitter, 0)
      invariant ResultFrom(server, attempt) == ResultFrom(server, 0)
      decreases MAX_ATTEMPTS - attempt
    {
      ghost var before := trace;
      var reply := server(attempt);
      trace := trace + [Acquire, Send];
      var wait: Option<nat>;
      wait, result := React(reply, attempt, jitter(attempt));
      trace := trace + [Drop];
      assert trace == before + [Acquire, Send, Drop];
      if wait.None? {
        return;
      }
      TraceGrows(before, Sleep(wait.value), TraceFrom(server, jitter, attempt + 1));
      trace := trace + [Sleep(wait.value)];
      attempt := attempt + 1;
    }
  }

  lemma TraceGrows(before: seq<Event>, sleep: Event, rest: seq<Event>)
    ensures before + ([Acquire, Send, Drop, sleep] + rest) == (before + [Acquire, Send, Drop] + [sleep]) + rest
  {
    assert [Acquire, Send, Drop, sleep] == [Acquire, Send, Drop] + [sleep];
  }

  /** The branches on one reply: how long to wait before retrying, or the result. */
  method React<B>(reply: Reply<B>, attempt: nat, jitter: nat) returns (wait: Option<nat>, result: Result<B>)
    requires attempt <= MAX_ATTEMPTS
    ensures wait.Some? <==> Retryable(reply) && attempt < MAX_ATTEMPTS
    ensures wait.Some? ==> wait.value == Wait(reply, attempt, jitter)
    ensures wait.None? ==> result == if Retryable(reply) then Failed else Verdict(reply)
  {
    wait, result := None, Failed;
    match reply {
      case Response(status, retryAfter, body) =>
        if status == 304 {
          result := NotModified;
        } else if status == 429 {
          if attempt < MAX_ATTEMPTS {
            wait := Some(1000 * if retryAfter.Some? then retryAfter.value else FALLBACK_RETRY_AFTER_SECS);
          }
        } else if 500 <= status < 600 {
          if attempt < MAX_ATTEMPTS {
            wait := Some(Capped(attempt) + jitter);
          }
        } else if 200 <= status < 300 && body.Some? {
          result := Body(status, body.value);
        }
      case TransportError(transient) =>
        if transient && attempt < MAX_ATTEMPTS {
          wait := Some(Capped(attempt) + jitter);
        }
    }
  }

  // ---- outcome -------------------------------------------------------------------

  ghost predicate RetriedUpTo<B>(server: nat -> Reply<B>, from: nat, n: nat) {
    forall b :: from <= b < n ==> Retryable(server(b))
  }

  lemma {:induction false} ResultIs<B>(server: nat -> Reply<B>, from: nat, a: nat)
    requires from <= a <= MAX_ATTEMPTS && RetriedUpTo(server, from, a) && (Retryable(server(a)) ==> a == MAX_ATTEMPTS)
    ensures ResultFrom(server, from) == if Retryable(server(a)) then Failed else Verdict(server(a))
    decreases a - from
  {
    if from < a {
      ResultIs(server, from + 1, a);
    }
  }

  /** A reply the loop tries to get past: 429, a status from 500 to 599, a transport error that may pass. */
  predicate MayPass<B>(r: Reply<B>) {
    match r
    case Response(status, _, _) => status == 429 || 500 <= status <= 599
    case TransportError(transient) => transient
  }

  /** A 304, or a status from 200 to 299 with a body that can be read. */
  predicate Delivers<B>(r: Reply<B>) {
    r.Response? && (r.status == 304 || (200 <= r.status <= 299 && r.body.Some?))
  }

  /**
   * Success is returned exactly when one of the first six replies is a success or a 304 and all before it were 429s,
   * server errors or passing transport errors.
   */
  lemma SuccessIffWithinSix<B>(server: nat -> Reply<B>)
    ensures Success(ResultFrom(server, 0)) <==>
      exists a :: 0 <= a < 6 && (forall b :: 0 <= b < a ==> MayPass(server(b))) && Delivers(server(a))
  {
    var a := FirstStop(server, 0);
    ResultIs(server, 0, a);
    forall b ensures MayPass(server(b)) <==> Retryable(server(b)) {
    }
    if Success(ResultFrom(server, 0)) {
      assert Delivers(server(a)) && forall b :: 0 <= b < a ==> MayPass(server(b));
    }
    forall b | 0 <= b < 6 && (forall c :: 0 <= c < b ==> MayPass(server(c))) && Delivers(server(b)) ensures b == a {
    }
  }

  /** What comes back is what the first reply that is not retried says: its 304, its status and body, or a failure. */
  lemma FirstFinalReplyDecides<B>(server: nat -> Reply<B>, a: nat)
    requires a < 6 && (forall b :: 0 <= b < a ==> MayPass(server(b))) && (MayPass(server(a)) ==> a == 5)
    ensures ResultFrom(server, 0) ==
      if !Delivers(server(a)) then Failed
      else if server(a).status == 304 then NotModified
      else Body(server(a).status, server(a).body.value)
  {
    forall b ensures MayPass(server(b)) <==> Retryable(server(b)) {
    }
    ResultIs(server, 0, a);
  }

  lemma {:induction false} FirstStop<B>(server: nat -> Reply<B>, from: nat) returns (a: nat)
    requires from <= MAX_ATTEMPTS
    ensures from <= a <= MAX_ATTEMPTS && RetriedUpTo(server, from, a) && (Retryable(server(a)) ==> a == MAX_ATTEMPTS)
    decreases MAX_ATTEMPTS - from
  {
    a := from;
    if Retryable(server(from)) && from < MAX_ATTEMPTS {
      a := FirstStop(server, from + 1);
    }
  }

  /** One retried request, seen by a count or a list built from the events. */
  lemma RoundThenRest(sleep: Event, rest: seq<Event>)
    requires sleep.Sleep?
    ensures Requests([Acquire, Send, Drop, sleep] + rest) == 1 + Requests(rest)
    ensures Sleeps([Acquire, Send, Drop, sleep] + rest) == [sleep.ms] + Sleeps(rest)
  {
    var t := [Acquire, Send, Drop, sleep] + rest;
    var t1, t2, t3 := t[1..], t[2..], t[3..];
    assert t1[1..] == t2 && t2[1..] == t3 && t3[1..] == rest;
    assert Requests(t) == Requests(t1) == 1 + Requests(t2) && Requests(t2) == Requests(t3) == Requests(rest);
    assert Sleeps(t) == Sleeps(t1) == Sleeps(t2) == Sleeps(t3) == [sleep.ms] + Sleeps(rest);
  }

  function Requests(trace: seq<Event>): nat {
    if trace == [] then 0 else (if trace[0].Send? then 1 else 0) + Requests(trace[1..])
  }

  /** At most six requests are sent: one for every retryable reply up to the first that is not. */
  lemma {:induction false} RequestsBounded<B>(server: nat -> Reply<B>, jitter: nat -> nat, from: nat, a: nat)
    requires from <= a <= MAX_ATTEMPTS && RetriedUpTo(server, from, a) && (Retryable(server(a)) ==> a == MAX_ATTEMPTS)
    ensures Requests(TraceFrom(server, jitter, from)) == a - from + 1 <= 6
    decreases a - from
  {
    if from < a {
      RequestsBounded(server, jitter, from + 1, a);
      RoundThenRest(Sleep(Wait(server(from), from, jitter(from))), TraceFrom(server, jitter, from + 1));
    } else {
      assert [Acquire, Send, Drop][1..][1..][1..] == [];
    }
  }

  // ---- permits -------------------------------------------------------------------

  /** Permits held after the first `n` events; `None` if an event came where it must not. */
  function HeldAfter(trace: seq<Event>, n: nat): Option<nat>
    requires n <= |trace|
  {
    if n == 0 then Some(0)
    else
      var held := HeldAfter(trace, n - 1);
      if held.None? then None
      else match trace[n - 1]
        case Acquire => if held.value == 0 then Some(1) else None
        case Send => if held.value == 1 then held else None
        case Drop => if held.value == 1 then Some(0) else None
        case Sleep(_) => if held.value == 0 then held else None
  }

  /** A permit for every send, never two at once, none while sleeping, none left over. */
  predicate Disciplined(trace: seq<Event>) {
    HeldAfter(trace, |trace|) == Some(0)
  }

  lemma {:induction false} DisciplineComposes(a: seq<Event>, b: seq<Event>, n: nat)
    requires Disciplined(a) && n <= |b|
    ensures HeldAfter(a + b, |a| + n) == HeldAfter(b, n)
  {
    if n == 0 {
      HeldOfPrefix(a, b, |a|);
    } else {
      DisciplineComposes(a, b, n - 1);
      assert (a + b)[|a| + n - 1] == b[n - 1];
    }
  }

  lemma {:induction false} HeldOfPrefix(a: seq<Event>, b: seq<Event>, n: nat)
    requires n <= |a|
    ensures HeldAfter(a + b, n) == HeldAfter(a, n)
  {
    if n > 0 {
      HeldOfPrefix(a, b, n - 1);
    }
  }

  /** Against any server a request loop follows the permit discipline the fan-out relies on. */
  lemma {:induction false} LoopIsDisciplined<B>(server: nat -> Reply<B>, jitter: nat -> nat, a: nat)
    requires a <= MAX_ATTEMPTS
    ensures Disciplined(TraceFrom(server, jitter, a))
    decreases MAX_ATTEMPTS - a
  {
    assert HeldAfter([Acquire, Send, Drop], 1) == Some(1);
    assert HeldAfter([Acquire, Send, Drop], 2) == Some(1);
    if Retryable(server(a)) && a < MAX_ATTEMPTS {
      var sleep := Sleep(Wait(server(a), a, jitter(a)));
      var round := [Acquire, Send, Drop, sleep];
      assert HeldAfter(round, 1) == Some(1);
      assert HeldAfter(round, 2) == Some(1);
      assert HeldAfter(round, 3) == Some(0);
      LoopIsDisciplined(server, jitter, a + 1);
      DisciplineComposes(round, TraceFrom(server, jitter, a + 1), |TraceFrom(server, jitter, a + 1)|);
    }
  }

  /** All requests a unit makes, one loop after another: it never holds two permits, and none when it ends. */
  lemma {:induction false} UnitIsDisciplined(traces: seq<seq<Event>>, n: nat)
    requires n <= |traces| && forall i :: 0 <= i < n ==> Disciplined(traces[i])
    ensures Disciplined(Joined(traces, n))
    ensures forall m :: 0 <= m <= |Joined(traces, n)| ==>
        HeldAfter(Joined(traces, n), m).Some? && HeldAfter(Joined(traces, n), m).value <= 1
  {
    if n > 0 {
      UnitIsDisciplined(traces, n - 1);
      DisciplineComposes(Joined(traces, n - 1), traces[n - 1], |traces[n - 1]|);
    }
    forall m | 0 <= m <= |Joined(traces, n)|
      ensures HeldAfter(Joined(traces, n), m).Some? && HeldAfter(Joined(traces, n), m).value <= 1
    {
      NeverTwo(Joined(traces, n), m);
    }
  }

  lemma {:induction false} NeverTwo(trace: seq<Event>, m: nat)
    requires m <= |trace| && Disciplined(trace)
    ensures HeldAfter(trace, m).Some? && HeldAfter(trace, m).value <= 1
  {
    HeldBefore(trace, |trace|, m);
    AtMostOne(trace, m);
  }

  lemma {:induction false} HeldBefore(trace: seq<Event>, n: nat, m: nat)
    requires m <= n <= |trace| && HeldAfter(trace, n).Some?
    ensures HeldAfter(trace, m).Some?
  {
    if m < n {
      HeldBefore(trace, n - 1, m);
    }
  }

  lemma {:induction false} AtMostOne(trace: seq<Event>, m: nat)
    requires m <= |trace|
    ensures HeldAfter(trace, m).Some? ==> HeldAfter(trace, m).value <= 1
  {
    if m > 0 {
      AtMostOne(trace, m - 1);
    }
  }

  // ---- backoff -------------------------------------------------------------------

  function Sleeps(trace: seq<Event>): seq<nat> {
    if trace == [] then [] else (if trace[0].Sleep? then [trace[0].ms] else []) + Sleeps(trace[1..])
  }

  lemma {:induction false} SleepsAre<B>(server: nat -> Reply<B>, jitter: nat -> nat, from: nat, a: nat)
    requires from <= a <= MAX_ATTEMPTS && RetriedUpTo(server, from, a) && (Retryable(server(a)) ==> a == MAX_ATTEMPTS)
    ensures var s := Sleeps(TraceFrom(server, jitter, from));
      |s| == a - from && forall b :: from <= b < a ==> s[b - from] == Wait(server(b), b, jitter(b))
    decreases a - from
  {
    if from < a {
      SleepsAre(server, jitter, from + 1, a);
      RoundThenRest(Sleep(Wait(server(from), from, jitter(from))), TraceFrom(server, jitter, from + 1));
    } else {
      assert [Acquire, Send, Drop][1..][1..][1..] == [];
    }
  }

  lemma CappedTable()
    ensures Capped(0) == 500 && Capped(1) == 1000 && Capped(2) == 2000 && Capped(3) == 4000 && Capped(4) == 8000
    ensures forall a :: a >= 6 ==> Capped(a) == 30_000
  {
    assert PowerOfTwo(2) == 4 && PowerOfTwo(3) == 8 && PowerOfTwo(4) == 16;
    assert PowerOfTwo(6) == 4 * PowerOfTwo(4);
  }

  /**
   * A run of server errors and transient transport errors: five sleeps, strictly increasing whatever the jitter,
   * between 15,500 and 19,370 ms in all.
   */
  lemma BackoffIncreasesAndIsBounded<B>(server: nat -> Reply<B>, jitter: nat -> nat)
    requires forall a :: Jitter(a, jitter(a))
    requires forall a :: 0 <= a < 5 ==> MayPass(server(a)) && (server(a).Response? ==> server(a).status != 429)
    ensures var s := Sleeps(TraceFrom(server, jitter, 0));
      && |s| == 5 && s[0] < s[1] < s[2] < s[3] < s[4]
      && 15_500 <= s[0] + s[1] + s[2] + s[3] + s[4] <= 19_370
  {
    SleepsAre(server, jitter, 0, MAX_ATTEMPTS);
    CappedTable();
    var s := Sleeps(TraceFrom(server, jitter, 0));
    assert Jitter(0, jitter(0)) && Jitter(1, jitter(1)) && Jitter(2, jitter(2)) && Jitter(3, jitter(3))
        && Jitter(4, jitter(4));
    assert s[0 - 0] == Wait(server(0), 0, jitter(0)) && s[1 - 0] == Wait(server(1), 1, jitter(1));
    assert s[2 - 0] == Wait(server(2), 2, jitter(2)) && s[3 - 0] == Wait(server(3), 3, jitter(3));
    assert s[4 - 0] == Wait(server(4), 4, jitter(4));
  }

  /** Both bounds are met, by the least and by the greatest jitter. */
  lemma BackoffBoundsAreMet<B>(server: nat -> Reply<B>, least: bool) returns (jitter: nat -> nat)
    requires forall a :: 0 <= a < 5 ==> MayPass(server(a)) && (server(a).Response? ==> server(a).status != 429)
    ensures forall a :: Jitter(a, jitter(a))
    ensures var s := Sleeps(TraceFrom(server, jitter, 0));
      |s| == 5 && s[0] + s[1] + s[2] + s[3] + s[4] == if least then 15_500 else 19_370
  {
    CappedTable();
    jitter := a => if least || Capped(a) / 4 <= 1 then 0 else Capped(a) / 4 - 1;
    SleepsAre(server, jitter, 0, MAX_ATTEMPTS);
    var s := Sleeps(TraceFrom(server, jitter, 0));
    assert s[0 - 0] == Wait(server(0), 0, jitter(0)) && s[1 - 0] == Wait(server(1), 1, jitter(1));
    assert s[2 - 0] == Wait(server(2), 2, jitter(2)) && s[3 - 0] == Wait(server(3), 3, jitter(3));
    assert s[4 - 0] == Wait(server(4), 4, jitter(4));
  }

  /**
   * The sleep after any 429 that is retried is the number of seconds the server names, whatever came before and
   * comes after; without a readable header it is 30 seconds.
   */
  lemma RateLimitWaitIsServersChoice<B>(server: nat -> Reply<B>, jitter: nat -> nat, b: nat)
    requires b < MAX_ATTEMPTS && RetriedUpTo(server, 0, b) && server(b).Response? && server(b).status == 429
    ensures var s := Sleeps(TraceFrom(server, jitter, 0));
      b < |s| && s[b] == if server(b).retryAfter.Some? then 1000 * server(b).retryAfter.value else 30_000
  {
    var a := FirstStop(server, 0);
    SleepsAre(server, jitter, 0, a);
    var s := Sleeps(TraceFrom(server, jitter, 0));
    assert s[b - 0] == Wait(server(b), b, jitter(b));
  }

  /** No bound holds for these sleeps: at every attempt some server exceeds it. */
  lemma RateLimitWaitsAreUnbounded<B>(jitter: nat -> nat, limit: nat, b: nat) returns (server: nat -> Reply<B>)
    requires b < MAX_ATTEMPTS
    ensures var s := Sleeps(TraceFrom(server, jitter, 0)); b < |s| && s[b] > limit
  {
    server := a => Response(429, Some(limit + 1), None);
    RateLimitWaitIsServersChoice(server, jitter, b);
  }
}
