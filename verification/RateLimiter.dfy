/**
 * `rate_limit.rs`: the per-tenant limiter object, its registry, and the critical sections `acquire` and `Drop` are
 * made of.
 */
module RateLimiter {
  import opened Text
  import opened FanOut

  const PROACTIVE_THROTTLE_THRESHOLD := 5

  /** The quota headers of a response that parse as numbers. */
  datatype Quota = Quota(minute: Option<nat>, day: Option<nat>, app: Option<nat>)

  class TenantRateLimiter {
    const tenantId: string
    var state: Quota
    var inFlight: nat

    constructor (tenantId: string)
      ensures this.tenantId == tenantId && inFlight == 0 && state == Quota(None, None, None)
    {
      this.tenantId, state, inFlight := tenantId, Quota(None, None, None), 0;
    }

    /** First critical section of `acquire`. */
    method MayPass() returns (ok: bool)
      ensures ok <==> inFlight < MAX_CONCURRENT_PER_TENANT
    {
      ok := inFlight < MAX_CONCURRENT_PER_TENANT;
    }

    /** Milliseconds to wait before entering: only when at most five calls remain this minute. */
    method ProactiveWait() returns (wait: Option<nat>)
      ensures wait.Some? <==> state.minute.Some? && state.minute.value <= PROACTIVE_THROTTLE_THRESHOLD
      ensures wait.Some? ==> 150 <= wait.value <= 2000 && (wait.value == 2000 <==> state.minute.value == 0)
      ensures state.minute.Some? && 1 <= state.minute.value <= 5 ==>
        wait.Some? && wait.value + 150 * state.minute.value == 900
    {
      if state.minute.None? {
        return None;
      }
      var rem := state.minute.value;
      if rem == 0 {
        wait := Some(2000);
      } else if rem <= PROACTIVE_THROTTLE_THRESHOLD {
        wait := Some(150 * (PROACTIVE_THROTTLE_THRESHOLD + 1 - rem));
      } else {
        wait := None;
      }
    }

    /** Last critical section of `acquire`. */
    method Enter()
      modifies this`inFlight
      ensures inFlight == old(inFlight) + 1
    {
      inFlight := inFlight + 1;
    }

    /** Dropping a permit. */
    method Release()
      modifies this`inFlight
      ensures inFlight == if old(inFlight) > 0 then old(inFlight) - 1 else 0
    {
      if inFlight > 0 {
        inFlight := inFlight - 1;
      }
    }

    /** Headers that are absent or unreadable keep what was known. */
    method UpdateFromHeaders(seen: Quota)
      modifies this`state
      ensures state.minute == if seen.minute.Some? then seen.minute else old(state.minute)
      ensures state.day == if seen.day.Some? then seen.day else old(state.day)
      ensures state.app == if seen.app.Some? then seen.app else old(state.app)
    {
      if seen.minute.Some? { state := state.(minute := seen.minute); }
      if seen.day.Some? { state := state.(day := seen.day); }
      if seen.app.Some? { state := state.(app := seen.app); }
    }
  }

  /** The shared registry, one limiter object per tenant; `Counts` is the protocol's view of it. */
  class Registry {
    var limiters: map<string, TenantRateLimiter>

    ghost predicate Valid()
      reads this, limiters.Values
    {
      && (forall t :: t in limiters ==> limiters[t].tenantId == t)
      && (forall t, u :: t in limiters && u in limiters && t != u ==> limiters[t] != limiters[u])
    }

    ghost function Counts(): map<string, nat>
      reads this, limiters.Values
    {
      map t | t in limiters :: limiters[t].inFlight
    }

    constructor ()
      ensures Valid() && Counts() == map[]
    {
      limiters := map[];
    }

    /** The same object every time for a tenant, different objects for different tenants; no counter changes. */
    method ForTenant(tenant: string) returns (limiter: TenantRateLimiter)
      requires Valid()
      modifies this
      ensures Valid() && tenant in limiters && limiter == limiters[tenant]
      ensures limiters.Keys == old(limiters.Keys) + {tenant}
      ensures forall t :: t in old(limiters) ==> limiters[t] == old(limiters[t])
      ensures forall t :: Count(Counts(), t) == Count(old(Counts()), t)
    {
      if tenant !in limiters {
        var created := new TenantRateLimiter(tenant);
        limiters := limiters[tenant := created];
      }
      limiter := limiters[tenant];
    }

    /** The check of `acquire` is the protocol's `Check` guard. */
    method CheckFor(tenant: string) returns (ok: bool)
      requires Valid()
      modifies this
      ensures Valid()
      ensures ok <==> Count(old(Counts()), tenant) < MAX_CONCURRENT_PER_TENANT
      ensures forall t :: Count(Counts(), t) == Count(old(Counts()), t)
    {
      var limiter := ForTenant(tenant);
      assert Count(Counts(), tenant) == limiter.inFlight;
      ok := limiter.MayPass();
    }

    /** Entering raises the tenant's own counter by one, and no other: the protocol's `Enter`. */
    method EnterFor(tenant: string)
      requires Valid() && tenant in limiters
      modifies limiters[tenant]
      ensures Valid() && limiters[tenant].state == old(limiters[tenant].state)
      ensures Counts() == old(Counts())[tenant := Count(old(Counts()), tenant) + 1]
    {
      limiters[tenant].Enter();
    }

    /** Releasing lowers the tenant's own counter unless it is zero: the protocol's `Release`. */
    method ReleaseFor(tenant: string)
      requires Valid() && tenant in limiters
      modifies limiters[tenant]
      ensures Valid() && limiters[tenant].state == old(limiters[tenant].state)
      ensures var was := Count(old(Counts()), tenant);
        Counts() == if was > 0 then old(Counts())[tenant := was - 1] else old(Counts())
    {
      limiters[tenant].Release();
    }
  }
}
