/** The circuit breaker and the process throttle, as the lock-protected objects they
    are and as the functions their critical sections compute. */
module Breaker {
  import opened Core

  type Instant = int

  datatype Inner = Closed(failures: nat) | Open(until: Instant) | HalfOpen(probeInFlight: bool)

  datatype Outcome = Success | Failure | Neutral

  datatype Limits = Limits(threshold: nat, cooldown: nat)

  const U32_MAX: nat := 0xFFFF_FFFF

  /** What `acquire_at` leaves and whether it admits; an admission says if it is the
      canary. */
  function Acquire(inner: Inner, now: Instant): (Inner, Option<bool>) {
    match inner
    case Closed(_) => (inner, Some(false))
    case Open(until) => if now >= until then (HalfOpen(true), Some(true)) else (inner, None)
    case HalfOpen(inFlight) => if inFlight then (inner, None) else (HalfOpen(true), Some(true))
  }

  /** What `resolve` leaves: the state, whether it tripped, whether it recovered. */
  function Resolve(l: Limits, inner: Inner, canary: bool, outcome: Outcome, now: Instant): (Inner, bool, bool) {
    match inner
    case Closed(failures) =>
      if canary || outcome == Neutral then (inner, false, false)
      else if outcome == Success then (Closed(0), false, false)
      else if Min(failures + 1, U32_MAX) >= l.threshold then (Open(now + l.cooldown), true, false)
      else (Closed(failures + 1), false, false)
    case Open(_) => (inner, false, false)
    case HalfOpen(inFlight) =>
      if !canary || !inFlight then (inner, false, false)
      else if outcome == Success then (Closed(0), false, true)
      else if outcome == Failure then (Open(now + l.cooldown), true, false)
      else (HalfOpen(false), false, false)
  }

  class CircuitBreaker {
    var inner: Inner
    const limits: Limits

    ghost predicate Valid()
      reads this
    {
      1 <= limits.threshold <= U32_MAX && (inner.Closed? ==> inner.failures < limits.threshold)
    }

    /** A threshold of zero counts as one. */
    constructor (threshold: nat, cooldown: nat)
      requires threshold <= U32_MAX
      ensures Valid() && inner == Closed(0) && limits == Limits(if threshold == 0 then 1 else threshold, cooldown)
    {
      inner := Closed(0);
      limits := Limits(if threshold == 0 then 1 else threshold, cooldown);
    }

    method AcquireAt(now: Instant) returns (permit: Option<Permit>)
      requires Valid()
      modifies this`inner
      ensures Valid()
      ensures inner == Acquire(old(inner), now).0
      ensures permit.Some? <==> Acquire(old(inner), now).1.Some?
      ensures permit.Some? ==>
        && fresh(permit.value) && permit.value.breaker == this && !permit.value.resolved
        && Some(permit.value.canary) == Acquire(old(inner), now).1
    {
      match inner
      case Closed(_) =>
        var p := new Permit(this, false);
        permit := Some(p);
      case Open(until) =>
        if now < until {
          return None;
        }
        inner := HalfOpen(true);
        var p := new Permit(this, true);
        permit := Some(p);
      case HalfOpen(inFlight) =>
        if inFlight {
          return None;
        }
        inner := HalfOpen(true);
        var p := new Permit(this, true);
        permit := Some(p);
    }

    method ResolveAt(canary: bool, outcome: Outcome, now: Instant) returns (tripped: bool, recovered: bool)
      requires Valid()
      modifies this`inner
      ensures Valid()
      ensures (inner, tripped, recovered) == Resolve(limits, old(inner), canary, outcome, now)
      ensures tripped <==> !old(inner).Open? && inner.Open?
      ensures recovered <==> old(inner).HalfOpen? && inner.Closed?
      ensures canary && old(inner) == HalfOpen(true) ==>
        inner == match outcome
                 case Success => Closed(0)
                 case Failure => Open(now + limits.cooldown)
                 case Neutral => HalfOpen(false)
      ensures !canary && old(inner).Closed? ==>
        inner == match outcome
                 case Success => Closed(0)
                 case Failure =>
                   if old(inner).failures + 1 >= limits.threshold then Open(now + limits.cooldown)
                   else Closed(old(inner).failures + 1)
                 case Neutral => old(inner)
    {
      tripped, recovered := false, false;
      match inner
      case Closed(failures) =>
        if !canary {
          match outcome
          case Success => inner := Closed(0);
          case Neutral =>
          case Failure =>
            if Min(failures + 1, U32_MAX) >= limits.threshold {
              inner, tripped := Open(now + limits.cooldown), true;
            } else {
              inner := Closed(failures + 1);
            }
        }
      case HalfOpen(inFlight) =>
        if canary && inFlight {
          match outcome
          case Success => inner, recovered := Closed(0), true;
          case Failure => inner, tripped := Open(now + limits.cooldown), true;
          case Neutral => inner := HalfOpen(false);
        }
      case Open(_) =>
    }
  }

  /** An admitted attempt: resolved once, explicitly or by being dropped. */
  class Permit {
    const breaker: CircuitBreaker
    const canary: bool
    var resolved: bool

    constructor (breaker: CircuitBreaker, canary: bool)
      ensures this.breaker == breaker && this.canary == canary && !resolved
    {
      this.breaker, this.canary, resolved := breaker, canary, false;
    }

    /** Resolving sets the flag first, so the drop that follows does nothing. */
    method Finish(outcome: Outcome, now: Instant) returns (tripped: bool, recovered: bool)
      requires breaker.Valid() && !resolved
      modifies this`resolved, breaker`inner
      ensures breaker.Valid() && resolved
      ensures (breaker.inner, tripped, recovered) == Resolve(breaker.limits, old(breaker.inner), canary, outcome, now)
    {
      resolved := true;
      tripped, recovered := breaker.ResolveAt(canary, outcome, now);
      Drop(now);
    }

    /** Dropped unresolved, an attempt counts as a failure. */
    method Drop(now: Instant)
      requires breaker.Valid()
      modifies this`resolved, breaker`inner
      ensures breaker.Valid() && resolved
      ensures breaker.inner == if old(resolved) then old(breaker.inner)
        else Resolve(breaker.limits, old(breaker.inner), canary, Failure, now).0
    {
      if !resolved {
        resolved := true;
        var _, _ := breaker.ResolveAt(canary, Failure, now);
      }
    }
  }

  /** A counting semaphore; the wait itself is the scheduler's. */
  class ProcessThrottle {
    var inUse: nat
    const limit: nat

    ghost predicate Valid()
      reads this
    {
      limit >= 1 && inUse <= limit
    }

    constructor (limit: nat)
      ensures Valid() && inUse == 0 && this.limit == if limit == 0 then 1 else limit
    {
      inUse := 0;
      this.limit := if limit == 0 then 1 else limit;
    }

    /** After the wait is over: decided on the counter, not on why the wait ended. */
    method Acquire() returns (slot: bool)
      requires Valid()
      modifies this`inUse
      ensures Valid()
      ensures slot <==> old(inUse) < limit
      ensures inUse == old(inUse) + if slot then 1 else 0
    {
      if inUse >= limit {
        return false;
      }
      inUse := inUse + 1;
      return true;
    }

    method Release()
      requires Valid()
      modifies this`inUse
      ensures Valid()
      ensures inUse == if old(inUse) == 0 then 0 else old(inUse) - 1
    {
      inUse := if inUse == 0 then 0 else inUse - 1;
    }
  }
}
