/** The per-route token bucket: 64-bit nanotoken code refining an unbounded bucket. */
module RateLimit {
  import opened Common

  const UNITS_PER_TOKEN: uint64 := 1_000_000_000
  const MAX_SETTING: uint32 := 1_000_000

  /** Nanotokens in one token; also nanoseconds in one second. */
  const TOKEN := 1_000_000_000

  datatype Config = Config(requestsPerSecond: uint32, burst: uint32) {
    predicate Valid() {
      1 <= requestsPerSecond <= MAX_SETTING && 1 <= burst <= MAX_SETTING
    }
  }

  datatype Decision = Allowed | Rejected(retryAfterSeconds: nat)

  /** The specification: an unbounded bucket whose clock is the running maximum of the times seen. */
  datatype Bucket = Bucket(rate: nat, burst: nat, units: int, last: int) {
    predicate Valid() {
      1 <= rate && 1 <= burst && 0 <= units <= Capacity()
    }

    function Capacity(): int { burst * TOKEN }

    function Refilled(now: int): Bucket {
      var t := Max(last, now);
      this.(units := Min(Capacity(), units + rate * (t - last)), last := t)
    }

    /** One call: whether it is admitted, and the bucket afterwards. */
    predicate Admits(now: int) { Refilled(now).units >= TOKEN }

    function After(now: int): Bucket {
      var b := Refilled(now);
      if b.units >= TOKEN then b.(units := b.units - TOKEN) else b
    }

    /** The first whole number of seconds, counted from the bucket's clock, at which a token is there. */
    ghost predicate EarliestWait(seconds: nat) {
      && Admits(last + seconds * TOKEN)
      && (forall n: nat :: n < seconds ==> !Admits(last + n * TOKEN))
    }
  }

  function Fresh(config: Config, now: int): Bucket {
    Bucket(config.requestsPerSecond as int, config.burst as int, config.burst as int * TOKEN, now)
  }

  /** A new bucket is valid and full. */
  lemma FreshIsFull(config: Config, now: int)
    requires config.Valid()
    ensures var b := Fresh(config, now);
      && b.Valid() && b.units == b.Capacity() == config.burst as int * 1_000_000_000
      && b.rate == config.requestsPerSecond as int && b.last == now
  {
  }

  // ----- arithmetic of the early clamps

  /** `r` is the least natural number whose multiple by `d` reaches `a`. */
  predicate IsCeiling(r: int, a: int, d: int) {
    0 <= r && r * d >= a && (r > 0 ==> (r - 1) * d < a)
  }

  function CeilDivide(numerator: uint64, denominator: uint64): (r: uint64)
    requires denominator > 0
    ensures IsCeiling(r as int, numerator as int, denominator as int)
  {
    QuotientBounds(numerator as int, denominator as int);
    var q := numerator / denominator;
    if numerator % denominator != 0 then q + 1 else q
  }

  lemma QuotientBounds(a: int, d: int)
    requires a >= 0 && d > 0
    ensures 0 <= a / d <= a && (a % d != 0 ==> a / d < a)
    ensures IsCeiling(a / d + (if a % d != 0 then 1 else 0), a, d)
  {
    var q, m := a / d, a % d;
    assert a == q * d + m;
    assert (q - 1) * d == q * d - d && (q + 1) * d == q * d + d;
    assert q * d >= q by { MulAtLeast(q, d); }
  }

  lemma MulAtLeast(x: int, y: int)
    requires x >= 0 && y >= 1
    ensures x * y >= x && y * x >= x
  {
    assert x * (y - 1) >= 0;
    assert x * y == x * (y - 1) + x;
  }

  lemma MulMonotone(x: int, y: int, d: int)
    requires x <= y && d > 0
    ensures x * d <= y * d
  {
    assert (y - x) * d >= 0;
    MulSub(y, x, d);
  }

  lemma MulSub(y: int, x: int, d: int)
    ensures (y - x) * d == y * d - x * d
  {
  }

  lemma CeilingDecides(n: nat, r: int, a: int, d: int)
    requires d > 0 && IsCeiling(r, a, d)
    ensures n >= r <==> n * d >= a
  {
    if n >= r {
      MulMonotone(r, n, d);
    } else {
      MulMonotone(n, r - 1, d);
    }
  }

  lemma TicksAreExact(now: int64, last: int64)
    requires now > last
    ensures WrappingSub(AsUnsigned(now), AsUnsigned(last)) as int == now as int - last as int
  {
  }

  /** The first clamp: a whole burst of seconds fills any bucket. */
  lemma BurstSecondsFill(b: Bucket, now: int)
    requires b.Valid() && now - b.last >= b.Capacity()
    ensures b.Refilled(now) == b.(units := b.Capacity(), last := now)
  {
    MulAtLeast(now - b.last, b.rate);
  }

  /** The second clamp: the refill overflows the bucket exactly when the needed ticks have passed. */
  lemma NeededTicksFill(b: Bucket, now: int, needed: int)
    requires b.Valid() && now > b.last && IsCeiling(needed, b.Capacity() - b.units, b.rate)
    ensures now - b.last >= needed ==> b.Refilled(now) == b.(units := b.Capacity(), last := now)
    ensures now - b.last < needed ==> b.Refilled(now) == b.(units := b.units + (now - b.last) * b.rate, last := now)
    ensures now - b.last < needed ==> 0 <= (now - b.last) * b.rate < b.Capacity() - b.units
  {
    var elapsed: nat := now - b.last;
    CeilingDecides(elapsed, needed, b.Capacity() - b.units, b.rate);
    assert b.rate * elapsed == elapsed * b.rate;
    assert elapsed * b.rate >= elapsed by { MulAtLeast(elapsed, b.rate); }
  }

  // ----- the 64-bit object

  class TokenBucket {
    const config: Config
    const capacity: uint64
    var units: uint64
    var lastRefill: int64

    ghost predicate Valid()
      reads this
    {
      && config.Valid()
      && capacity as int == config.burst as int * TOKEN
      && units <= capacity
    }

    /** The specification state this object stands for. */
    ghost function State(): (b: Bucket)
      reads this
      requires Valid()
      ensures b.Valid()
    {
      Bucket(config.requestsPerSecond as int, config.burst as int, units as int, lastRefill as int)
    }

    constructor (c: Config, now: int64)
      requires c.Valid()
      ensures Valid() && State() == Fresh(c, now as int)
      ensures config == c
    {
      config := c;
      capacity := c.burst as uint64 * UNITS_PER_TOKEN;
      units := c.burst as uint64 * UNITS_PER_TOKEN;
      lastRefill := now;
    }

    method Refill(now: int64)
      requires Valid()
      modifies this
      ensures Valid() && State() == old(State()).Refilled(now as int)
    {
      ghost var before := State();
      if now <= lastRefill {
        return;
      }
      var ticks := WrappingSub(AsUnsigned(now), AsUnsigned(lastRefill));
      TicksAreExact(now, lastRefill);
      lastRefill := now;
      if ticks >= config.burst as uint64 * UNITS_PER_TOKEN {
        BurstSecondsFill(before, now as int);
        units := capacity;
        return;
      }
      var missing := capacity - units;
      var needed := CeilDivide(missing, config.requestsPerSecond as uint64);
      NeededTicksFill(before, now as int, needed as int);
      if ticks >= needed {
        units := capacity;
      } else {
        units := units + ticks * config.requestsPerSecond as uint64;
      }
    }

    method TryAcquire(now: int64) returns (decision: Decision)
      requires Valid()
      modifies this
      ensures Valid() && State() == old(State()).After(now as int)
      ensures decision.Allowed? <==> old(State()).Admits(now as int)
      ensures decision.Rejected? ==> State().EarliestWait(decision.retryAfterSeconds)
    {
      Refill(now);
      if units >= UNITS_PER_TOKEN {
        units := units - UNITS_PER_TOKEN;
        return Allowed;
      }
      var waitNanoseconds := CeilDivide(UNITS_PER_TOKEN - units, config.requestsPerSecond as uint64);
      var wait := CeilDivide(waitNanoseconds, UNITS_PER_TOKEN);
      WaitIsEarliest(State(), waitNanoseconds as int, wait as int);
      decision := Rejected(wait as int);
    }
  }

  /** `TokenBucket::TokenBucket` with its rejection of out-of-range settings. */
  method Create(config: Config, now: int64) returns (r: Result<TokenBucket>)
    ensures r.Ok? <==> 1 <= config.requestsPerSecond <= 1_000_000 && 1 <= config.burst <= 1_000_000
    ensures r.Ok? ==> fresh(r.value) && r.value.Valid() && r.value.State() == Fresh(config, now as int)
    // the bucket starts full, on its own clock
    ensures r.Ok? ==>
      r.value.State() == Bucket(config.requestsPerSecond as int, config.burst as int, config.burst as int * 1_000_000_000, now as int)
  {
    if config.requestsPerSecond == 0 || config.requestsPerSecond > MAX_SETTING ||
       config.burst == 0 || config.burst > MAX_SETTING
    {
      return Thrown("rate limit values must be integers from 1 to 1000000");
    }
    var bucket := new TokenBucket(config, now);
    return Ok(bucket);
  }

  // ----- properties of the specification

  lemma BurstHoldsAToken(b: Bucket)
    requires b.Valid()
    ensures b.Capacity() >= TOKEN
  {
  }

  /** Rounding up twice, to nanoseconds and then to seconds, still gives the earliest second. */
  lemma WaitIsEarliest(b: Bucket, nanoseconds: nat, seconds: nat)
    requires b.Valid() && b.units < TOKEN
    requires IsCeiling(nanoseconds, TOKEN - b.units, b.rate) && IsCeiling(seconds, nanoseconds, TOKEN)
    ensures b.EarliestWait(seconds)
  {
    forall n: nat
      ensures b.Admits(b.last + n * TOKEN) <==> n >= seconds
    {
      var elapsed: nat := n * TOKEN;
      CeilingDecides(n, seconds, nanoseconds, TOKEN);
      CeilingDecides(elapsed, nanoseconds, TOKEN - b.units, b.rate);
      assert b.Refilled(b.last + elapsed).last == b.last + elapsed;
      assert b.rate * elapsed == elapsed * b.rate;
      BurstHoldsAToken(b);
      assert b.Admits(b.last + elapsed) <==> elapsed * b.rate >= TOKEN - b.units;
    }
  }

  /** At one token a second or faster the earliest wait is one second: Retry-After is never anything else. */
  lemma RetryAfterIsAlwaysOne(b: Bucket, seconds: nat)
    requires b.Valid() && b.units < TOKEN && b.EarliestWait(seconds)
    ensures seconds == 1
  {
    BurstHoldsAToken(b);
    assert !b.Admits(b.last + 0 * TOKEN) by {
      assert b.rate * 0 == 0;
    }
    assert b.Admits(b.last + 1 * TOKEN) by {
      assert b.rate * TOKEN >= TOKEN;
    }
  }

  /** Refilling twice is refilling once, at the later of the two times, in either order. */
  lemma RefillIsSplitIndependent(b: Bucket, t1: int, t2: int)
    requires b.Valid()
    ensures b.Refilled(t1).Refilled(t2) == b.Refilled(Max(t1, t2))
  {
    var first := Max(b.last, t1);
    var second := Max(first, t2);
    AmountsAdd(b.rate, first - b.last, second - first);
  }

  lemma AmountsAdd(rate: nat, x: nat, y: nat)
    ensures rate * x + rate * y == rate * (x + y) && rate * x >= 0 && rate * y >= 0
  {
  }
}
