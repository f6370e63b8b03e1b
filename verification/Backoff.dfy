/** Retry backoff over exact reals, with f64 overflow kept as its own case. */
module Backoff {
  import opened Jobs
  import opened Protocol

  /** A `Duration` in seconds. */
  type Seconds = s: real | s >= 0.0 witness 0.0

  /** An f64: a number, or one of NaN and the infinities. */
  datatype Float = Finite(value: real) | NonFinite

  datatype Policy =
    | Linear(base: Seconds, increment: Seconds, cap: Seconds)
    | Exponential(base: Seconds, factor: Float, cap: Seconds, jitter: Float)

  datatype BackoffError = FactorInvalid | JitterInvalid | CapZero | CapTooLarge | BaseTooSmall

  const MIN_BACKOFF_BASE: real := 0.1
  const MAX_BACKOFF_CAP: real := 86_400.0

  function MinR(a: real, b: real): real { if a <= b then a else b }

  function MaxR(a: real, b: real): real { if a <= b then b else a }

  function Pow(x: real, n: nat): real { if n == 0 then 1.0 else x * Pow(x, n - 1) }

  /** Beyond 2^1024 an f64 result is infinite. */
  function ToFloat(x: real): Float {
    if -Pow(2.0, 1024) < x < Pow(2.0, 1024) then Finite(x) else NonFinite
  }

  /** `BackoffPolicy::validate`, checks in source order. */
  function Validate(p: Policy): Option<BackoffError> {
    if p.Exponential? && (p.factor.NonFinite? || p.factor.value <= 1.0) then Some(FactorInvalid)
    else if p.Exponential? && (p.jitter.NonFinite? || !(0.0 <= p.jitter.value <= 1.0)) then Some(JitterInvalid)
    else if p.cap == 0.0 then Some(CapZero)
    else if p.cap > MAX_BACKOFF_CAP then Some(CapTooLarge)
    else if p.base < MIN_BACKOFF_BASE then Some(BaseTooSmall)
    else None
  }

  /** `i32::try_from(attempt).unwrap_or(i32::MAX)`. */
  function Exponent(attempt: nat): nat { Min(attempt, I32_MAX) }

  /** The mathematical delay before any clamp. */
  function Raw(p: Policy, attempt: nat): real
    requires Validate(p).None?
  {
    if p.Linear? then p.base + (attempt as real) * p.increment
    else Pow(p.factor.value, Exponent(attempt)) * p.base
  }

  /** The clamp before jitter: a non-finite product falls back to `cap`. */
  function ClampedDelay(p: Policy, attempt: nat): real
    requires Validate(p).None?
  {
    match ToFloat(Raw(p, attempt))
    case Finite(x) => MaxR(MinR(x, p.cap), 0.0)
    case NonFinite => p.cap
  }

  /** `apply_jitter`; `delta` is the random draw. */
  function Jittered(p: Policy, secs: real, delta: real): real
    requires Validate(p).None?
  {
    if p.Linear? || p.jitter.value <= 0.0 then secs else (1.0 + delta) * secs
  }

  /** `rng.random_range(-j..=j)`. */
  predicate Drawn(p: Policy, delta: real)
    requires Validate(p).None?
  {
    p.Exponential? ==> -p.jitter.value <= delta <= p.jitter.value
  }

  /** Jitter on a clamped delay, then the second clamp. */
  function Final(p: Policy, v: real, delta: real): real
    requires Validate(p).None?
  {
    MaxR(MinR(Jittered(p, v, delta), p.cap), 0.0)
  }

  function JitterOf(p: Policy): real
    requires Validate(p).None?
  {
    if p.Exponential? then p.jitter.value else 0.0
  }

  /** `x` is within the jitter band around `v`, and within `[0, cap]`. */
  predicate InBand(p: Policy, v: real, x: real)
    requires Validate(p).None?
  {
    && 0.0 < v <= p.cap && 0.0 <= x <= p.cap
    && (1.0 - JitterOf(p)) * v <= x <= (1.0 + JitterOf(p)) * v
  }

  /** `BackoffPolicy::next`. */
  function Next(p: Policy, attempt: nat, delta: real): real
    requires Validate(p).None? && attempt <= U32_MAX && Drawn(p, delta)
  {
    Final(p, ClampedDelay(p, attempt), delta)
  }

  // ----------------------------------------------------------------- powers

  lemma {:induction false} PowAtLeastOne(x: real, n: nat)
    requires x >= 1.0
    ensures Pow(x, n) >= 1.0
  {
    if n > 0 {
      PowAtLeastOne(x, n - 1);
      MulMono(1.0, x, Pow(x, n - 1));
    }
  }

  lemma MulMono(a: real, b: real, c: real)
    requires a <= b && c >= 0.0
    ensures a * c <= b * c
  {
  }

  lemma {:induction false} PowMono(x: real, m: nat, n: nat)
    requires x >= 1.0 && m <= n
    ensures Pow(x, m) <= Pow(x, n)
    decreases n
  {
    if m < n {
      PowMono(x, m, n - 1);
      PowAtLeastOne(x, n - 1);
      MulMono(1.0, x, Pow(x, n - 1));
    }
  }

  /** Bernoulli's inequality. */
  lemma {:induction false} Bernoulli(x: real, n: nat)
    requires x >= 1.0
    ensures Pow(x, n) >= 1.0 + (n as real) * (x - 1.0)
  {
    if n > 0 {
      var d, k := x - 1.0, (n - 1) as real;
      Bernoulli(x, n - 1);
      MulMono(1.0 + k * d, Pow(x, n - 1), x);
      assert (1.0 + k * d) * x == 1.0 + (k + 1.0) * d + k * (d * d);
      assert d * d >= 0.0;
      MulMono(0.0, d * d, k);
    }
  }

  lemma CapIsRepresentable()
    ensures Pow(2.0, 1024) > MAX_BACKOFF_CAP
  {
    assert Pow(2.0, 2) == 4.0;
    assert Pow(2.0, 4) == 16.0;
    assert Pow(2.0, 6) == 64.0;
    assert Pow(2.0, 8) == 256.0;
    assert Pow(2.0, 10) == 1024.0;
    assert Pow(2.0, 12) == 4096.0;
    assert Pow(2.0, 14) == 16384.0;
    assert Pow(2.0, 16) == 65536.0;
    assert Pow(2.0, 17) == 131072.0;
    PowMono(2.0, 17, 1024);
  }

  // ---------------------------------------------------------------- results

  /** Overflow is invisible: the clamp gives `min(raw, cap)` whether or not the product was finite. */
  lemma ClampIsExact(p: Policy, attempt: nat)
    requires Validate(p).None?
    ensures Raw(p, attempt) > 0.0
    ensures ClampedDelay(p, attempt) == MinR(Raw(p, attempt), p.cap)
  {
    CapIsRepresentable();
    if p.Linear? {
      MulMono(0.0, attempt as real, p.increment);
    } else {
      PowAtLeastOne(p.factor.value, Exponent(attempt));
      MulMono(1.0, Pow(p.factor.value, Exponent(attempt)), p.base);
    }
  }

  /** The jitter and the second clamp, on any value the first clamp can give. */
  lemma FinalInBand(p: Policy, v: real, delta: real)
    requires Validate(p).None? && Drawn(p, delta) && 0.0 < v <= p.cap
    ensures InBand(p, v, Final(p, v, delta))
  {
    var j := JitterOf(p);
    JitterBand(p, v, delta);
    ClampKeepsBand((1.0 - j) * v, Jittered(p, v, delta), (1.0 + j) * v, p.cap);
  }

  /** For every validated policy, attempt and draw the delay lies in `[0, cap]`, and within the jitter
      band of the clamped value. */
  lemma NextInBand(p: Policy, attempt: nat, delta: real)
    requires Validate(p).None? && attempt <= U32_MAX && Drawn(p, delta)
    ensures InBand(p, ClampedDelay(p, attempt), Next(p, attempt, delta))
  {
    var v := ClampedDelay(p, attempt);
    assert 0.0 < v <= p.cap by { ClampIsExact(p, attempt); }
    FinalInBand(p, v, delta);
  }

  lemma ClampKeepsBand(lo: real, w: real, hi: real, cap: real)
    requires 0.0 <= lo <= w <= hi && lo <= cap
    ensures lo <= MaxR(MinR(w, cap), 0.0) <= MinR(cap, hi)
  {
  }

  lemma JitterBand(p: Policy, v: real, delta: real)
    requires Validate(p).None? && Drawn(p, delta) && v >= 0.0
    ensures var j := JitterOf(p);
            && (1.0 - j) * v <= Jittered(p, v, delta) <= (1.0 + j) * v
            && 0.0 <= (1.0 - j) * v <= v
  {
  }

  lemma RawMono(p: Policy, a: nat, b: nat)
    requires Validate(p).None? && a <= b
    ensures Raw(p, a) <= Raw(p, b)
  {
    if p.Linear? {
      MulMono(a as real, b as real, p.increment);
    } else {
      PowMono(p.factor.value, Exponent(a), Exponent(b));
      MulMono(Pow(p.factor.value, Exponent(a)), Pow(p.factor.value, Exponent(b)), p.base);
    }
  }

  /** Without jitter the delay is exactly `min(raw, cap)`. */
  lemma NextUnjittered(p: Policy, attempt: nat)
    requires Validate(p).None? && attempt <= U32_MAX && (p.Exponential? ==> p.jitter.value == 0.0)
    ensures Next(p, attempt, 0.0) == MinR(Raw(p, attempt), p.cap)
  {
    ClampIsExact(p, attempt);
  }

  /** Without jitter the delay never shrinks from one attempt to a later one. */
  lemma NextMonotone(p: Policy, a: nat, b: nat)
    requires Validate(p).None? && a <= b <= U32_MAX && (p.Exponential? ==> p.jitter.value == 0.0)
    ensures Next(p, a, 0.0) <= Next(p, b, 0.0)
  {
    NextUnjittered(p, a);
    NextUnjittered(p, b);
    RawMono(p, a, b);
  }

  lemma RawReachesCap(p: Policy, n: nat)
    requires Validate(p).None? && p.Exponential? && n <= I32_MAX
    requires p.base * (1.0 + (n as real) * (p.factor.value - 1.0)) >= p.cap
    ensures Raw(p, n) >= p.cap
  {
    var bound, power := 1.0 + (n as real) * (p.factor.value - 1.0), Pow(p.factor.value, n);
    assert bound <= power by { Bernoulli(p.factor.value, n); }
    MulMono(bound, power, p.base);
    assert bound * p.base == p.base * bound;
    assert Exponent(n) == n;
  }

  /** Without jitter the delay is pinned at `cap` from any attempt where the linear bound reaches it. */
  lemma PinnedAtCap(p: Policy, n: nat, attempt: nat)
    requires Validate(p).None? && p.Exponential? && p.jitter.value == 0.0
    requires n <= I32_MAX && n <= attempt <= U32_MAX
    requires p.base * (1.0 + (n as real) * (p.factor.value - 1.0)) >= p.cap
    ensures Next(p, attempt, 0.0) == p.cap
  {
    RawReachesCap(p, n);
    NextUnjittered(p, attempt);
    RawMono(p, n, attempt);
  }

  // ------------------------------------------------- from one delay to the next

  lemma LinearRawSteps(p: Policy, n: nat)
    requires Validate(p).None? && p.Linear?
    ensures Raw(p, 0) == p.base && Raw(p, n + 1) == Raw(p, n) + p.increment
  {
    assert (n + 1) as real == n as real + 1.0;
    Distribute(n as real, p.increment);
  }

  lemma Distribute(x: real, y: real)
    ensures (x + 1.0) * y == x * y + y
  {
  }

  lemma SumThenClamp(raw: real, more: real, cap: real)
    requires more >= 0.0
    ensures MinR(raw + more, cap) == MinR(MinR(raw, cap) + more, cap)
  {
  }

  /** Linear backoff starts at `base` and adds `increment` per attempt until it meets `cap`. */
  lemma LinearSteps(p: Policy, n: nat)
    requires Validate(p).None? && p.Linear? && n < U32_MAX
    ensures Next(p, 0, 0.0) == MinR(p.base, p.cap)
    ensures Next(p, n + 1, 0.0) == MinR(Next(p, n, 0.0) + p.increment, p.cap)
  {
    var a, b := Raw(p, n), Raw(p, n + 1);
    assert Raw(p, 0) == p.base && b == a + p.increment by { LinearRawSteps(p, n); }
    assert Next(p, 0, 0.0) == MinR(p.base, p.cap) by { NextUnjittered(p, 0); }
    assert Next(p, n, 0.0) == MinR(a, p.cap) by { NextUnjittered(p, n); }
    assert Next(p, n + 1, 0.0) == MinR(b, p.cap) by { NextUnjittered(p, n + 1); }
    SumThenClamp(a, p.increment, p.cap);
  }

  /** `y` is `factor` times `x`, or `cap` if that is less. */
  predicate Multiplied(x: real, y: real, factor: real, cap: real) { y == MinR(factor * x, cap) }

  lemma ScaleThenClamp(raw: real, scaled: real, factor: real, cap: real)
    requires factor >= 1.0 && cap >= 0.0 && scaled == factor * raw
    ensures Multiplied(MinR(raw, cap), MinR(scaled, cap), factor, cap)
  {
    if raw > cap {
      MulMono(1.0, factor, cap);
      MulMono(cap, raw, factor);
    }
  }

  lemma Reassociate(x: real, y: real, z: real)
    ensures (x * y) * z == x * (y * z)
  {
  }

  lemma ExponentialRawSteps(p: Policy, n: nat)
    requires Validate(p).None? && p.Exponential?
    ensures Raw(p, 0) == p.base
    ensures Raw(p, n + 1) == if n < I32_MAX then p.factor.value * Raw(p, n) else Raw(p, n)
  {
    assert Pow(p.factor.value, 0) == 1.0;
    if n < I32_MAX { Reassociate(p.factor.value, Pow(p.factor.value, n), p.base); }
  }

  lemma ClampedStep(p: Policy, n: nat)
    requires Validate(p).None? && p.Exponential? && n < I32_MAX
    ensures Multiplied(MinR(Raw(p, n), p.cap), MinR(Raw(p, n + 1), p.cap), p.factor.value, p.cap)
  {
    ExponentialRawSteps(p, n);
    ScaleThenClamp(Raw(p, n), Raw(p, n + 1), p.factor.value, p.cap);
  }

  /** Unjittered exponential backoff starts at `base` and multiplies by `factor` per attempt until it meets `cap`;
      past `i32::MAX` attempts it stays. */
  lemma ExponentialSteps(p: Policy, n: nat)
    requires Validate(p).None? && p.Exponential? && p.jitter.value == 0.0 && n < U32_MAX
    ensures Next(p, 0, 0.0) == MinR(p.base, p.cap)
    ensures n < 0x7FFF_FFFF ==> Multiplied(Next(p, n, 0.0), Next(p, n + 1, 0.0), p.factor.value, p.cap)
    ensures n >= 0x7FFF_FFFF ==> Next(p, n + 1, 0.0) == Next(p, n, 0.0)
  {
    assert Next(p, 0, 0.0) == MinR(p.base, p.cap) by {
      NextUnjittered(p, 0);
      ExponentialRawSteps(p, 0);
    }
    NextUnjittered(p, n);
    NextUnjittered(p, n + 1);
    if n < I32_MAX { ClampedStep(p, n); } else { ExponentialRawSteps(p, n); }
  }

  lemma CalmDelay(p: Policy, attempt: nat)
    requires Validate(p).None? && p.Exponential? && attempt <= U32_MAX
    ensures var calm := p.(jitter := Finite(0.0));
            Validate(calm).None? && Next(calm, attempt, 0.0) == ClampedDelay(p, attempt)
    ensures 0.0 <= ClampedDelay(p, attempt)
  {
    var calm := p.(jitter := Finite(0.0));
    assert Raw(calm, attempt) == Raw(p, attempt);
    ClampIsExact(p, attempt);
    NextUnjittered(calm, attempt);
  }

  /** `x` is `v` scaled by the draw, or `cap` if that is less. */
  predicate Scaled(v: real, x: real, delta: real, cap: real) { x == MinR((1.0 + delta) * v, cap) }

  lemma FinalScales(p: Policy, v: real, delta: real)
    requires Validate(p).None? && p.Exponential? && Drawn(p, delta) && v >= 0.0
    ensures Scaled(v, Final(p, v, delta), delta, p.cap)
  {
    if delta == 0.0 {
      assert (1.0 + delta) * v == v;
    } else {
      MulMono(0.0, 1.0 + delta, v);
    }
  }

  /** The draw scales the unjittered delay, still within `cap`. */
  lemma JitterScales(p: Policy, attempt: nat, delta: real)
    requires Validate(p).None? && p.Exponential? && attempt <= U32_MAX && Drawn(p, delta)
    ensures var calm := p.(jitter := Finite(0.0));
            Validate(calm).None? && Scaled(Next(calm, attempt, 0.0), Next(p, attempt, delta), delta, p.cap)
  {
    CalmDelay(p, attempt);
    FinalScales(p, ClampedDelay(p, attempt), delta);
  }
}
