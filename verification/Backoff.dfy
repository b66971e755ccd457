/** The reconnect delay of the gateway's client: exponential backoff with a cap, then jitter. */
module Backoff {
  import opened Domain

  /** Milliseconds are signed 64-bit counts; the factor and the percentage are 32 bits. */
  datatype Options = Options(delay: i64, maxDelay: i64, factor: u32, jitterPercent: u32)

  /** What the constructor makes of the options it is given. */
  function Normalized(o: Options): (r: Options)
    ensures 1 <= r.delay <= r.maxDelay && 1 <= r.factor && r.jitterPercent <= 100
  {
    var delay := if o.delay <= 0 then 250 else o.delay;
    Options(
      delay,
      if o.maxDelay < delay then delay else o.maxDelay,
      if o.factor < 1 then 1 else o.factor,
      if o.jitterPercent > 100 then 100 else o.jitterPercent)
  }

  /** Options in range stay; the others get the nearest value in range, and no delay gets 250 ms. */
  lemma NormalizedIs(o: Options)
    ensures o.delay >= 1 ==> Normalized(o).delay == o.delay
    ensures o.delay <= 0 ==> Normalized(o).delay == 250
    ensures o.maxDelay >= Normalized(o).delay ==> Normalized(o).maxDelay == o.maxDelay
    ensures o.maxDelay < Normalized(o).delay ==> Normalized(o).maxDelay == Normalized(o).delay
    ensures o.factor >= 1 ==> Normalized(o).factor == o.factor
    ensures o.factor == 0 ==> Normalized(o).factor == 1
    ensures o.jitterPercent <= 100 ==> Normalized(o).jitterPercent == o.jitterPercent
    ensures o.jitterPercent > 100 ==> Normalized(o).jitterPercent == 100
  {}

  function Power(base: nat, n: nat): nat {
    if n == 0 then 1 else base * Power(base, n - 1)
  }

  function Min(a: nat, b: nat): (r: nat)
    ensures r <= a && r <= b
  {
    if a < b then a else b
  }

  /** The uncapped delay of an attempt, in unbounded arithmetic. */
  function Ideal(o: Options, attempt: nat): nat
    requires o.delay >= 0
  {
    o.delay * Power(o.factor, if attempt == 0 then 0 else attempt - 1)
  }

  lemma IdealStep(o: Options, n: nat)
    requires o.delay >= 0
    ensures Ideal(o, n + 2) == Ideal(o, n + 1) * o.factor
  {
    var d, f, p := o.delay, o.factor, Power(o.factor, n);
    assert Power(o.factor, n + 1) == f * p;
    assert d * (f * p) == d * p * f;
  }

  lemma IdealGrows(o: Options, n: nat)
    requires o.delay >= 0 && o.factor >= 1
    ensures Ideal(o, n + 1) <= Ideal(o, n + 2)
  {
    IdealStep(o, n);
    Scaled(Ideal(o, n + 1), o.factor);
  }

  lemma Scaled(x: nat, f: nat)
    requires f >= 1
    ensures x <= x * f
  {}

  lemma {:induction false} IdealMonotone(o: Options, a: nat, b: nat)
    requires o.delay >= 0 && o.factor >= 1 && a <= b
    ensures Ideal(o, a) <= Ideal(o, b)
    decreases b - a
  {
    hide Ideal;
    if a == 0 && 0 < b {
      FirstTwo(o);
      IdealMonotone(o, 1, b);
    } else if a < b {
      IdealGrows(o, a - 1);
      IdealMonotone(o, a + 1, b);
    }
  }

  lemma FirstTwo(o: Options)
    requires o.delay >= 0
    ensures Ideal(o, 0) == Ideal(o, 1)
  {}

  /** The loop of the delay computation, with its two guards against wrapping. */
  method BackoffDelay(given: Options, attempt: u32) returns (delay: u64)
    ensures var o := Normalized(given); delay == Min(o.maxDelay, Ideal(o, attempt))
    ensures Normalized(given).delay <= delay <= Normalized(given).maxDelay
  {
    var o := Normalized(given);
    hide Ideal, Normalized;
    Starts(o);
    FirstTwo(o);
    delay := o.delay;
    var maxDelay: u64 := o.maxDelay;
    var i: nat := 1;
    while i < attempt
      invariant 1 <= i && (i <= attempt || i == 1)
      invariant delay == Ideal(o, i) && o.delay <= delay <= maxDelay
      decreases attempt - i
    {
      if o.factor <= 1 {
        OneStays(o, i, attempt);
        return;
      }
      Climbs(o, i, attempt);
      if delay >= maxDelay {
        delay := maxDelay;
        return;
      }
      if delay > U64_MAX / o.factor {
        WouldWrap(delay, o.factor);
        delay := maxDelay;
        return;
      }
      WouldFit(delay, o.factor);
      delay := delay * o.factor;
      if delay > maxDelay {
        delay := maxDelay;
        return;
      }
      i := i + 1;
    }
  }

  /** One more attempt multiplies, and later attempts are not below. */
  lemma Climbs(o: Options, i: nat, attempt: nat)
    requires o.delay >= 0 && o.factor >= 1 && 1 <= i < attempt
    ensures Ideal(o, i + 1) == Ideal(o, i) * o.factor
    ensures Ideal(o, i) <= Ideal(o, i + 1) <= Ideal(o, attempt)
  {
    IdealStep(o, i - 1);
    IdealGrows(o, i - 1);
    IdealMonotone(o, i + 1, attempt);
  }

  lemma Starts(o: Options)
    requires o.delay >= 0
    ensures Ideal(o, 1) == o.delay
  {}

  lemma {:induction false} OneStays(o: Options, a: nat, b: nat)
    requires o.delay >= 0 && o.factor == 1 && 1 <= a <= b
    ensures Ideal(o, a) == Ideal(o, b)
    decreases b - a
  {
    if a < b {
      IdealStep(o, a - 1);
      OneStays(o, a + 1, b);
    }
  }

  lemma WouldWrap(x: u64, f: u32)
    requires f >= 1 && x > U64_MAX / f
    ensures x as nat * f > U64_MAX
  {
    assert U64_MAX < (U64_MAX as nat / f + 1) * f;
    Larger(x, U64_MAX as nat / f + 1, f);
  }

  lemma Larger(a: nat, b: nat, f: nat)
    requires a >= b
    ensures a * f >= b * f
  {}

  lemma WouldFit(x: u64, f: u32)
    requires f >= 1 && x <= U64_MAX / f
    ensures x as nat * f <= U64_MAX
  {
    Larger(U64_MAX as nat / f, x, f);
    assert U64_MAX as nat / f * f <= U64_MAX;
  }

  /** Main result: the capped delay never shrinks from one attempt to a later one. */
  lemma DelayMonotone(given: Options, a: u32, b: u32)
    requires a <= b
    ensures var o := Normalized(given); Min(o.maxDelay, Ideal(o, a)) <= Min(o.maxDelay, Ideal(o, b))
  {
    IdealMonotone(Normalized(given), a, b);
  }

  // ---- Jitter ----

  /** The product is taken in 64 bits. */
  function JitterSpan(delay: u64, percent: u32): u64 {
    delay as nat * percent as nat % 0x1_0000_0000_0000_0000 / 100
  }

  const I64_MAX := 0x7FFF_FFFF_FFFF_FFFF

  /** Signed 64-bit arithmetic, taken as wrapping where the language leaves overflow open. */
  function ToSigned(x: int): i64 {
    (x + 0x8000_0000_0000_0000) % 0x1_0000_0000_0000_0000 - 0x8000_0000_0000_0000
  }

  /** A delay is at least one millisecond. */
  function Jittered(delay: u64, jitter: int): i64 {
    var sum := ToSigned(ToSigned(delay) + jitter);
    if sum <= 0 then 1 else sum
  }

  /** `draw` is what the random distribution returns. */
  method ComputeReconnectDelay(given: Options, attempt: u32, draw: int) returns (result: int)
    requires var o := Normalized(given);
      var span := JitterSpan(Min(o.maxDelay, Ideal(o, attempt)), o.jitterPercent); -(span as int) <= draw <= span
    ensures var o := Normalized(given);
      var delay := Min(o.maxDelay, Ideal(o, attempt));
      result == if JitterSpan(delay, o.jitterPercent) == 0 then delay else Jittered(delay, draw)
  {
    hide Ideal;
    var o := Normalized(given);
    var delay := BackoffDelay(given, attempt);
    if o.jitterPercent == 0 || delay == 0 {
      return delay;
    }
    var span := delay as nat * o.jitterPercent as nat % 0x1_0000_0000_0000_0000 / 100;
    if span == 0 {
      return delay;
    }
    var jittered := ToSigned(ToSigned(delay) + draw);
    if jittered <= 0 {
      return 1;
    }
    result := jittered;
  }

  lemma SpanBounded(product: nat)
    ensures 100 * (product % 0x1_0000_0000_0000_0000 / 100) <= product
  {
    assert product % 0x1_0000_0000_0000_0000 <= product;
  }

  lemma SignedFits(x: int)
    ensures ToSigned(x) == x <==> -I64_MAX - 1 <= x <= I64_MAX
  {}

  /** Main result: the jittered delay is at least 1; it lies within the percentage of the delay when
      the greatest draw does not overflow, as for every delay up to 2^64 / 100. */
  lemma JitterWithinPercent(delay: u64, percent: u32, draw: int)
    requires 1 <= delay <= I64_MAX && percent <= 100
    requires -(JitterSpan(delay, percent) as int) <= draw <= JitterSpan(delay, percent)
    ensures var r, share := Jittered(delay, draw), delay as nat * percent as nat;
      && 1 <= r
      && (delay + JitterSpan(delay, percent) <= I64_MAX ==> 100 * (delay - r) <= share && 100 * (r - delay) <= share)
      && (delay as nat * 100 <= U64_MAX ==> delay + JitterSpan(delay, percent) <= I64_MAX)
  {
    var product := delay as nat * percent as nat;
    SpanBounded(product);
    assert product <= 100 * delay by { Larger(100, percent, delay); }
    SignedFits(delay);
    SignedFits(delay + draw);
  }

  /** Without overflow the jitter is added, and what falls below 1 becomes 1. */
  lemma JitteredIs(delay: u64, draw: int)
    requires delay <= I64_MAX && -I64_MAX - 1 <= delay + draw <= I64_MAX
    ensures delay + draw >= 1 ==> Jittered(delay, draw) == delay + draw
    ensures delay + draw <= 1 ==> Jittered(delay, draw) == 1
  {
    SignedFits(delay);
    SignedFits(delay + draw);
  }

  predicate NoOverflow(delay: u64, draw: int) {
    ToSigned(delay + draw) == delay + draw
  }

  /** No draw overflows exactly when the greatest one does not. */
  lemma NoDrawOverflowsIff(delay: u64, percent: u32)
    requires 1 <= delay <= I64_MAX && percent <= 100
    ensures (forall draw: int :: -(JitterSpan(delay, percent) as int) <= draw <= JitterSpan(delay, percent) ==> NoOverflow(delay, draw))
      <==> delay + JitterSpan(delay, percent) <= I64_MAX
  {
    var span := JitterSpan(delay, percent);
    SpanBounded(delay as nat * percent as nat);
    assert delay as nat * percent as nat <= 100 * delay by { Larger(100, percent, delay); }
    forall draw: int | -(span as int) <= draw <= span
      ensures NoOverflow(delay, draw) <==> delay + draw <= I64_MAX
    {
      SignedFits(delay + draw);
    }
    if delay + span > I64_MAX {
      SignedFits(delay + span);
      assert !NoOverflow(delay, span);
    }
  }

  /** The span is the percentage, rounded down, exactly when the product fits in 64 bits. */
  lemma SpanExactIff(delay: u64, percent: u32)
    ensures JitterSpan(delay, percent) == delay as nat * percent as nat / 100 <==> delay as nat * percent as nat <= U64_MAX
  {
    var product := delay as nat * percent as nat;
    if product > U64_MAX {
      assert product % 0x1_0000_0000_0000_0000 <= product - 0x1_0000_0000_0000_0000;
      assert product % 0x1_0000_0000_0000_0000 / 100 < product / 100;
    }
  }
}
