/** Exponential backoff with jitter. Durations are nanoseconds. */
module Backoff {
  import opened Wrappers

  const MAX_DOUBLINGS := 20
  const TWO_128: nat := TWO_64 * TWO_64
  /** `Duration::MAX`: `u64::MAX` seconds and 999_999_999 nanoseconds. */
  const MAX_DURATION: nat := TWO_64 * 1_000_000_000 - 1

  type random = r: int | 0 <= r < TWO_64

  datatype Backoff = Exponential(base: nat) | Custom(func: nat -> nat)

  function Pow2(n: nat): (p: nat)
    ensures p > 0
  {
    if n == 0 then 1 else 2 * Pow2(n - 1)
  }

  function SaturatingMul(d: nat, factor: nat): nat {
    Min(d * factor, MAX_DURATION)
  }

  /** The interval of an attempt before jitter. */
  function Interval(base: nat, attempt: nat): nat {
    SaturatingMul(base, Pow2(Min(attempt, MAX_DOUBLINGS)))
  }

  /** Half the delay plus a random part; the product is a wrapping `u128`, and the result of the
      shift is cast to `u64`. */
  function Jitter(delay: nat, rand: random): nat {
    var half := delay / 2;
    var extra := half * rand % TWO_128 / TWO_64;
    half + extra % TWO_64
  }

  function Delay(b: Backoff, attempt: nat, rand: random): nat {
    match b
    case Exponential(base) =>
      if base == 0 then 0 else Jitter(Interval(base, attempt), rand)
    case Custom(func) => func(attempt)
  }

  // ----- properties

  lemma MulMonotone(a: nat, b: nat, c: nat)
    requires a <= b
    ensures c * a <= c * b && a * c <= b * c
  {
  }

  /** The shifted product stays below the other factor. */
  lemma ScaledBelow(half: nat, rand: random)
    ensures half * rand / TWO_64 <= half
    ensures half > 0 ==> half * rand / TWO_64 < half
  {
    MulMonotone(rand, TWO_64 - 1, half);
    assert half * (TWO_64 - 1) == half * TWO_64 - half;
  }

  /** The product fits 128 bits for every random value exactly when half the delay is at most
      2^64 + 1 nanoseconds: 584 years. */
  lemma ProductFitsIff(half: nat)
    ensures (forall rand: random :: half * rand < TWO_128) <==> half <= TWO_64 + 1
  {
    if half <= TWO_64 + 1 {
      forall rand: random ensures half * rand < TWO_128 {
        MulMonotone(rand, TWO_64 - 1, half);
        MulMonotone(half, TWO_64 + 1, TWO_64 - 1);
      }
    } else {
      var rand: random := TWO_64 - 1;
      MulMonotone(TWO_64 + 2, half, rand);
      assert half * rand >= TWO_128;
    }
  }

  /** The same in terms of what a caller sets: no random value overflows the product exactly when the
      doubled base is at most 2^65 + 3 nanoseconds. */
  lemma AttemptFitsIff(base: nat, attempt: nat)
    ensures (forall rand: random :: Interval(base, attempt) / 2 * rand < TWO_128)
            <==> base * Pow2(Min(attempt, MAX_DOUBLINGS)) <= 2 * TWO_64 + 3
  {
    ProductFitsIff(Interval(base, attempt) / 2);
  }

  const SECOND := 1_000_000_000

  /** In whole seconds, a base of 35_185 is the least that overflows it at attempt 20. */
  lemma LongBaseOverflows(seconds: nat, attempt: nat)
    requires attempt >= MAX_DOUBLINGS
    ensures (exists rand: random :: Interval(seconds * SECOND, attempt) / 2 * rand >= TWO_128) <==> seconds >= 35_185
  {
    TwentyDoublings(MAX_DOUBLINGS);
    AttemptFitsIff(seconds * SECOND, attempt);
  }

  /** The longest base overflows it at the first retry. */
  lemma LongestBaseOverflows()
    ensures exists rand: random :: Interval(MAX_DURATION, 0) / 2 * rand >= TWO_128
  {
    AttemptFitsIff(MAX_DURATION, 0);
  }

  /** An overflow at a later attempt comes after a sleep of at least 2^63 nanoseconds, 292 years, before the
      attempt in front of it. */
  lemma OverflowComesLate(base: nat, attempt: nat, rand: random, earlier: random)
    requires attempt > 0
    ensures Interval(base, attempt) / 2 * rand >= TWO_128 ==> Delay(Exponential(base), attempt - 1, earlier) >= TWO_64 / 2
  {
    hide Interval, Delay, Pow2;
    AttemptFitsIff(base, attempt);
    LongIntervalBefore(base, attempt);
    DelayInInterval(base, attempt - 1, earlier);
  }

  lemma LongIntervalBefore(base: nat, attempt: nat)
    requires attempt > 0
    ensures base * Pow2(Min(attempt, MAX_DOUBLINGS)) > 2 * TWO_64 + 3 ==> Interval(base, attempt - 1) >= TWO_64
  {
    if attempt <= MAX_DOUBLINGS {
      Halves(base, Pow2(attempt - 1));
    }
  }

  lemma Halves(base: nat, factor: nat)
    ensures base * (2 * factor) == 2 * (base * factor)
  {
  }

  lemma TwentyDoublings(n: nat)
    requires n == 20
    ensures Pow2(n) == 1_048_576
  {
    assert Pow2(5) == 32;
    assert Pow2(10) == 32 * Pow2(5);
    assert Pow2(15) == 32 * Pow2(10);
    assert Pow2(20) == 32 * Pow2(15);
  }

  /** Where the product fits, nothing is lost: the jitter is the exact scaled value, in the half
      open interval from `half` to `2 * half`. */
  lemma JitterExact(delay: nat, rand: random)
    requires delay / 2 <= TWO_64 + 1
    ensures var half := delay / 2;
            && half * rand < TWO_128
            && half * rand / TWO_64 < TWO_64
            && Jitter(delay, rand) == half + half * rand / TWO_64
            && (half > 0 ==> Jitter(delay, rand) < 2 * half)
  {
    var half := delay / 2;
    var product := half * rand;
    ProductFitsIff(half);
    ScaledBelow(half, rand);
    assert product < TWO_128;
    QuotientBelow(product);
  }

  lemma QuotientBelow(n: nat)
    requires n < TWO_128
    ensures n / TWO_64 < TWO_64
    ensures n % TWO_128 / TWO_64 % TWO_64 == n / TWO_64
  {
  }

  /** The jittered delay is never under half the delay and never over it, even where the product
      wraps around. */
  lemma JitterBounds(delay: nat, rand: random)
    ensures delay / 2 <= Jitter(delay, rand) <= delay
  {
    if delay / 2 <= TWO_64 {
      JitterExact(delay, rand);
      ScaledBelow(delay / 2, rand);
    }
  }

  /** Attempt `k` waits between half of `base * 2^min(k, 20)` and all of it, up to the largest
      duration. */
  lemma DelayBounds(base: nat, attempt: nat, rand: random)
    ensures var full := Min(base * Pow2(Min(attempt, 20)), 0x1_0000_0000_0000_0000 * 1_000_000_000 - 1);
            full / 2 <= Delay(Exponential(base), attempt, rand) <= full
  {
    DelayInInterval(base, attempt, rand);
  }

  lemma DelayInInterval(base: nat, attempt: nat, rand: random)
    ensures Interval(base, attempt) / 2 <= Delay(Exponential(base), attempt, rand) <= Interval(base, attempt)
  {
    JitterBounds(Interval(base, attempt), rand);
  }

  /** And where nothing overflows, exactly how long: half the interval, and of the other half the part that the
      random value makes of its range. */
  lemma DelayExactly(base: nat, attempt: nat, rand: random)
    requires base * Pow2(Min(attempt, 20)) <= 0x2_0000_0000_0000_0003
    ensures var half := base * Pow2(Min(attempt, 20)) / 2;
            Delay(Exponential(base), attempt, rand) == half + half * rand / 0x1_0000_0000_0000_0000
  {
    hide Jitter, Pow2;
    JitterExact(Interval(base, attempt), rand);
    if base == 0 {
      NothingTimes(Pow2(Min(attempt, 20)), rand);
    }
  }

  lemma NothingTimes(factor: nat, rand: nat)
    ensures 0 * factor / 2 == 0 && 0 * rand == 0
  {
  }

  /** A custom backoff is asked for each attempt, and obeyed. */
  lemma CustomIsObeyed(func: nat -> nat, attempt: nat, rand: random)
    ensures Delay(Custom(func), attempt, rand) == func(attempt)
  {
  }

  /** All the time spent backing off, one random value per retry. */
  function TotalDelay(b: Backoff, rands: seq<random>): nat {
    if rands == [] then 0
    else TotalDelay(b, rands[..|rands| - 1]) + Delay(b, |rands| - 1, rands[|rands| - 1])
  }

  function TotalFactor(n: nat): nat {
    if n <= 21 then Pow2(n) - 1 else Pow2(21) - 1 + (n - 21) * Pow2(20)
  }

  lemma TotalFactorStep(n: nat)
    ensures TotalFactor(n + 1) == TotalFactor(n) + Pow2(Min(n, MAX_DOUBLINGS))
  {
    if n < 21 {
      assert Pow2(n + 1) == 2 * Pow2(n);
    } else {
      assert (n + 1 - 21) * Pow2(20) == (n - 21) * Pow2(20) + Pow2(20);
    }
  }

  /** The first `n` retries wait at most `base * (2^n - 1)` in total while the delay still doubles,
      and `base * 2^20` more for each one after that. */
  lemma {:induction false} TotalDelayBound(base: nat, rands: seq<random>)
    ensures TotalDelay(Exponential(base), rands) <= base * TotalFactor(|rands|)
  {
    hide Delay;
    if rands != [] {
      var n := |rands| - 1;
      TotalDelayBound(base, rands[..n]);
      DelayBounds(base, n, rands[n]);
      TotalFactorStep(n);
      Distribute(base, TotalFactor(n), Pow2(Min(n, MAX_DOUBLINGS)));
    }
  }

  lemma Distribute(base: nat, a: nat, b: nat)
    ensures base * (a + b) == base * a + base * b
  {
  }
}
