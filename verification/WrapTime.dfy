/**
 Time as src/common/pf_scheduler.c keeps it: 32-bit microseconds that wrap, compared by the sign of
 the 32-bit difference; and the rounding of a wanted delay to whole stack ticks.
 */
module WrapTime {
  const TWO32: int := 0x1_0000_0000
  const TWO31: int := 0x8000_0000

  /** a - b in uint32_t. */
  function Sub32(a: int, b: int): (r: nat)
    ensures r < TWO32
  {
    (a - b) % TWO32
  }

  /** a + b in uint32_t. */
  function Add32(a: int, b: int): (r: nat)
    ensures r < TWO32
  {
    (a + b) % TWO32
  }

  /** (int32_t)(a - b). */
  function SDiff(a: int, b: int): int {
    var d := Sub32(a, b);
    if d < TWO31 then d else d - TWO32
  }

  /** The deadline has been reached. */
  predicate Expired(now: int, when: int) { SDiff(now, when) >= 0 }

  /** Times less than 2^31 us after a base, where the signed difference behaves. */
  predicate InWindow(base: int, t: int) { Sub32(t, base) < TWO31 }

  /** Inside a window the signed difference is the difference of the distances from the base: a total preorder. */
  lemma SDiffInWindow(base: int, x: int, y: int)
    requires InWindow(base, x) && InWindow(base, y)
    ensures SDiff(x, y) == Sub32(x, base) - Sub32(y, base)
  {
    var q := (x - base) / TWO32 - (y - base) / TWO32;
    var d := Sub32(x, base) - Sub32(y, base);
    assert x - y == q * TWO32 + d;
    if d >= 0 {
      Remainder(x - y, q, d);
    } else {
      Remainder(x - y, q - 1, d + TWO32);
    }
  }

  lemma Remainder(a: int, q: int, r: int)
    requires a == q * TWO32 + r && 0 <= r < TWO32
    ensures a % TWO32 == r
  {
  }

  lemma SubMod(a: int, b: int)
    ensures Sub32(a, b % TWO32) == Sub32(a, b)
  {
    var q := b / TWO32;
    assert b == q * TWO32 + b % TWO32;
    assert a - b % TWO32 == a - b + q * TWO32;
  }

  /** Distances from a base add up as long as they do not wrap. */
  lemma DistanceAdds(base: int, t: int, d: nat)
    requires Sub32(t, base) + d < TWO32
    ensures Sub32(Add32(t, d), base) == Sub32(t, base) + d
  {
    var q := (t - base) / TWO32;
    assert t - base == q * TWO32 + Sub32(t, base);
    var r := (t + d) / TWO32;
    assert Add32(t, d) == t + d - r * TWO32;
    assert Add32(t, d) - base == (q - r) * TWO32 + (Sub32(t, base) + d);
  }

  /** A deadline `due` after `start`, looked at `at` after it: wrapping does not matter while they are less than 2^31 apart. */
  lemma ExpiredExact(start: int, due: int, at: int)
    requires -TWO31 <= at - due < TWO31
    ensures Expired(start + at, Add32(start, due)) <==> at >= due
  {
    SubMod(start + at, start + due);
    assert Sub32(start + at, start + due) == (at - due) % TWO32;
  }

  const MAX_DELAY_US: nat := 100_000_000

  /** pf_scheduler_sanitize_delay with half a tick in advance. Every operation wraps at 32 bits. */
  function SanitizeDelay(wanted: nat, cycle: nat): nat
    requires 0 < cycle < TWO32 && wanted < TWO32
  {
    Sub32(Ticks(wanted, cycle) * cycle, cycle / 2)
  }

  /** Division of unsigned integers. */
  function Quotient(a: nat, c: nat): (q: nat)
    requires c > 0
    ensures q * c <= a < (q + 1) * c
  {
    assert a == (a / c) * c + a % c;
    a / c
  }

  /** number_of_stack_ticks. */
  function Ticks(wanted: nat, cycle: nat): nat
    requires 0 < cycle < TWO32 && wanted < TWO32
  {
    var w := if wanted > MAX_DELAY_US then 0 else wanted;
    if w > Add32(cycle, cycle / 2) then Quotient(Add32(w, cycle / 2), cycle) else 1
  }

  lemma MulMonotone(a: nat, b: nat, c: nat)
    ensures a <= b ==> a * c <= b * c
  {
  }

  lemma TicksOfLong(wanted: nat, cycle: nat)
    requires 0 < cycle && cycle + cycle / 2 < wanted <= MAX_DELAY_US
    ensures Ticks(wanted, cycle) == Quotient(wanted + cycle / 2, cycle)
  {
  }

  lemma TicksOfShort(wanted: nat, cycle: nat)
    requires 0 < cycle && wanted <= cycle + cycle / 2 < TWO32 && wanted <= MAX_DELAY_US
    ensures Ticks(wanted, cycle) == 1
  {
    Remainder(cycle + cycle / 2, 0, cycle + cycle / 2);
  }

  lemma QuotientNearest(a: int, c: int, half: int)
    requires c > 0 && half == c / 2 && a > c + half
    ensures var n := Quotient(a + half, c); n >= 2 && -half <= n * c - a <= half
  {
    var n := Quotient(a + half, c);
    MulMonotone(n + 1, 2, c);
    assert (n + 1) * c == n * c + c;
  }

  lemma TicksNearest(wanted: nat, cycle: nat)
    requires 0 < cycle && cycle + cycle / 2 < TWO32 && wanted <= MAX_DELAY_US
    ensures wanted <= cycle + cycle / 2 ==> Ticks(wanted, cycle) == 1 && Ticks(wanted, cycle) * cycle == cycle
    ensures wanted > cycle + cycle / 2 ==>
              Ticks(wanted, cycle) >= 2 && -(cycle / 2) <= Ticks(wanted, cycle) * cycle - wanted <= cycle / 2
  {
    if wanted > cycle + cycle / 2 {
      TicksOfLong(wanted, cycle);
      QuotientNearest(wanted, cycle, cycle / 2);
    } else {
      TicksOfShort(wanted, cycle);
    }
  }

  /** Rounding to the nearest whole number of ticks, at least one; nothing wraps. */
  lemma DelayRounding(wanted: nat, cycle: nat)
    requires 0 < cycle && cycle + cycle / 2 < TWO32 && wanted <= MAX_DELAY_US
    ensures wanted <= cycle + cycle / 2 <==> Ticks(wanted, cycle) == 1
    ensures wanted > cycle + cycle / 2 ==>
              Ticks(wanted, cycle) >= 2 && -(cycle / 2) <= Ticks(wanted, cycle) * cycle - wanted <= cycle / 2
    ensures SanitizeDelay(wanted, cycle) == Ticks(wanted, cycle) * cycle - cycle / 2
    ensures SanitizeDelay(wanted, cycle) >= 1
  {
    TicksNearest(wanted, cycle);
    var p := Ticks(wanted, cycle) * cycle - cycle / 2;
    Remainder(p, 0, p);
  }

  lemma QuotientMonotone(a: nat, b: nat, c: nat)
    requires c > 0 && a <= b
    ensures Quotient(a, c) <= Quotient(b, c)
  {
    MulMonotone(Quotient(b, c) + 1, Quotient(a, c), c);
  }

  lemma AtLeastOneTick(wanted: nat, cycle: nat)
    requires 0 < cycle && cycle + cycle / 2 < TWO32 && wanted <= MAX_DELAY_US
    ensures Ticks(wanted, cycle) >= 1
  {
    TicksNearest(wanted, cycle);
  }

  lemma TicksMonotone(w1: nat, w2: nat, cycle: nat)
    requires 0 < cycle && cycle + cycle / 2 < TWO32 && w1 <= w2 <= MAX_DELAY_US
    ensures Ticks(w1, cycle) <= Ticks(w2, cycle)
  {
    if w1 > cycle + cycle / 2 {
      TicksOfLong(w1, cycle);
      TicksOfLong(w2, cycle);
      QuotientMonotone(w1 + cycle / 2, w2 + cycle / 2, cycle);
    } else {
      TicksOfShort(w1, cycle);
      AtLeastOneTick(w2, cycle);
    }
  }

  /**
   n ticks are what a delay asks for: the nearest number of ticks, of two equally near ones the larger, and one tick for up to
   a tick and a half and for an unreasonable delay.
   */
  predicate IsTicks(n: nat, delay: nat, cycle: nat) {
    if delay <= cycle + cycle / 2 || delay > 100_000_000 then n == 1
    else n * cycle - cycle / 2 <= delay < n * cycle + cycle - cycle / 2
  }

  /** Every delay is turned into the time of that many ticks, half a tick in advance. */
  lemma TicksExactly(delay: nat, cycle: nat, n: nat)
    requires 0 < cycle && cycle + cycle / 2 < TWO32 && delay < TWO32
    ensures IsTicks(n, delay, cycle) <==> n == Ticks(delay, cycle)
    ensures IsTicks(n, delay, cycle) ==> n >= 1 && SanitizeDelay(delay, cycle) == n * cycle - cycle / 2
  {
    if delay > MAX_DELAY_US {
      HugeDelayIsOneTick(delay, cycle);
    } else {
      DelayRounding(delay, cycle);
      if delay > cycle + cycle / 2 {
        TicksOfLong(delay, cycle);
        QuotientIs(delay + cycle / 2, cycle, n);
      }
    }
  }

  lemma QuotientIs(a: nat, c: nat, n: nat)
    requires c > 0
    ensures n * c <= a < n * c + c <==> n == Quotient(a, c)
  {
    var q := Quotient(a, c);
    assert (q + 1) * c == q * c + c && (n + 1) * c == n * c + c;
    if n < q {
      MulMonotone(n + 1, q, c);
    } else if n > q {
      MulMonotone(q + 1, n, c);
    }
  }

  lemma FewTicks(delay: nat, cycle: nat, n: nat)
    requires 0 < cycle < 0x4000_0000 && IsTicks(n, delay, cycle)
    ensures n * cycle <= 0x4000_0000 + 100_000_000
  {
  }

  /**
   Of ticks that come within half a cycle of the multiples of the cycle after the clock, the n-th is the first that finds the
   deadline reached.
   */
  lemma ReachedOnTick(now: int, clock: int, cycle: nat, m: nat, n: nat)
    requires 0 < cycle < 0x4000_0000 && m <= n && n * cycle <= 0x4000_0000 + 100_000_000
    requires Sub32(now, clock + m * cycle - cycle / 2) < cycle
    ensures Expired(now, Add32(clock, n * cycle - cycle / 2)) <==> m == n
  {
    var late, q := Sub32(now, clock + m * cycle - cycle / 2), (now - (clock + m * cycle - cycle / 2)) / TWO32;
    var start, at, due := clock + q * TWO32, m * cycle - cycle / 2 + late, n * cycle - cycle / 2;
    assert now == start + at;
    AddTurns(clock, q, due);
    MulMonotone(m + 1, n, cycle);
    MulMonotone(0, m, cycle);
    assert (m + 1) * cycle == m * cycle + cycle;
    ExpiredExact(start, due, at);
  }

  lemma AddTurns(clock: int, q: int, due: int)
    ensures Add32(clock + q * TWO32, due) == Add32(clock, due)
  {
    var k := (clock + due) / TWO32;
    Remainder(clock + q * TWO32 + due, q + k, Add32(clock, due));
  }

  /** A longer wanted delay never gives a shorter one. */
  lemma DelayMonotone(w1: nat, w2: nat, cycle: nat)
    requires 0 < cycle && cycle + cycle / 2 < TWO32 && w1 <= w2 <= MAX_DELAY_US
    ensures SanitizeDelay(w1, cycle) <= SanitizeDelay(w2, cycle)
  {
    DelayRounding(w1, cycle);
    DelayRounding(w2, cycle);
    TicksMonotone(w1, w2, cycle);
    MulMonotone(Ticks(w1, cycle), Ticks(w2, cycle), cycle);
  }

  /** An unreasonable delay counts as zero: one tick. */
  lemma HugeDelayIsOneTick(wanted: nat, cycle: nat)
    requires 0 < cycle < TWO32 && MAX_DELAY_US < wanted < TWO32
    ensures Ticks(wanted, cycle) == 1 && SanitizeDelay(wanted, cycle) == cycle - cycle / 2
  {
  }

  lemma DelayAtLeastOne(wanted: nat, cycle: nat)
    requires 0 < cycle && cycle + cycle / 2 < TWO32 && wanted < TWO32
    ensures SanitizeDelay(wanted, cycle) >= 1
  {
    if wanted <= MAX_DELAY_US {
      DelayRounding(wanted, cycle);
    } else {
      HugeDelayIsOneTick(wanted, cycle);
    }
  }

  /**
   A timer added on a tick at time `start` is due on exactly the n-th following tick, n = Ticks(wanted, cycle),
   if every tick's jitter lies in [-floor(cycle/2), ceil(cycle/2)). The bounds are tight: the n-th tick
   misses the timer if it is earlier than that, and the tick before it takes the timer if that one is later.
   The tick has to be less than 2^31 us from the deadline.
   */
  lemma FiresOnTick(start: int, wanted: nat, cycle: nat, m: nat, jitter: int)
    requires 0 < cycle && cycle + cycle / 2 < TWO32 && wanted <= MAX_DELAY_US
    requires m <= Ticks(wanted, cycle) && 0 <= jitter + cycle <= 2 * cycle
    requires -TWO31 <= m * cycle + jitter - (Ticks(wanted, cycle) * cycle - cycle / 2) < TWO31
    ensures var fires := Expired(start + m * cycle + jitter, Add32(start, SanitizeDelay(wanted, cycle)));
      && (m == Ticks(wanted, cycle) ==> (fires <==> jitter >= -(cycle / 2)))
      && (m == Ticks(wanted, cycle) - 1 ==> (fires <==> jitter >= cycle - cycle / 2))
      && (m < Ticks(wanted, cycle) && jitter < cycle - cycle / 2 ==> !fires)
  {
    DelayRounding(wanted, cycle);
    ReachedAt(start, cycle, m, Ticks(wanted, cycle), jitter);
  }

  lemma ReachedAt(start: int, cycle: nat, m: nat, n: nat, jitter: int)
    requires 0 < cycle < TWO32 && m <= n && -TWO31 <= m * cycle + jitter - (n * cycle - cycle / 2) < TWO31
    ensures var fires := Expired(start + m * cycle + jitter, Add32(start, n * cycle - cycle / 2));
      && (m == n ==> (fires <==> jitter >= -(cycle / 2)))
      && (m == n - 1 ==> (fires <==> jitter >= cycle - cycle / 2))
      && (m < n && jitter < cycle - cycle / 2 ==> !fires)
  {
    ExpiredExact(start, n * cycle - cycle / 2, m * cycle + jitter);
    BeforeDeadline(m, n, cycle, jitter);
  }

  lemma BeforeDeadline(m: nat, n: nat, cycle: nat, jitter: int)
    requires m <= n
    ensures m == n - 1 ==> m * cycle == n * cycle - cycle
    ensures m < n && jitter < cycle - cycle / 2 ==> m * cycle + jitter < n * cycle - cycle / 2
  {
    if n > 0 {
      MulMonotone(m, n - 1, cycle);
      assert (n - 1) * cycle == n * cycle - cycle;
    }
  }

  /** It is, on every tick up to the n-th, if the cycle is below 2^30 us. */
  lemma TickIsNear(wanted: nat, cycle: nat, m: nat, jitter: int)
    requires 0 < cycle < 0x4000_0000 && wanted <= MAX_DELAY_US
    requires m <= Ticks(wanted, cycle) && 0 <= jitter + cycle <= 2 * cycle
    ensures -TWO31 <= m * cycle + jitter - (Ticks(wanted, cycle) * cycle - cycle / 2) < TWO31
  {
    TicksNearest(wanted, cycle);
    MulMonotone(m, Ticks(wanted, cycle), cycle);
    MulMonotone(0, m, cycle);
  }
}
