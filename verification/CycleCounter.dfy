/**
 The cycle counter of cyclic frames: how the provider steps it (src/common/pf_ppm.c) and which values
 the consumer takes as newer (src/common/pf_cpm.c). Both are 16 bits wide; the rule is section
 4.7.2.1.2 of the Profinet 2.4 protocol.
 */
module CycleCounter {
  const WORD: int := 0x1_0000

  /** pf_ppm_calculate_next_cyclecounter; interval is send_clock_factor * reduction_ratio. */
  function Next(prev: nat, interval: nat): nat
    requires prev < WORD && interval > 0
  {
    ((prev / interval + 1) * interval) % WORD
  }

  /** pf_cpm_check_cycle; prev is the value of the last accepted frame, or -1 for "never". */
  predicate Newer(prev: int, now: nat)
    requires -1 <= prev < WORD && now < WORD
  {
    var diff := (now - prev) % WORD;
    1 <= diff <= 61440
  }

  /** By how much the counter advances. */
  function Advance(prev: nat, interval: nat): (step: nat)
    requires prev < WORD && interval > 0
    ensures 1 <= step <= interval && Next(prev, interval) == (prev + step) % WORD
  {
    var q := prev / interval;
    assert q * interval <= prev < q * interval + interval;
    assert (q + 1) * interval == q * interval + interval;
    (q + 1) * interval - prev
  }

  lemma AheadIsNewer(prev: nat, step: nat)
    requires prev < WORD && 1 <= step <= WORD
    ensures Newer(prev, (prev + step) % WORD) <==> step <= 61440
  {
  }

  lemma NextFromZero(interval: nat)
    requires interval > 0
    ensures Next(0, interval) == interval % WORD
  {
  }

  /** The consumer follows the provider, from any counter value, exactly for intervals up to 61440. */
  lemma ProviderStaysNewer(interval: nat)
    requires 1 <= interval <= WORD
    ensures (forall prev: nat :: prev < WORD ==> Newer(prev, Next(prev, interval))) <==> interval <= 61440
  {
    if interval <= 61440 {
      forall prev: nat | prev < WORD
        ensures Newer(prev, Next(prev, interval))
      {
        AheadIsNewer(prev, Advance(prev, interval));
      }
    } else {
      NextFromZero(interval);
      AheadIsNewer(0, interval);
    }
  }

  /** The largest configuration, 128 * 512, leaves the counter at 0 for ever: every frame after the first accepted one is stale. */
  lemma LargestIntervalStalls()
    ensures Next(0, 128 * 512) == 0 && !Newer(0, 0)
  {
  }

  /** After accepting c, exactly c and the 4095 values before it are rejected. */
  lemma RejectedWindow(c: nat, now: nat)
    requires c < WORD && now < WORD
    ensures !Newer(c, now) <==> (c - now) % WORD <= 4095
  {
  }

  /** The marker for "never" is treated like 0xffff: a first frame is taken only with a counter below 61440. */
  lemma FirstFrame(now: nat)
    requires now < WORD
    ensures Newer(-1, now) <==> now < 61440
  {
  }

  /** The n-th counter value that the provider sends; it starts from 0. */
  function Sent(n: nat, interval: nat): (c: nat)
    requires interval > 0
    ensures c < WORD
  {
    if n == 0 then 0 else Next(Sent(n - 1, interval), interval)
  }

  lemma MulMonotone(a: nat, b: nat, c: nat)
    ensures a <= b ==> a * c <= b * c
  {
  }

  lemma QuotientOfMultiple(k: nat, d: nat)
    requires d > 0
    ensures (k * d) / d == k
  {
    var a := k * d;
    var q := a / d;
    assert q * d <= a < q * d + d;
    assert (q + 1) * d == q * d + d;
    MulMonotone(q + 1, k, d);
    MulMonotone(k + 1, q, d);
    assert (k + 1) * d == a + d;
  }

  lemma NextOfMultiple(k: nat, interval: nat)
    requires interval > 0 && k * interval < WORD
    ensures Next(k * interval, interval) == ((k + 1) * interval) % WORD
  {
    QuotientOfMultiple(k, interval);
  }

  lemma Distribute(q: int, c: int, r: int, i: int)
    ensures (q * c + r) * i == q * (c * i) + r * i
  {
  }

  lemma ReduceMultiple(n: nat, interval: nat, cycles: nat)
    requires interval > 0 && cycles > 0 && cycles * interval == WORD
    ensures (n * interval) % WORD == (n % cycles) * interval < WORD
  {
    var q, r := n / cycles, n % cycles;
    assert n == q * cycles + r;
    Distribute(q, cycles, r, interval);
    MulMonotone(r + 1, cycles, interval);
    assert (r + 1) * interval == r * interval + interval;
    QuotientUnique(n * interval, WORD, q, r * interval);
  }

  /** The remainder after one more is one more, or zero. */
  lemma ModNext(n: nat, m: nat)
    requires m > 0
    ensures (n + 1) % m == if n % m + 1 == m then 0 else n % m + 1
  {
    var q, r := n / m, n % m;
    assert n == q * m + r;
    if r + 1 == m {
      assert (q + 1) * m == q * m + m;
      QuotientUnique(n + 1, m, q + 1, 0);
    } else {
      QuotientUnique(n + 1, m, q, r + 1);
    }
  }

  lemma QuotientUnique(a: nat, m: nat, q: nat, r: nat)
    requires m > 0 && a == q * m + r && r < m
    ensures a / m == q && a % m == r
  {
    var q' := a / m;
    assert q' * m <= a < q' * m + m;
    MulMonotone(q + 1, q', m);
    MulMonotone(q' + 1, q, m);
    assert (q + 1) * m == q * m + m && (q' + 1) * m == q' * m + m;
  }

  /** When the interval divides the range, the counter is the number of transmissions in units of the interval. */
  lemma {:induction false} SentIsMultiple(n: nat, interval: nat, cycles: nat)
    requires interval > 0 && cycles > 0 && cycles * interval == WORD
    ensures Sent(n, interval) == (n % cycles) * interval == (n * interval) % WORD
  {
    ReduceMultiple(n, interval, cycles);
    if n > 0 {
      SentIsMultiple(n - 1, interval, cycles);
      ReduceMultiple(n - 1, interval, cycles);
      var k := (n - 1) % cycles;
      NextOfMultiple(k, interval);
      ModNext(n - 1, cycles);
      if k + 1 == cycles {
        assert (k + 1) * interval == WORD;
      } else {
        ReduceMultiple(k + 1, interval, cycles);
        QuotientUnique(k + 1, cycles, 0, k + 1);
      }
    }
  }

  /** After an advance of so much since the last accepted frame, a frame is accepted. */
  predicate InStep(total: nat) {
    1 <= total % WORD <= 61440
  }

  /** A counter that has advanced by `total` in all since the last accepted value, over any number of lost frames. */
  lemma NewerAfterLoss(last: int, total: nat)
    requires -1 <= last < WORD
    ensures Newer(last, (last + total) % WORD) <==> InStep(total)
  {
    ReduceSum(last, total);
  }

  /** So of the next frame, when the counter has advanced by `total` up to the one before it. */
  lemma NextNewer(last: int, total: nat, counter: nat, interval: nat)
    requires -1 <= last < WORD && interval > 0 && counter == (last + total) % WORD
    ensures Next(counter, interval) == (last + total + Advance(counter, interval)) % WORD
    ensures Newer(last, Next(counter, interval)) <==> InStep(total + Advance(counter, interval))
  {
    var step := Advance(counter, interval);
    var q := (last + total) / WORD;
    assert last + total == q * WORD + counter;
    SameRemainder(counter + step, q);
    NewerAfterLoss(last, total + step);
  }

  lemma OwnRemainder(a: nat)
    requires a < WORD
    ensures (a + 0) % WORD == a
  {
  }

  lemma SameRemainder(a: int, q: int)
    ensures (a + q * WORD) % WORD == a % WORD
  {
  }

  lemma ReduceSum(last: int, total: nat)
    ensures ((last + total) % WORD - last) % WORD == total % WORD
  {
    var q, r := (last + total) / WORD, total / WORD;
    assert last + total == q * WORD + (last + total) % WORD;
    assert total == r * WORD + total % WORD;
    assert (last + total) % WORD - last == (r - q) * WORD + total % WORD;
  }

  lemma AdvanceOfMultiple(prev: nat, interval: nat, cycles: nat, k: nat)
    requires prev < WORD && interval > 0 && prev == k * interval && cycles * interval == WORD
    ensures Advance(prev, interval) == interval
    ensures k + 1 < cycles ==> Next(prev, interval) == (k + 1) * interval
    ensures k + 1 >= cycles ==> Next(prev, interval) == 0 * interval
  {
    QuotientOfMultiple(k, interval);
    assert (k + 1) * interval == k * interval + interval;
    MulMonotone(cycles, k + 1, interval);
    MulMonotone(k + 1, cycles, interval);
    MulMonotone(cycles, k, interval);
    assert k < cycles;
  }

  /** k frames in a row are rejected, the first one after this advance. */
  predicate AllRejected(total: nat, interval: nat, k: nat)
    decreases k
  {
    k == 0 || (!InStep(total) && AllRejected(total + interval, interval, k - 1))
  }

  ghost predicate CanReject(interval: nat, k: nat) {
    exists total: nat :: AllRejected(total, interval, k)
  }

  /**
   Frames that all arrive, one interval apart: so many can be rejected in a row, and no more. Above an interval of 4095
   at most one is.
   */
  lemma RejectedInARow(interval: nat, k: nat)
    requires 1 <= interval <= 61440
    ensures CanReject(interval, k) <==> k == 0 || (k - 1) * interval <= 4095
  {
    if CanReject(interval, k) {
      var a: nat :| AllRejected(a, interval, k);
      RejectedBound(a, interval, k);
      BoundedRow(a, interval, k);
    }
    if k == 0 || (k - 1) * interval <= 4095 {
      var a := RejectedRow(interval, k);
    }
  }

  lemma RejectedRow(interval: nat, k: nat) returns (a: nat)
    requires interval >= 1 && (k == 0 || (k - 1) * interval <= 4095)
    ensures AllRejected(a, interval, k)
  {
    if k == 0 {
      a := 0;
    } else {
      a := WORD - (k - 1) * interval;
      RejectedTail(a, interval, k, (k - 1) * interval);
    }
  }

  lemma {:induction false} RejectedTail(total: nat, interval: nat, k: nat, left: nat)
    requires k > 0 && left == (k - 1) * interval <= 4095 && total + left == WORD
    ensures AllRejected(total, interval, k)
    decreases k
  {
    assert !InStep(total);
    if k > 1 {
      assert left - interval == (k - 2) * interval;
      MulMonotone(0, k - 2, interval);
      RejectedTail(total + interval, interval, k - 1, left - interval);
    }
  }

  /** How far the advance is from the next multiple of the range. */
  function Left(total: nat): nat {
    (0 - total) % WORD
  }

  /** This many frames in a row can be rejected, the first one after this advance. */
  predicate Bounded(total: nat, interval: nat, k: nat) {
    k == 0 || (!InStep(total) && (k - 1) * interval <= Left(total))
  }

  lemma RejectedLeft(total: nat)
    ensures InStep(total) <==> Left(total) > 4095
  {
    NegatedRemainder(total);
  }

  lemma BoundedRow(total: nat, interval: nat, k: nat)
    requires Bounded(total, interval, k)
    ensures k == 0 || (k - 1) * interval <= 4095
  {
    RejectedLeft(total);
  }

  lemma NegatedRemainder(total: nat)
    ensures Left(total) == if total % WORD == 0 then 0 else WORD - total % WORD
  {
    var q := total / WORD;
    assert total == q * WORD + total % WORD;
    if total % WORD == 0 {
      SameRemainder(0, -q);
    } else {
      SameRemainder(WORD - total % WORD, -q - 1);
    }
  }

  lemma OneMoreRejected(total: nat, interval: nat, k: nat)
    requires 1 <= interval <= 61440 && k > 0 && !InStep(total) && Bounded(total + interval, interval, k - 1)
    ensures Bounded(total, interval, k)
  {
    if k > 1 {
      NegatedRemainder(total);
      NegatedRemainder(total + interval);
      NextRemainder(total, interval);
      assert (k - 1) * interval == (k - 2) * interval + interval;
    }
  }

  lemma {:induction false} RejectedBound(total: nat, interval: nat, k: nat)
    requires 1 <= interval <= 61440 && AllRejected(total, interval, k)
    ensures Bounded(total, interval, k)
    decreases k
  {
    if k > 0 {
      RejectedBound(total + interval, interval, k - 1);
      OneMoreRejected(total, interval, k);
    }
  }

  lemma NextRemainder(total: nat, interval: nat)
    requires interval < WORD
    ensures (total + interval) % WORD ==
            if total % WORD + interval < WORD then total % WORD + interval else total % WORD + interval - WORD
  {
  }
}
