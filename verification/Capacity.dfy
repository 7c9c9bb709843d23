/** When the hash maps grow and shrink: thresholds computed in 64-bit arithmetic as fractions of the
    number of slots. */
module Capacity {
  import opened Numbers

  const MAX_LOAD := 3650722200
  const MIN_LOAD := 858993459

  /** `k` slots in each of `mask + 1` buckets. */
  function MaxN(mask: nat, k: nat): nat {
    (mask + 1) % TWO_32 * k * MAX_LOAD % TWO_64 / TWO_32
  }

  function MinN(mask: nat, k: nat): nat {
    (mask + 1) % TWO_32 * k * MIN_LOAD % TWO_64 / TWO_32
  }

  predicate PowerOf2(n: nat)
    decreases n
  {
    n == 1 || (n > 1 && n % 2 == 0 && PowerOf2(n / 2))
  }

  /** The number of slots per bucket in `cmap`, on 64-bit and on 32-bit machines, and in `ccmap`. */
  predicate KnownWidth(k: nat) {
    k == 5 || k == 7 || k == 8
  }

  const MAX_BUCKETS := 0x2000_0000

  function Exp2(e: nat): nat {
    if e == 0 then 1 else 2 * Exp2(e - 1)
  }

  lemma {:induction false} ExpIsPower(e: nat)
    ensures Exp2(e) >= 1 && PowerOf2(Exp2(e))
    decreases e
  {
    if e > 0 {
      ExpIsPower(e - 1);
    }
  }

  lemma ExpPlus8(e: nat)
    ensures Exp2(e + 8) == 256 * Exp2(e)
  {
    assert Exp2(e + 2) == 4 * Exp2(e);
    assert Exp2(e + 4) == 16 * Exp2(e);
    assert Exp2(e + 6) == 64 * Exp2(e);
  }

  lemma MaxIsPower()
    ensures PowerOf2(MAX_BUCKETS)
  {
    ExpIsPower(29);
    assert Exp2(29) == 0x2000_0000 by {
      assert Exp2(1) == 2 && Exp2(3) == 8 && Exp2(5) == 32;
      ExpPlus8(5);
      ExpPlus8(13);
      ExpPlus8(21);
    }
  }

  lemma {:induction false} Doubles(m: nat, n: nat)
    requires PowerOf2(m) && PowerOf2(n) && m < n
    ensures 2 * m <= n
    decreases m
  {
    if m > 1 {
      Doubles(m / 2, n / 2);
    }
  }

  lemma Thresholds(m: nat, k: nat)
    requires KnownWidth(k) && 0 < m <= MAX_BUCKETS
    ensures 4 * m <= MaxN(m - 1, k) < 7 * m && MinN(m - 1, k) < 2 * m
  {
    var max, min := k * MAX_LOAD, k * MIN_LOAD;
    assert 4 * TWO_32 < max < 7 * TWO_32 && min < 2 * TWO_32;
    Fraction(m, max);
    Fraction(m, min);
    assert m * k * MAX_LOAD == m * max && m * k * MIN_LOAD == m * min;
  }

  /** A fraction of the number of buckets, in 64-bit arithmetic that does not overflow. */
  lemma Fraction(m: nat, load: nat)
    requires 0 < m <= MAX_BUCKETS && load < 7 * TWO_32
    ensures m % TWO_32 == m && m * load % TWO_64 == m * load
    ensures m * load / TWO_32 < 7 * m
    ensures load >= 4 * TWO_32 ==> m * load / TWO_32 >= 4 * m
    ensures load < 2 * TWO_32 ==> m * load / TWO_32 < 2 * m
  {
    Grows(m, load + 1, 7 * TWO_32);
    if load >= 4 * TWO_32 {
      Grows(m, 4 * TWO_32, load);
    } else if load < 2 * TWO_32 {
      Grows(m, load + 1, 2 * TWO_32);
    }
  }

  lemma Grows(m: nat, a: nat, b: nat)
    requires a <= b
    ensures m * a <= m * b && m * (a + 1) == m * a + m
  {
    assert m * b == m * a + m * (b - a);
  }

  /** The thresholds are 85 and 20 in a hundred of the slots, rounded down, as long as the product fits. */
  lemma LoadFactors(m: nat, k: nat)
    requires KnownWidth(k) && 0 < m <= MAX_BUCKETS
    ensures 85 * (m * k) - 300 < 100 * MaxN(m - 1, k) <= 85 * (m * k)
    ensures 20 * (m * k) - 300 < 100 * MinN(m - 1, k) <= 20 * (m * k)
  {
    var slots := m * k;
    assert slots <= 8 * MAX_BUCKETS;
    Fraction(m, k * MAX_LOAD);
    Fraction(m, k * MIN_LOAD);
    assert m * k * MAX_LOAD == m * (k * MAX_LOAD) && m * k * MIN_LOAD == m * (k * MIN_LOAD);
    assert 100 * MAX_LOAD == 85 * TWO_32 - 160;
    assert 100 * MIN_LOAD == 20 * TWO_32 - 20;
    Share(slots, MAX_LOAD, 85, 160);
    Share(slots, MIN_LOAD, 20, 20);
  }

  lemma Share(slots: nat, load: nat, percent: nat, less: nat)
    requires slots <= TWO_32 && 100 * load == percent * TWO_32 - less && less <= 160
    ensures percent * slots - 300 < 100 * (slots * load / TWO_32) <= percent * slots
  {
    var q, r := slots * load / TWO_32, slots * load % TWO_32;
    assert slots * load == q * TWO_32 + r;
    assert 100 * (slots * load) == slots * (percent * TWO_32 - less) == percent * slots * TWO_32 - slots * less;
    assert slots * less <= 160 * TWO_32;
    assert (percent * slots - 100 * q) * TWO_32 == slots * less + 100 * r;
  }

  lemma Overflow(k: nat)
    requires KnownWidth(k)
    ensures MaxN(MAX_BUCKETS - 1, k) >= MaxN(2 * MAX_BUCKETS - 1, k)
  {
  }

  /** A map that is full has room for one more when it has grown, exactly as long as it has fewer than
      2^29 buckets: from then on the 64-bit product overflows. */
  lemma GrowthMakesRoom(mask: nat, k: nat)
    requires KnownWidth(k) && PowerOf2(mask + 1) && mask < MAX_BUCKETS
    ensures MaxN(mask, k) < MaxN(2 * mask + 1, k) <==> mask + 1 < MAX_BUCKETS
  {
    hide MaxN, MinN, PowerOf2;
    var m := mask + 1;
    Overflow(k);
    if m < MAX_BUCKETS {
      MaxIsPower();
      Doubles(m, MAX_BUCKETS);
      Thresholds(m, k);
      Thresholds(2 * m, k);
    }
  }

  /** What growing relies on: `n` is at most the upper threshold, or the map was never inserted into. */
  lemma GrownFits(mask: nat, k: nat, n: nat)
    requires KnownWidth(k) && PowerOf2(mask + 1) && mask + 1 < MAX_BUCKETS && n <= MaxN(mask, k)
    ensures PowerOf2(2 * mask + 1 + 1) && 2 * mask + 1 < MAX_BUCKETS && n < MaxN(2 * mask + 1, k)
  {
    hide MaxN;
    GrowthMakesRoom(mask, k);
    MaxIsPower();
    Doubles(mask + 1, MAX_BUCKETS);
    assert (2 * mask + 2) / 2 == mask + 1;
  }

  /** The entries of a map below the lower threshold fit into half of its buckets with room to spare;
      with a single bucket the map stays as it is. */
  lemma ShrinkingLeavesRoom(mask: nat, k: nat, n: nat)
    requires KnownWidth(k) && PowerOf2(mask + 1) && mask < MAX_BUCKETS && n < MinN(mask, k)
    ensures PowerOf2(mask / 2 + 1) && n < MaxN(mask / 2, k)
  {
    hide MaxN, MinN;
    Thresholds(mask + 1, k);
    Thresholds(mask / 2 + 1, k);
    assert mask > 0 ==> (mask + 1) / 2 == mask / 2 + 1;
  }
}
