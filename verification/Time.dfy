/** Clock readings and durations, in whole nanoseconds. */
module Time {

  const MILLISECOND: int := 1_000_000
  const SECOND: int := 1_000_000_000

  /** time.Time.Unix: the reading in seconds, rounded down. */
  function UnixSecond(now: int): (s: int)
    ensures s * SECOND <= now < (s + 1) * SECOND
  {
    now / SECOND
  }

  /** time.Since of the instant time.Unix(second, 0). */
  function SinceSecond(now: int, second: int): (d: int)
  {
    now - second * SECOND
  }
}

/** Powers of two, for doubling backoff intervals. */
module Powers {

  function Pow2(k: nat): (r: nat)
    ensures r >= 1
  {
    if k == 0 then 1 else 2 * Pow2(k - 1)
  }

  lemma {:induction false} Pow2Add(a: nat, b: nat)
    ensures Pow2(a + b) == Pow2(a) * Pow2(b)
    decreases b
  {
    if b > 0 {
      Pow2Add(a, b - 1);
      assert Pow2(a + b) == 2 * Pow2(a + (b - 1));
      assert 2 * (Pow2(a) * Pow2(b - 1)) == Pow2(a) * (2 * Pow2(b - 1));
    }
  }

  lemma {:induction false} Pow2Monotone(a: nat, b: nat)
    requires a <= b
    ensures Pow2(a) <= Pow2(b)
    decreases b - a
  {
    if a < b {
      Pow2Monotone(a, b - 1);
    }
  }

  /** x doubled k times. */
  function Doubled(x: int, k: nat): (r: int)
    decreases k
  {
    if k == 0 then x else Doubled(2 * x, k - 1)
  }

  lemma {:induction false} DoubledIsProduct(x: int, k: nat)
    ensures Doubled(x, k) == x * Pow2(k)
    decreases k
  {
    if k > 0 {
      DoubledIsProduct(2 * x, k - 1);
      assert 2 * x * Pow2(k - 1) == x * (2 * Pow2(k - 1));
    }
  }

  lemma {:induction false} DoubledMonotone(x: int, y: int, j: nat, k: nat)
    requires 0 <= x <= y && j <= k
    ensures Doubled(x, j) <= Doubled(y, k) && x <= Doubled(x, j)
    decreases k
  {
    if j > 0 {
      DoubledMonotone(2 * x, 2 * y, j - 1, k - 1);
    } else if k > 0 {
      DoubledMonotone(x, 2 * y, 0, k - 1);
    }
  }

  lemma {:induction false} DoubledOnceMore(x: int, k: nat)
    ensures Doubled(x, k + 1) == 2 * Doubled(x, k)
    decreases k
  {
    if k > 0 {
      DoubledOnceMore(2 * x, k - 1);
    }
  }
}
