/** Division and remainder by a symbolic modulus. */
module WheelMath {

  lemma MulAtLeast(k: int, n: int)
    requires k >= 1 && n > 0
    ensures k * n >= n
  {
    assert k * n == (k - 1) * n + n;
  }

  lemma MulMono(a: int, b: int, n: int)
    requires a >= b && n >= 0
    ensures a * n >= b * n
  {
    assert a * n == (a - b) * n + b * n;
  }

  lemma MulSub(a: int, b: int, n: int)
    ensures (a - b) * n == a * n - b * n
  {
  }

  lemma MulSucc(k: int, n: int)
    ensures (k + 1) * n == k * n + n
  {
  }

  lemma SmallMultiple(k: int, n: int)
    requires n > 0 && -n < k * n < n
    ensures k == 0
  {
    if k >= 1 { MulAtLeast(k, n); }
    if k <= -1 { MulAtLeast(-k, n); }
  }

  lemma DivModUnique(x: int, n: int, q: int, r: int)
    requires n > 0 && x == q * n + r && 0 <= r < n
    ensures x / n == q && x % n == r
  {
    var q', r' := x / n, x % n;
    DivMod(x, n);
    MulSub(q, q', n);
    SmallMultiple(q - q', n);
  }

  lemma DivMod(x: int, n: int)
    requires n > 0
    ensures x == (x / n) * n + x % n && 0 <= x % n < n
  {
  }

  lemma ModAdd(a: int, b: int, n: int)
    requires n > 0
    ensures (a % n + b) % n == (a + b) % n
  {
    DivMod(a, n);
    DivMod(a % n + b, n);
    var q := (a % n + b) / n;
    assert a + b == (a / n + q) * n + (a % n + b) % n;
    DivModUnique(a + b, n, a / n + q, (a % n + b) % n);
  }

  /** Two turns less than one lap apart share a slot only if they are the same turn. */
  lemma SameSlot(a: int, b: int, n: int)
    requires n > 0 && a <= b < a + n && a % n == b % n
    ensures a == b
  {
    DivMod(a, n);
    DivMod(b, n);
    MulSub(b / n, a / n, n);
    SmallMultiple(b / n - a / n, n);
  }

  /** The next slot of a cursor: one further, or back to 0 with a carry. */
  lemma NextSlot(t: int, n: int)
    requires n >= 2
    ensures (t + 1) % n == if t % n + 1 < n then t % n + 1 else 0
  {
    DivMod(t, n);
    if t % n + 1 < n {
      DivModUnique(t + 1, n, t / n, t % n + 1);
    } else {
      assert t + 1 == (t / n + 1) * n + 0;
      DivModUnique(t + 1, n, t / n + 1, 0);
    }
  }

  /** A delay below n laps splits into fewer than n whole laps and a remainder. */
  lemma LapBound(d: int, n: int)
    requires 0 < n && 0 <= d < n * n
    ensures 0 <= d / n < n
    ensures d / n > 0 <==> d >= n
  {
    var q := d / n;
    DivMod(d, n);
    if q >= n { MulMono(q, n, n); }
    if q >= 1 { MulAtLeast(q, n); }
    if q <= -1 { MulAtLeast(-q, n); }
  }

  /** Two digits in base n. */
  lemma TwoDigits(x: int, n: int)
    requires n > 0 && x >= 0
    ensures 0 < n * n && x % (n * n) == x / n % n * n + x % n
  {
    var q, r := x / n / n, x / n % n * n + x % n;
    DivMod(x, n);
    DivMod(x / n, n);
    MulMono(n - 1, x / n % n, n);
    MulSub(n, 1, n);
    MulMono(n, 1, n);
    assert q * (n * n) == q * n * n;
    assert x == q * (n * n) + r;
    assert r >= 0 by { MulMono(x / n % n, 0, n); }
    DivModUnique(x, n * n, q, r);
  }
}
