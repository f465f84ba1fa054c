/** Power-of-two table sizes and the modular arithmetic of probing. */
module PowersOfTwo {
  import opened Bytes

  predicate IsPowerOfTwo(n: nat) {
    n == 1 || (n > 1 && n % 2 == 0 && IsPowerOfTwo(n / 2))
  }

  function NextPowerOfTwo(n: nat): (p: nat)
    ensures IsPowerOfTwo(p) && n <= p
  {
    if n <= 1 then 1 else 2 * NextPowerOfTwo((n + 1) / 2)
  }

  /** No smaller power of two will do. */
  lemma {:induction false} NextIsLeast(n: nat, p: nat)
    requires IsPowerOfTwo(p) && n <= p
    ensures NextPowerOfTwo(n) <= p
  {
    if n > 1 {
      NextIsLeast((n + 1) / 2, p / 2);
    }
  }

  lemma {:induction false} PowerOfTwoDivides(a: nat, b: nat)
    requires IsPowerOfTwo(a) && IsPowerOfTwo(b) && a <= b
    ensures b % a == 0
  {
    if a > 1 {
      PowerOfTwoDivides(a / 2, b / 2);
      var k := (b / 2) / (a / 2);
      assert b / 2 == k * (a / 2);
      assert b == k * a;
      MultipleMod(k, a);
    }
  }

  lemma MultipleMod(k: nat, a: nat)
    requires a > 0
    ensures (k * a) % a == 0
  {
    ModUnique(k * a, a, k, 0);
  }

  lemma Distribute(a: int, b: int, m: int)
    ensures (a - b) * m == a * m - b * m
    ensures (a + b) * m == a * m + b * m
  {
  }

  lemma {:induction false} MulAtLeast(a: nat, m: nat)
    requires a > 0
    ensures a * m >= m
  {
    if a > 1 {
      MulAtLeast(a - 1, m);
      Distribute(a - 1, 1, m);
    }
  }

  lemma ModUnique(x: int, m: nat, q: int, r: int)
    requires m > 0 && 0 <= r < m && x == q * m + r
    ensures x % m == r
  {
    var q' := x / m;
    assert x == q' * m + x % m;
    Distribute(q, q', m);
    Distribute(q', q, m);
    if q > q' {
      MulAtLeast(q - q', m);
    } else if q < q' {
      MulAtLeast(q' - q, m);
    }
  }

  lemma Sixteenfold(n: nat)
    requires IsPowerOfTwo(n)
    ensures IsPowerOfTwo(16 * n)
  {
    hide IsPowerOfTwo;
    Doubled(n);
    Doubled(2 * n);
    Doubled(4 * n);
    Doubled(8 * n);
  }

  lemma Doubled(n: nat)
    requires IsPowerOfTwo(n)
    ensures IsPowerOfTwo(2 * n)
  {
  }

  lemma Scaled(n: nat)
    requires IsPowerOfTwo(n)
    ensures IsPowerOfTwo(0x1_0000 * n)
  {
    hide IsPowerOfTwo;
    Sixteenfold(n);
    Sixteenfold(0x10 * n);
    Sixteenfold(0x100 * n);
    Sixteenfold(0x1000 * n);
  }

  lemma WordIsPowerOfTwo()
    ensures IsPowerOfTwo(U64_LIMIT)
  {
    assert IsPowerOfTwo(1);
    hide IsPowerOfTwo;
    Scaled(1);
    Scaled(0x1_0000);
    Scaled(0x1_0000_0000);
    Scaled(0x1_0000_0000_0000);
  }

  lemma Quotient(a: nat, b: nat)
    requires a > 0 && b % a == 0
    ensures (b / a) * a == b
  {
  }

  /** The 64-bit wrap-around of `hash + probe` does not disturb the slot it selects. */
  lemma WrappedProbe(x: nat, slots: nat)
    requires IsPowerOfTwo(slots) && slots < U64_LIMIT
    ensures (x % U64_LIMIT) % slots == x % slots
  {
    assert slots > 0;
    hide IsPowerOfTwo;
    WordIsPowerOfTwo();
    PowerOfTwoDivides(slots, U64_LIMIT);
    Quotient(slots, U64_LIMIT);
    ModOfMultiple(x, slots, U64_LIMIT / slots);
  }

  lemma ModOfMultiple(x: nat, m: nat, k: nat)
    requires m > 0 && k * m > 0
    ensures (x % (k * m)) % m == x % m
  {
    var n := k * m;
    var y := x % n;
    var q, q' := x / n, y / m;
    assert x == q * n + y;
    assert y == q' * m + y % m;
    assert q * n == (q * k) * m;
    Distribute(q * k, q', m);
    ModUnique(x, m, q * k + q', y % m);
  }

  lemma AddThenMod(x: nat, p: nat, m: nat)
    requires m > 0
    ensures (x % m + p) % m == (x + p) % m
  {
    var y := x % m + p;
    assert x == (x / m) * m + x % m;
    assert y == (y / m) * m + y % m;
    Distribute(x / m, y / m, m);
    ModUnique(x + p, m, x / m + y / m, y % m);
  }
}
