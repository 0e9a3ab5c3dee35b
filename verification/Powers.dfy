/** Powers of two, the arithmetic of shifts and masks, and the position of the
    highest set bit. Machine words are natural numbers here; a shift left is a
    multiplication, a shift right a division and an all-ones mask a remainder. */
module Powers {

  function Pow2(n: nat): (p: nat)
    ensures p >= 1
  {
    if n == 0 then 1 else 2 * Pow2(n - 1)
  }

  lemma {:induction false} Pow2Add(a: nat, b: nat)
    ensures Pow2(a + b) == Pow2(a) * Pow2(b)
  {
    if b == 0 {
    } else {
      Pow2Add(a, b - 1);
      TimesDouble(Pow2(a), Pow2(b - 1));
    }
  }

  lemma {:induction false} Pow2Monotone(a: nat, b: nat)
    requires a <= b
    ensures Pow2(a) <= Pow2(b)
  {
    if a < b {
      Pow2Monotone(a, b - 1);
    }
  }

  lemma Pow2Strict(a: nat, b: nat)
    requires a < b
    ensures 2 * Pow2(a) <= Pow2(b)
  {
    Pow2Monotone(a + 1, b);
  }

  lemma {:induction false} Pow2Exceeds(n: nat)
    ensures n < Pow2(n)
  {
    if n > 0 {
      Pow2Exceeds(n - 1);
    }
  }

  // ----- quotients and remainders

  lemma MulMonotone(a: int, b: int, m: nat)
    requires a <= b
    ensures a * m <= b * m
  {
  }

  lemma SumTimes(a: int, b: int, c: int)
    ensures (a + b) * c == a * c + b * c
  {
  }

  lemma DivModUnique(a: int, q: int, r: int, d: int)
    requires 0 <= r < d
    requires a == q * d + r
    ensures a / d == q && a % d == r
  {
    var q', r' := a / d, a % d;
    assert a == q' * d + r';
    assert (q' - q) * d == r - r';
    if q' > q {
      MulMonotone(1, q' - q, d);
    } else if q' < q {
      MulMonotone(1, q - q', d);
    }
  }

  lemma DivMod(a: int, d: int)
    requires d > 0
    ensures a == (a / d) * d + a % d && 0 <= a % d < d
  {
  }

  lemma Nest(x: int, z: int, s: int, r: int, p: int, q: int)
    requires x == (z * q + s) * p + r
    requires 0 <= s < q && 0 <= r < p
    ensures x == z * (p * q) + (s * p + r)
    ensures 0 <= s * p + r < p * q
  {
    assert (z * q + s) * p == z * (p * q) + s * p;
    MulMonotone(s + 1, q, p);
    MulMonotone(0, s, p);
    assert (s + 1) * p == s * p + p;
    assert q * p == p * q;
  }

  /** Dropping a + b low bits is dropping a of them and then b more, and the b bits above the
      lowest a can be cut out in either order. */
  lemma ShiftSplit(x: nat, a: nat, b: nat)
    ensures x / Pow2(a + b) == (x / Pow2(a)) / Pow2(b)
    ensures (x / Pow2(a)) % Pow2(b) == (x % Pow2(a + b)) / Pow2(a)
    ensures x % Pow2(a + b) == x % Pow2(a) + Pow2(a) * ((x / Pow2(a)) % Pow2(b))
  {
    Pow2Add(a, b);
    DivSplit(x, Pow2(a), Pow2(b));
  }

  lemma DivSplit(x: nat, p: nat, q: nat)
    requires p > 0 && q > 0
    ensures p * q > 0
    ensures x / (p * q) == (x / p) / q
    ensures (x / p) % q == (x % (p * q)) / p
    ensures x % (p * q) == x % p + p * ((x / p) % q)
  {
    var y, r := x / p, x % p;
    var z, s := y / q, y % q;
    DivMod(x, p);
    DivMod(y, q);
    Nest(x, z, s, r, p, q);
    var pq, t := p * q, s * p + r;
    DivModUnique(x, z, t, pq);
    DivModUnique(t, s, r, p);
    assert s * p == p * s;
  }

  lemma DivBound(x: nat, d: nat, m: nat)
    requires d > 0
    requires x < m * d
    ensures x / d < m
  {
    DivMod(x, d);
    if x / d >= m {
      MulMonotone(m, x / d, d);
    }
  }

  lemma MulDivMod(q: nat, r: nat, d: nat)
    requires r < d
    ensures (q * d + r) / d == q && (q * d + r) % d == r
    ensures (d * q + r) / d == q && (d * q + r) % d == r
  {
    assert q * d == d * q;
    DivModUnique(q * d + r, q, r, d);
  }

  // ----- the shifts and masks themselves

  /** x << k */
  function Shl(x: int, k: nat): (y: int)
    ensures 0 <= x ==> x <= y
  {
    if k == 0 then x else 2 * Shl(x, k - 1)
  }

  /** x >> k */
  function Shr(x: nat, k: nat): nat {
    if k == 0 then x else Shr(x, k - 1) / 2
  }

  /** x & ((1 << k) - 1) */
  function Low(x: nat, k: nat): nat {
    if k == 0 then 0 else x % 2 + 2 * Low(x / 2, k - 1)
  }

  lemma {:induction false} ShlIsTimes(x: int, k: nat)
    ensures Shl(x, k) == x * Pow2(k)
  {
    if k > 0 {
      ShlIsTimes(x, k - 1);
      TimesDouble(x, Pow2(k - 1));
    }
  }

  lemma TimesDouble(x: int, p: int)
    ensures 2 * (x * p) == x * (2 * p)
  {
  }

  lemma {:induction false} ShrIsDiv(x: nat, k: nat)
    ensures Shr(x, k) == x / Pow2(k)
  {
    if k > 0 {
      ShrIsDiv(x, k - 1);
      ShiftSplit(x, k - 1, 1);
      assert Pow2(1) == 2;
    }
  }

  lemma {:induction false} LowIsMod(x: nat, k: nat)
    ensures Low(x, k) == x % Pow2(k)
  {
    if k > 0 {
      LowIsMod(x / 2, k - 1);
      ShiftSplit(x, 1, k - 1);
      assert Pow2(1) == 2;
    }
  }

  lemma {:induction false} ShlAdd(x: int, y: int, k: nat)
    ensures Shl(x + y, k) == Shl(x, k) + Shl(y, k)
  {
    if k > 0 {
      ShlAdd(x, y, k - 1);
    }
  }

  lemma {:induction false} ShlShl(x: int, a: nat, b: nat)
    ensures Shl(Shl(x, a), b) == Shl(x, a + b)
  {
    if b > 0 {
      ShlShl(x, a, b - 1);
    }
  }

  lemma {:induction false} ShlBelow(x: nat, n: nat, k: nat)
    requires x < Pow2(n)
    ensures Shl(x, k) + Pow2(k) <= Pow2(n + k)
  {
    if k > 0 {
      ShlBelow(x, n, k - 1);
    }
  }

  lemma {:induction false} ShrShr(x: nat, a: nat, b: nat)
    ensures Shr(Shr(x, a), b) == Shr(x, a + b)
  {
    if b > 0 {
      ShrShr(x, a, b - 1);
    }
  }

  lemma {:induction false} ShrMonotone(x: nat, y: nat, k: nat)
    requires x <= y
    ensures Shr(x, k) <= Shr(y, k)
  {
    if k > 0 {
      ShrMonotone(x, y, k - 1);
    }
  }

  lemma ShrReflects(x: nat, y: nat, k: nat)
    requires Shr(x, k) < Shr(y, k)
    ensures x < y
  {
    if y <= x {
      ShrMonotone(y, x, k);
    }
  }

  lemma {:induction false} LowBelow(x: nat, k: nat)
    ensures Low(x, k) < Pow2(k)
  {
    if k > 0 {
      LowBelow(x / 2, k - 1);
    }
  }

  lemma {:induction false} LowLow(x: nat, a: nat, b: nat)
    requires b <= a
    ensures Low(Low(x, a), b) == Low(x, b)
  {
    if b > 0 {
      LowLow(x / 2, a - 1, b - 1);
    }
  }

  lemma {:induction false} LowOfSmall(x: nat, k: nat)
    requires x < Pow2(k)
    ensures Low(x, k) == x
  {
    if k > 0 {
      LowOfSmall(x / 2, k - 1);
    }
  }

  /** Cutting bits out of the middle of a word, in either order. */
  lemma LowOfShr(x: nat, a: nat, b: nat)
    ensures Low(Shr(x, a), b) == Shr(Low(x, a + b), a)
  {
    ShrIsDiv(x, a);
    LowIsMod(Shr(x, a), b);
    LowIsMod(x, a + b);
    ShrIsDiv(Low(x, a + b), a);
    ShiftSplit(x, a, b);
  }

  lemma {:induction false} LowOfShl(x: nat, k: nat, m: nat)
    ensures Low(Shl(x, k), m + k) == Shl(Low(x, m), k)
  {
    if k > 0 {
      LowOfShl(x, k - 1, m);
    }
  }

  /** A field stacked on top of n lower bits can be taken off again. */
  lemma StackedField(low: nat, field: nat, n: nat)
    requires low < Pow2(n)
    ensures Shr(low + Shl(field, n), n) == field
    ensures Low(low + Shl(field, n), n) == low
  {
    ShlIsTimes(field, n);
    ShrIsDiv(low + Shl(field, n), n);
    LowIsMod(low + Shl(field, n), n);
    MulDivMod(field, low, Pow2(n));
  }

  /** Putting a word together again from its high and low bits. */
  lemma ShiftBack(x: nat, n: nat)
    ensures Low(x, n) + Shl(Shr(x, n), n) == x
  {
    ShrIsDiv(x, n);
    LowIsMod(x, n);
    ShlIsTimes(Shr(x, n), n);
    DivMod(x, Pow2(n));
  }

  lemma ShrSmall(x: nat, n: nat, k: nat)
    requires x < Pow2(n + k)
    ensures Shr(x, k) < Pow2(n)
  {
    ShrIsDiv(x, k);
    Pow2Add(n, k);
    DivBound(x, Pow2(k), Pow2(n));
  }

  lemma ShlThenShr(x: nat, k: nat)
    ensures Shr(Shl(x, k), k) == x
  {
    ShlIsTimes(x, k);
    ShrIsDiv(Shl(x, k), k);
    MulDivMod(x, 0, Pow2(k));
  }

  // ----- highest set bit (BIT_highbit32)

  function Log2(n: nat): (k: nat)
    requires n >= 1
    ensures Pow2(k) <= n < 2 * Pow2(k)
  {
    if n == 1 then 0 else 1 + Log2(n / 2)
  }

  lemma Log2Unique(n: nat, k: nat)
    requires Pow2(k) <= n < 2 * Pow2(k)
    ensures n >= 1 && Log2(n) == k
  {
    if Log2(n) < k {
      Pow2Strict(Log2(n), k);
    } else if Log2(n) > k {
      Pow2Strict(k, Log2(n));
    }
  }

  // ----- bitwise or, bit by bit

  function BitOr(a: nat, b: nat): nat
    decreases a + b
  {
    if a == 0 && b == 0 then 0
    else 2 * BitOr(a / 2, b / 2) + (if a % 2 == 1 || b % 2 == 1 then 1 else 0)
  }

  /** Or-ing a field in above the bits already present adds it. */
  lemma {:induction false} OrAbove(a: nat, f: nat, k: nat)
    requires a < Pow2(k)
    ensures BitOr(a, Shl(f, k)) == a + Shl(f, k)
  {
    if k == 0 {
      OrZero(f);
    } else {
      OrAbove(a / 2, f, k - 1);
    }
  }

  lemma {:induction false} OrZero(f: nat)
    ensures BitOr(0, f) == f
    decreases f
  {
    if f > 0 {
      OrZero(f / 2);
    }
  }
}
