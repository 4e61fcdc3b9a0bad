/** Unsigned machine words as bounded naturals: wrap-around addition and multiplication are `%`,
    a shift to the right halves once per place, and exclusive-or is given bit by bit. Every mixing
    operation used by the hashes is proved injective here, once for both word sizes. */
module Words {

  function Pow2(n: nat): (p: nat)
    ensures p > 0
  {
    if n == 0 then 1 else 2 * Pow2(n - 1)
  }

  /** Bitwise exclusive-or. */
  function Xor(a: nat, b: nat): nat
    decreases a + b
  {
    if a == 0 && b == 0 then 0 else (a + b) % 2 + 2 * Xor(a / 2, b / 2)
  }

  /** x >> k */
  function Shr(x: nat, k: nat): nat
    decreases k
  {
    if k == 0 then x else Shr(x / 2, k - 1)
  }

  datatype Width = W32 | W64 {
    function Bits(): nat {
      if W32? then 32 else 64
    }

    function Modulus(): nat {
      if W32? then 0x1_0000_0000 else 0x1_0000_0000_0000_0000
    }
  }

  /** a + b in a word; b may be negative. */
  function Add(w: Width, a: int, b: int): (r: nat)
    ensures r < w.Modulus()
  {
    (a + b) % w.Modulus()
  }

  /** a * b in a word. */
  function Mul(w: Width, a: int, b: int): (r: nat)
    ensures r < w.Modulus()
  {
    (a * b) % w.Modulus()
  }

  /** (x << r) | (x >> (bits - r)): the two halves occupy disjoint bits, so their or is their sum. */
  function Rotl(w: Width, x: nat, r: nat): nat
    requires r <= w.Bits()
  {
    ShiftNonNegative(x, Pow2(r), w.Modulus(), Pow2(w.Bits() - r));
    (x * Pow2(r)) % w.Modulus() + x / Pow2(w.Bits() - r)
  }

  // ---------- Exclusive-or and shifts ----------

  lemma {:induction false} XorBound(a: nat, b: nat, n: nat)
    requires a < Pow2(n) && b < Pow2(n)
    ensures Xor(a, b) < Pow2(n)
  {
    if n == 0 {
    } else {
      XorBound(a / 2, b / 2, n - 1);
    }
  }

  lemma {:induction false} XorComm(a: nat, b: nat)
    ensures Xor(a, b) == Xor(b, a)
    decreases a + b
  {
    if a == 0 && b == 0 {
    } else {
      XorComm(a / 2, b / 2);
    }
  }

  lemma XorStep(a: nat, b: nat)
    ensures Xor(a, b) / 2 == Xor(a / 2, b / 2)
    ensures Xor(a, b) % 2 == (a + b) % 2
  {}

  lemma {:induction false} XorCancel(a: nat, b: nat)
    ensures Xor(Xor(a, b), b) == a
    decreases a + b
  {
    hide Xor;
    if a == 0 && b == 0 {
      XorZero();
    } else {
      var r := Xor(a, b);
      XorStep(a, b);
      XorStep(r, b);
      XorCancel(a / 2, b / 2);
      assert (r + b) % 2 == a % 2;
    }
  }

  lemma XorZero()
    ensures Xor(0, 0) == 0
  {}

  lemma XorInjective(a: nat, b: nat, c: nat)
    requires Xor(a, c) == Xor(b, c) || Xor(c, a) == Xor(c, b)
    ensures a == b
  {
    XorComm(a, c);
    XorComm(b, c);
    XorCancel(a, c);
    XorCancel(b, c);
  }

  lemma {:induction false} ShrXor(a: nat, b: nat, k: nat)
    ensures Shr(Xor(a, b), k) == Xor(Shr(a, k), Shr(b, k))
    decreases k
  {
    if k == 0 {
    } else {
      XorStep(a, b);
      ShrXor(a / 2, b / 2, k - 1);
    }
  }

  lemma {:induction false} ShrShrinks(x: nat, k: nat)
    ensures Shr(x, k) <= x
    ensures k > 0 && x > 0 ==> Shr(x, k) < x
    decreases k
  {
    if k == 0 {
    } else {
      ShrShrinks(x / 2, k - 1);
    }
  }

  /** x ^ (x >> k) determines x: the shifted equation determines x >> k, which then cancels. */
  lemma {:induction false} XorShiftInjective(x: nat, y: nat, k: nat)
    requires k > 0
    requires Xor(x, Shr(x, k)) == Xor(y, Shr(y, k))
    ensures x == y
    decreases x + y
  {
    if x == 0 && y == 0 {
    } else {
      ShrXor(x, Shr(x, k), k);
      ShrXor(y, Shr(y, k), k);
      ShrShrinks(x, k);
      ShrShrinks(y, k);
      XorShiftInjective(Shr(x, k), Shr(y, k), k);
      XorInjective(x, y, Shr(x, k));
    }
  }

  // ---------- Addition, multiplication and rotation modulo the word size ----------

  lemma SmallMultiple(d: int, m: int, t: int)
    requires -m < d < m && d == t * m
    ensures d == 0
  {
    if t >= 1 {
      MulAtLeast(t, m);
    } else if t <= -1 {
      MulAtLeast(-t, m);
    }
  }

  lemma MulAtLeast(t: int, m: int)
    requires t >= 1 && m > 0
    ensures t * m >= m
  {}

  lemma DivUnique(a: int, d: int, q: int, r: int)
    requires d > 0 && a == q * d + r && 0 <= r < d
    ensures a / d == q && a % d == r
  {
    var p, s := a / d, a % d;
    assert a == p * d + s;
    assert (q - p) * d == s - r;
    SmallMultiple(s - r, d, q - p);
    assert (q - p) * d == 0;
  }

  lemma AddInjective(m: int, c: int, a: int, b: int)
    requires 0 <= a < m && 0 <= b < m && (c + a) % m == (c + b) % m
    ensures a == b
  {
    var p, q := (c + a) / m, (c + b) / m;
    assert c + a == p * m + (c + a) % m;
    assert c + b == q * m + (c + b) % m;
    assert a - b == (p - q) * m;
    SmallMultiple(a - b, m, p - q);
  }

  /** A factor with an inverse modulo m cancels. */
  lemma MulInjective(m: int, p: int, q: int, k: int, a: int, b: int)
    requires 0 <= a < m && 0 <= b < m
    requires p * q == k * m + 1
    requires a * p % m == b * p % m
    ensures a == b
  {
    var s, t := a * p / m, b * p / m;
    assert a * p == s * m + a * p % m;
    assert b * p == t * m + b * p % m;
    var d := a - b;
    assert d * p == (s - t) * m;
    assert d * (k * m + 1) == (s - t) * m * q by {
      assert d * (p * q) == (d * p) * q;
    }
    Collect(d, k, m, s - t, q);
    SmallMultiple(d, m, (s - t) * q - d * k);
  }

  lemma Collect(d: int, k: int, m: int, u: int, q: int)
    requires d * (k * m + 1) == u * m * q
    ensures d == (u * q - d * k) * m
  {}

  lemma ShiftNonNegative(x: nat, p: nat, m: nat, q: nat)
    requires m > 0 && q > 0
    ensures (x * p) % m + x / q >= 0
  {
    var d := x / q;
    assert x == d * q + x % q;
    if d < 0 {
      MulAtLeast(-d, q);
      assert false;
    }
  }

  lemma RotlParts(w: Width, x: nat, r: nat)
    requires r <= w.Bits() && x < w.Modulus()
    ensures 0 <= x / Pow2(w.Bits() - r) < Pow2(r)
    ensures Rotl(w, x, r) == (x % Pow2(w.Bits() - r)) * Pow2(r) + x / Pow2(w.Bits() - r)
    ensures Rotl(w, x, r) < w.Modulus()
  {
    hide Pow2;
    var high, low := Pow2(r), Pow2(w.Bits() - r);
    PowAdd(r, w.Bits() - r);
    WordSizes();
    var h, l := x / low, x % low;
    assert x == h * low + l;
    HalfBounds(h, l, high, low);
    DivUnique(x * high, high * low, h, l * high);
  }

  lemma ProductNonNegative(a: int, b: int)
    requires a >= 0 && b >= 0
    ensures a * b >= 0
  {}

  lemma HalfBounds(h: int, l: int, high: nat, low: nat)
    requires high > 0 && 0 <= l < low
    requires 0 <= h * low + l < high * low
    ensures 0 <= h < high
    ensures (h * low + l) * high == h * (high * low) + l * high
    ensures 0 <= l * high <= high * low - high
  {
    if h >= high {
      ProductNonNegative(h - high, low);
      assert false;
    }
    if h < 0 {
      MulAtLeast(-h, low);
      assert false;
    }
    ProductNonNegative(l, high);
    ProductNonNegative(low - 1 - l, high);
  }

  lemma RotlInjective(w: Width, x: nat, y: nat, r: nat)
    requires r <= w.Bits() && x < w.Modulus() && y < w.Modulus()
    requires Rotl(w, x, r) == Rotl(w, y, r)
    ensures x == y
  {
    hide Pow2, Rotl;
    RotlParts(w, x, r);
    RotlParts(w, y, r);
    SamePart(x, y, Pow2(r), Pow2(w.Bits() - r), Rotl(w, x, r));
  }

  lemma SamePart(x: nat, y: nat, high: nat, low: nat, v: int)
    requires low > 0 && 0 <= x / low < high && 0 <= y / low < high
    requires v == (x % low) * high + x / low == (y % low) * high + y / low
    ensures x == y
  {
    DivUnique(v, high, x % low, x / low);
    DivUnique(v, high, y % low, y / low);
    assert x == x / low * low + x % low;
    assert y == y / low * low + y % low;
  }

  // ---------- Powers of two ----------

  lemma {:induction false} PowAdd(a: nat, b: nat)
    ensures Pow2(a) * Pow2(b) == Pow2(a + b)
  {
    if a == 0 {
    } else {
      PowAdd(a - 1, b);
    }
  }

  lemma Pow2Of8()
    ensures Pow2(8) == 256
  {}

  lemma WordSizes()
    ensures Pow2(32) == 0x1_0000_0000
    ensures Pow2(64) == 0x1_0000_0000_0000_0000
  {
    hide Pow2;
    Pow2Of8();
    PowAdd(8, 8);
    PowAdd(16, 16);
    PowAdd(32, 32);
  }
}
