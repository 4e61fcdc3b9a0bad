/** Machine words as bit-vectors and the numbers they hold. */
module WordBits {
  import opened Words
  import opened Memory

  function Value(a: bv64): nat {
    a as nat
  }

  function Half(a: bv64): bv64 {
    a >> 1
  }

  predicate Odd(a: bv64) {
    a & 1 == 1
  }

  function Combine(a: bv64, b: bv64): bv64 {
    a ^ b
  }

  /** The word with one more bit at its low end. */
  function Join(h: bv64, odd: bool): bv64 {
    (h << 1) | (if odd then 1 else 0)
  }

  lemma Parts(a: bv64)
    ensures a == Join(Half(a), Odd(a))
  {}

  /** There is room for another bit. */
  predicate Small(a: bv64) {
    a < 0x8000_0000_0000_0000
  }

  lemma HalfIsSmall(a: bv64)
    ensures Small(Half(a))
  {}

  lemma JoinValue(h: bv64, odd: bool)
    requires Small(h)
    ensures Value(Join(h, odd)) == 2 * Value(h) + Bit(odd)
  {
    hide Small;
    if odd {
      JoinOne(h);
    } else {
      JoinZero(h);
    }
  }

  lemma JoinZero(h: bv64)
    requires Small(h)
    ensures Value((h << 1) | 0) == 2 * Value(h)
  {}

  lemma JoinOne(h: bv64)
    requires Small(h)
    ensures Value((h << 1) | 1) == 2 * Value(h) + 1
  {}

  lemma Halve(a: bv64)
    ensures Value(a) == 2 * Value(Half(a)) + Bit(Odd(a))
  {
    hide Value, Half, Odd, Join, Small;
    Parts(a);
    HalfIsSmall(a);
    JoinValue(Half(a), Odd(a));
  }

  // ---------- Exclusive-or ----------

  lemma HalveCombine(a: bv64, b: bv64)
    ensures Half(Combine(a, b)) == Combine(Half(a), Half(b))
    ensures Odd(Combine(a, b)) <==> Odd(a) != Odd(b)
  {}

  lemma {:induction false} XorBelow(a: bv64, b: bv64, n: nat)
    requires Value(a) < Pow2(n) && Value(b) < Pow2(n)
    ensures Xor(Value(a), Value(b)) == Value(Combine(a, b))
    decreases n
  {
    hide Xor, Value, Half, Odd, Combine;
    if n == 0 {
      XorZero();
      CombineZero(a, b);
    } else {
      Halve(a);
      Halve(b);
      Halve(Combine(a, b));
      HalveCombine(a, b);
      XorBelow(Half(a), Half(b), n - 1);
      XorBit(Value(a), Value(b), Value(Half(a)), Value(Half(b)), Odd(a), Odd(b), Value(Combine(Half(a), Half(b))));
    }
  }

  lemma XorBit(x: nat, y: nat, u: nat, v: nat, i: bool, j: bool, r: nat)
    requires x == 2 * u + Bit(i) && y == 2 * v + Bit(j) && r == Xor(u, v)
    ensures Xor(x, y) == 2 * r + Bit(i != j)
  {
    XorStep(x, y);
    hide Xor;
    assert x / 2 == u && y / 2 == v;
  }

  lemma CombineZero(a: bv64, b: bv64)
    requires Value(a) == 0 && Value(b) == 0
    ensures Value(Combine(a, b)) == 0
  {
    hide Value;
    ZeroWord(a);
    ZeroWord(b);
  }

  lemma ZeroWord(a: bv64)
    ensures Value(a) == 0 <==> a == 0
  {}

  lemma ValueBound(a: bv64)
    ensures Value(a) < 0x1_0000_0000_0000_0000
  {}

  /** Xor on numbers is the exclusive-or of the words that hold them. */
  lemma XorOfWords(a: bv64, b: bv64)
    ensures Xor(Value(a), Value(b)) == Value(Combine(a, b))
  {
    hide Xor, Value, Combine, Pow2;
    WordSizes();
    ValueBound(a);
    ValueBound(b);
    XorBelow(a, b, 64);
  }

  // ---------- Words made of bytes ----------

  function Append(x: bv64, b: byte): bv64 {
    (x << 8) | (b as bv64)
  }

  predicate ByteBit(b: byte, i: nat)
    requires i < 8
  {
    b & (if i == 7 then 0x80 else if i == 6 then 0x40 else if i == 5 then 0x20 else if i == 4 then 0x10
         else if i == 3 then 8 else if i == 2 then 4 else if i == 1 then 2 else 1) != 0
  }

  function JoinFour(x: bv64, i: bool, j: bool, k: bool, l: bool): bv64 {
    Join(Join(Join(Join(x, i), j), k), l)
  }

  lemma AppendBits(x: bv64, b: byte)
    ensures Append(x, b)
         == JoinFour(JoinFour(x, ByteBit(b, 7), ByteBit(b, 6), ByteBit(b, 5), ByteBit(b, 4)),
                     ByteBit(b, 3), ByteBit(b, 2), ByteBit(b, 1), ByteBit(b, 0))
  {}

  lemma ByteBits(b: byte)
    ensures Val(b) == 128 * Bit(ByteBit(b, 7)) + 64 * Bit(ByteBit(b, 6)) + 32 * Bit(ByteBit(b, 5))
                    + 16 * Bit(ByteBit(b, 4)) + 8 * Bit(ByteBit(b, 3)) + 4 * Bit(ByteBit(b, 2))
                    + 2 * Bit(ByteBit(b, 1)) + Bit(ByteBit(b, 0))
  {}

  lemma SmallByValue(a: bv64)
    requires Value(a) < 0x8000_0000_0000_0000
    ensures Small(a)
  {}

  lemma JoinNumber(h: bv64, odd: bool)
    requires Value(h) < 0x8000_0000_0000_0000
    ensures Value(Join(h, odd)) == 2 * Value(h) + Bit(odd)
  {
    hide Value, Join, Small;
    SmallByValue(h);
    JoinValue(h, odd);
  }

  lemma FourBits(x: bv64, i: bool, j: bool, k: bool, l: bool)
    requires Value(x) < 0x1000_0000_0000_0000
    ensures Value(JoinFour(x, i, j, k, l)) == 16 * Value(x) + 8 * Bit(i) + 4 * Bit(j) + 2 * Bit(k) + Bit(l)
  {
    hide Value, Join;
    JoinNumber(x, i);
    JoinNumber(Join(x, i), j);
    JoinNumber(Join(Join(x, i), j), k);
    JoinNumber(Join(Join(Join(x, i), j), k), l);
  }

  lemma AppendValue(x: bv64, b: byte)
    requires Value(x) < 0x100_0000_0000_0000
    ensures Value(Append(x, b)) == 256 * Value(x) + Val(b)
  {
    AppendBits(x, b);
    ByteBits(b);
    hide Value, Join, JoinFour, Append, Val;
    var y := JoinFour(x, ByteBit(b, 7), ByteBit(b, 6), ByteBit(b, 5), ByteBit(b, 4));
    hide ByteBit, Bit;
    FourBits(x, ByteBit(b, 7), ByteBit(b, 6), ByteBit(b, 5), ByteBit(b, 4));
    FourBits(y, ByteBit(b, 3), ByteBit(b, 2), ByteBit(b, 1), ByteBit(b, 0));
  }
}
