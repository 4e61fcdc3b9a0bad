/** Evaluating XXH64 on given inputs: the intermediate words are written down in a record, and one lemma
    checks the record and concludes what the hash is. */
module HashValues {
  import opened Words
  import opened Memory
  import opened WordBits
  import opened Xxh64

  const WORD: nat := 0x1_0000_0000_0000_0000

  /** A product, split at 2^64. */
  datatype Times = Times(quotient: nat, word: bv64) {
    predicate Is(a: nat, p: nat) {
      a * p == quotient * WORD + Value(word)
    }
  }

  /** A word that is rotated by r bits, multiplied by a prime and added to a constant; `hi` are its r
      highest bits and `lo` the others. */
  datatype Mixing = Mixing(hi: nat, lo: nat, product: Times, carry: nat, word: bv64) {
    predicate Is(x: bv64, high: nat, low: nat, p: nat, c: nat) {
      && Value(x) == hi * low + lo && lo < low
      && product.Is(lo * high + hi, p)
      && Value(product.word) + c == carry * WORD + Value(word)
    }
  }

  /** A word exclusive-or'ed with its own highest bits. */
  datatype Folding = Folding(shifted: bv64, rest: nat) {
    predicate Is(x: bv64, p: nat) {
      Value(x) == Value(shifted) * p + rest && rest < p
    }

    function Word(x: bv64): bv64 {
      Combine(x, shifted)
    }
  }

  datatype ShortStep = ShortStep(input: Times, mixing: Mixing)

  datatype LongStep = LongStep(input: Times, round: Mixing, mixing: Mixing)

  datatype Last = Last(first: Folding, second: Times, third: Folding, fourth: Times, fifth: Folding) {
    predicate Is(h: bv64) {
      && first.Is(h, 0x2_0000_0000) && second.Is(Value(first.Word(h)), PRIME64_2)
      && third.Is(second.word, 0x2000_0000) && fourth.Is(Value(third.Word(second.word)), PRIME64_3)
      && fifth.Is(fourth.word, 0x1_0000_0000)
    }

    function Word(): bv64 {
      fifth.Word(fourth.word)
    }
  }

  // ---------- The operations ----------

  lemma TimesIs(t: Times, a: nat, p: nat)
    requires t.Is(a, p)
    ensures Mul(W64, a, p) == Value(t.word)
  {
    hide Value;
    ValueBound(t.word);
    DivUnique(a * p, WORD, t.quotient, Value(t.word));
  }

  lemma RotlIs(x: nat, r: nat, hi: nat, lo: nat, high: nat, low: nat)
    requires r <= 64 && high == Pow2(r) && low == Pow2(64 - r)
    requires x == hi * low + lo && lo < low && x < WORD
    ensures Rotl(W64, x, r) == lo * high + hi
  {
    hide Pow2;
    RotlParts(W64, x, r);
    DivUnique(x, low, hi, lo);
  }

  lemma MixingIs(m: Mixing, x: bv64, r: nat, high: nat, low: nat, p: nat, c: nat)
    requires r <= 64 && high == Pow2(r) && low == Pow2(64 - r) && m.Is(x, high, low, p, c)
    ensures Add(W64, Mul(W64, Rotl(W64, Value(x), r), p), c) == Value(m.word)
    ensures c == 0 ==> Mul(W64, Rotl(W64, Value(x), r), p) == Value(m.word)
  {
    hide Pow2, Value, Rotl, Mul;
    ValueBound(x);
    ValueBound(m.word);
    ValueBound(m.product.word);
    RotlIs(Value(x), r, m.hi, m.lo, high, low);
    TimesIs(m.product, m.lo * high + m.hi, p);
    DivUnique(Value(m.product.word) + c, WORD, m.carry, Value(m.word));
  }

  lemma FoldingIs(f: Folding, x: bv64, k: nat, p: nat)
    requires p == Pow2(k) && f.Is(x, p)
    ensures Xor(Value(x), Shr(Value(x), k)) == Value(f.Word(x))
  {
    hide Value, Combine, Xor, Shr;
    ShrDivides(Value(x), k, p);
    DivUnique(Value(x), p, Value(f.shifted), f.rest);
    XorOfWords(x, f.shifted);
  }

  lemma {:induction false} ShrDivides(x: nat, k: nat, p: nat)
    requires p == Pow2(k)
    ensures Shr(x, k) == x / p
    decreases k
  {
    if k == 0 {
    } else {
      var q := Pow2(k - 1);
      ShrDivides(x / 2, k - 1, q);
      HalvedQuotient(x, q);
    }
  }

  lemma HalvedQuotient(x: nat, q: nat)
    requires q > 0
    ensures x / 2 / q == x / (2 * q)
  {
    var d, m := x / 2 / q, (x / 2) % q;
    assert x / 2 == d * q + m;
    assert d * (2 * q) == 2 * (d * q);
    DivUnique(x, 2 * q, d, 2 * m + x % 2);
  }

  lemma Powers()
    ensures Pow2(11) == 0x800 && Pow2(53) == 0x20_0000_0000_0000
    ensures Pow2(23) == 0x80_0000 && Pow2(41) == 0x200_0000_0000
    ensures Pow2(27) == 0x800_0000 && Pow2(37) == 0x20_0000_0000
    ensures Pow2(31) == 0x8000_0000 && Pow2(33) == 0x2_0000_0000
    ensures Pow2(29) == 0x2000_0000 && Pow2(32) == 0x1_0000_0000
  {
    SmallPowers();
    hide Pow2;
    PowAdd(8, 3);
    PowAdd(11, 8);
    PowAdd(19, 4);
    PowAdd(23, 4);
    PowAdd(27, 2);
    PowAdd(27, 4);
    PowAdd(29, 3);
    PowAdd(29, 4);
    PowAdd(29, 8);
    PowAdd(33, 8);
    PowAdd(31, 11);
    PowAdd(42, 11);
  }

  lemma SmallPowers()
    ensures Pow2(2) == 4 && Pow2(3) == 8 && Pow2(4) == 16 && Pow2(8) == 256
  {}

  // ---------- The steps of the tail ----------

  predicate Is4(t: ShortStep, h: bv64, word: nat) {
    && t.input.Is(word, PRIME64_1)
    && t.mixing.Is(Combine(h, t.input.word), 0x80_0000, 0x200_0000_0000, PRIME64_2, PRIME64_3)
  }

  lemma Step4Is(t: ShortStep, h: bv64, word: nat)
    requires Is4(t, h, word)
    ensures Step4(Value(h), word) == Value(t.mixing.word)
  {
    hide Value, Combine, Mul, Add, Rotl, Xor, Pow2, Mixing.Is, Times.Is;
    Powers();
    TimesIs(t.input, word, PRIME64_1);
    XorOfWords(h, t.input.word);
    MixingIs(t.mixing, Combine(h, t.input.word), 23, 0x80_0000, 0x200_0000_0000, PRIME64_2, PRIME64_3);
  }

  predicate Is1(t: ShortStep, h: bv64, word: nat) {
    && t.input.Is(word, PRIME64_5)
    && t.mixing.Is(Combine(h, t.input.word), 0x800, 0x20_0000_0000_0000, PRIME64_1, 0)
  }

  lemma Step1Is(t: ShortStep, h: bv64, word: nat)
    requires Is1(t, h, word)
    ensures Step1(Value(h), word) == Value(t.mixing.word)
  {
    hide Value, Combine, Mul, Add, Rotl, Xor, Pow2, Mixing.Is, Times.Is;
    Powers();
    TimesIs(t.input, word, PRIME64_5);
    XorOfWords(h, t.input.word);
    MixingIs(t.mixing, Combine(h, t.input.word), 11, 0x800, 0x20_0000_0000_0000, PRIME64_1, 0);
  }

  predicate Is8(t: LongStep, h: bv64, word: nat) {
    && t.input.Is(word, PRIME64_2)
    && t.round.Is(t.input.word, 0x8000_0000, 0x2_0000_0000, PRIME64_1, 0)
    && t.mixing.Is(Combine(h, t.round.word), 0x800_0000, 0x20_0000_0000, PRIME64_1, PRIME64_4)
  }

  lemma Step8Is(t: LongStep, h: bv64, word: nat)
    requires Is8(t, h, word)
    ensures Step8(Value(h), word) == Value(t.mixing.word)
  {
    hide Value, Combine, Mul, Add, Rotl, Xor, Pow2, Mixing.Is, Times.Is;
    Powers();
    TimesIs(t.input, word, PRIME64_2);
    AddNothing(t.input.word);
    MixingIs(t.round, t.input.word, 31, 0x8000_0000, 0x2_0000_0000, PRIME64_1, 0);
    XorOfWords(h, t.round.word);
    MixingIs(t.mixing, Combine(h, t.round.word), 27, 0x800_0000, 0x20_0000_0000, PRIME64_1, PRIME64_4);
  }

  lemma AddNothing(x: bv64)
    ensures Add(W64, 0, Value(x)) == Value(x)
  {
    hide Value;
    ValueBound(x);
  }

  lemma LastIs(t: Last, h: bv64)
    requires t.Is(h)
    ensures Avalanche(Value(h)) == Value(t.Word())
  {
    hide Value, Combine, Mul, Xor, Shr, Pow2, Folding.Is, Folding.Word, Times.Is;
    Powers();
    FoldingIs(t.first, h, 33, 0x2_0000_0000);
    TimesIs(t.second, Value(t.first.Word(h)), PRIME64_2);
    FoldingIs(t.third, t.second.word, 29, 0x2000_0000);
    TimesIs(t.fourth, Value(t.third.Word(t.second.word)), PRIME64_3);
    FoldingIs(t.fifth, t.fourth.word, 32, 0x1_0000_0000);
  }

  // ---------- Whole inputs ----------

  /** The running hash before the first step of an input of n bytes, with seed 0. */
  lemma Start(n: nat, h: bv64)
    requires n < 32 && Value(h) == PRIME64_5 + n
    ensures Add(W64, Add(W64, 0, PRIME64_5), n) == Value(h)
  {
    hide Value;
  }

  lemma {:induction false} LEIs(s: seq<byte>)
    requires s != []
    ensures LE(s) == Val(s[0]) + 256 * LE(s[1..])
  {
    hide Val;
  }

  function Word4(s: seq<byte>): nat
    requires |s| >= 4
  {
    Val(s[0]) + 0x100 * Val(s[1]) + 0x1_0000 * Val(s[2]) + 0x100_0000 * Val(s[3])
  }

  lemma Word4Is(s: seq<byte>)
    requires |s| >= 4
    ensures LE(s[..4]) == Word4(s)
  {
    hide Val, LE;
    var t := s[..4];
    LEIs(t);
    LEIs(t[1..]);
    LEIs(t[2..]);
    LEIs(t[3..]);
    assert t[1..][1..] == t[2..] && t[2..][1..] == t[3..] && t[3..][1..] == [];
    LENone();
  }

  lemma LENone()
    ensures LE([]) == 0
  {}

  function Word8(s: seq<byte>): nat
    requires |s| >= 8
  {
    Word4(s) + 0x1_0000_0000 * Word4(s[4..])
  }

  lemma Word8Is(s: seq<byte>)
    requires |s| >= 8
    ensures LE(s[..8]) == Word8(s)
  {
    hide Val, LE;
    var t := s[..8];
    LEIs(t);
    LEIs(t[1..]);
    LEIs(t[2..]);
    LEIs(t[3..]);
    Word4Is(s[4..]);
    assert t[1..][1..] == t[2..] && t[2..][1..] == t[3..] && t[3..][1..] == s[4..][..4];
  }

  lemma FourBytes(s: seq<byte>, start: bv64, four: ShortStep, last: Last)
    requires |s| == 4 && Value(start) == PRIME64_5 + 4
    requires Is4(four, start, Word4(s)) && last.Is(four.mixing.word)
    ensures Hash(0, s) == Value(last.Word())
  {
    hide Value, Word4, Is4, Last.Is, Last.Word, Step8, Step4, Step1, Avalanche, LE, Add;
    Start(4, start);
    Word4Is(s);
    Step4Is(four, start, Word4(s));
    LastIs(last, four.mixing.word);
    assert s[4..] == [];
    var h := Step4(Value(start), LE(s[..4]));
    assert Tail(h, s[4..]) == h;
  }

  lemma FiveBytes(s: seq<byte>, start: bv64, four: ShortStep, one: ShortStep, last: Last)
    requires |s| == 5 && Value(start) == PRIME64_5 + 5
    requires Is4(four, start, Word4(s)) && Is1(one, four.mixing.word, Val(s[4])) && last.Is(one.mixing.word)
    ensures Hash(0, s) == Value(last.Word())
  {
    hide Value, Word4, Is4, Is1, Last.Is, Last.Word, Step8, Step4, Step1, Avalanche, LE, Add;
    Start(5, start);
    Word4Is(s);
    Step4Is(four, start, Word4(s));
    Step1Is(one, four.mixing.word, Val(s[4]));
    LastIs(last, one.mixing.word);
    assert s[4..][0] == s[4] && s[4..][1..] == [];
    var h := Step4(Value(start), LE(s[..4]));
    assert Tail(h, s[4..]) == Tail(Step1(h, s[4] as nat), []);
  }

  predicate Is16(v: nat, w: nat, start: bv64, first: LongStep, second: LongStep, last: Last) {
    Is8(first, start, v) && Is8(second, first.mixing.word, w) && last.Is(second.mixing.word)
  }

  lemma SixteenBytes(s: seq<byte>, t: seq<byte>, start: bv64, first: LongStep, second: LongStep, last: Last)
    requires |s| == |t| == 8 && Value(start) == PRIME64_5 + 16
    requires Is16(Word8(s), Word8(t), start, first, second, last)
    ensures Hash(0, s + t) == Value(last.Word())
  {
    hide Value, Word8, Is8, Last.Is, Last.Word, Step8, Step4, Step1, Avalanche, LE, Add;
    Start(16, start);
    assert s[..8] == s && t[..8] == t;
    Word8Is(s);
    Word8Is(t);
    Step8Is(first, start, Word8(s));
    Step8Is(second, first.mixing.word, Word8(t));
    LastIs(last, second.mixing.word);
    var h := Step8(Value(start), LE(s));
    var g := Step8(h, LE(t));
    assert (s + t)[..8] == s && (s + t)[8..] == t && t[8..] == [];
    assert Tail(g, []) == g;
    assert Tail(h, t) == g;
  }
}
