/** XXH64 loses no information inside one step of its tail: every mixing operation of
    src/xxhash.c:672-808 is injective on 64-bit words, so inputs that differ within one step have
    different hashes, whatever precedes and follows that step. */
module Xxh64Injective {
  import opened Words
  import opened Memory
  import opened Xxh64
  import Stripes

  // ---------- Each operation of the tail is injective ----------

  /** Multiplication by any of the primes cancels: each has an inverse modulo 2^64. */
  lemma MulCancels(a: nat, b: nat, p: int)
    requires a < W64.Modulus() && b < W64.Modulus()
    requires p == PRIME64_1 || p == PRIME64_2 || p == PRIME64_3 || p == PRIME64_5
    requires Mul(W64, a, p) == Mul(W64, b, p)
    ensures a == b
  {
    var m := W64.Modulus();
    if p == PRIME64_1 {
      MulInjective(m, p, 614540362697595703, 379806830464837242, a, b);
    } else if p == PRIME64_2 {
      MulInjective(m, p, 839798700976720815, 638699622168397319, a, b);
    } else if p == PRIME64_3 {
      MulInjective(m, p, 16855272203555305545, 1470722560960728959, a, b);
    } else {
      MulInjective(m, p, 14236653164957433613, 2215118327355546487, a, b);
    }
  }

  lemma XorWord(a: nat, b: nat)
    requires a < W64.Modulus() && b < W64.Modulus()
    ensures Xor(a, b) < W64.Modulus()
  {
    hide Pow2, Xor;
    WordSizes();
    XorBound(a, b, 64);
  }

  lemma XorShiftWord(a: nat, k: nat)
    requires a < W64.Modulus()
    ensures Xor(a, Shr(a, k)) < W64.Modulus()
  {
    hide Xor, Shr;
    ShrShrinks(a, k);
    XorWord(a, Shr(a, k));
  }

  lemma AddCancels(a: nat, b: nat, c: int)
    requires a < W64.Modulus() && b < W64.Modulus()
    requires Add(W64, a, c) == Add(W64, b, c) || Add(W64, c, a) == Add(W64, c, b)
    ensures a == b
  {
    assert a + c == c + a && b + c == c + b;
    AddInjective(W64.Modulus(), c, a, b);
  }

  lemma RotlWord(a: nat, r: nat)
    requires a < W64.Modulus() && r <= 64
    ensures Rotl(W64, a, r) < W64.Modulus()
  {
    RotlParts(W64, a, r);
  }

  /** XXH64_round determines its input word. */
  lemma RoundInjective(acc: nat, a: nat, b: nat)
    requires a < W64.Modulus() && b < W64.Modulus()
    requires Round(acc, a) == Round(acc, b)
    ensures a == b
  {
    hide Rotl, Mul, Add;
    var x, y := Mul(W64, a, PRIME64_2), Mul(W64, b, PRIME64_2);
    RotlWord(Add(W64, acc, x), 31);
    RotlWord(Add(W64, acc, y), 31);
    MulCancels(Rotl(W64, Add(W64, acc, x), 31), Rotl(W64, Add(W64, acc, y), 31), PRIME64_1);
    RotlInjective(W64, Add(W64, acc, x), Add(W64, acc, y), 31);
    AddCancels(x, y, acc);
    MulCancels(a, b, PRIME64_2);
  }

  lemma XorShiftMulCancels(h: nat, g: nat, k: nat, p: int)
    requires h < W64.Modulus() && g < W64.Modulus() && k > 0
    requires p == PRIME64_1 || p == PRIME64_2 || p == PRIME64_3 || p == PRIME64_5
    requires Mul(W64, Xor(h, Shr(h, k)), p) == Mul(W64, Xor(g, Shr(g, k)), p)
    ensures h == g
  {
    hide Mul, Xor, Shr;
    XorShiftWord(h, k);
    XorShiftWord(g, k);
    MulCancels(Xor(h, Shr(h, k)), Xor(g, Shr(g, k)), p);
    XorShiftInjective(h, g, k);
  }

  /** XXH64_avalanche determines the word it mixes. */
  lemma AvalancheInjective(h: nat, g: nat)
    requires h < W64.Modulus() && g < W64.Modulus()
    requires Avalanche(h) == Avalanche(g)
    ensures h == g
  {
    hide Mul, Xor, Shr;
    var a, c := Mul(W64, Xor(h, Shr(h, 33)), PRIME64_2), Mul(W64, Xor(g, Shr(g, 33)), PRIME64_2);
    var b, d := Mul(W64, Xor(a, Shr(a, 29)), PRIME64_3), Mul(W64, Xor(c, Shr(c, 29)), PRIME64_3);
    XorShiftInjective(b, d, 32);
    XorShiftMulCancels(a, c, 29, PRIME64_3);
    XorShiftMulCancels(h, g, 33, PRIME64_2);
  }

  /** What the three steps share: xor in a word, rotate, multiply by a prime. */
  lemma MixInjective(h: nat, g: nat, x: nat, y: nat, r: nat, p: int)
    requires h < W64.Modulus() && g < W64.Modulus() && x < W64.Modulus() && y < W64.Modulus() && r <= 64
    requires p == PRIME64_1 || p == PRIME64_2 || p == PRIME64_3 || p == PRIME64_5
    requires Mul(W64, Rotl(W64, Xor(h, x), r), p) == Mul(W64, Rotl(W64, Xor(g, y), r), p)
    ensures h == g ==> x == y
    ensures x == y ==> h == g
  {
    hide Rotl, Mul, Xor;
    XorWord(h, x);
    XorWord(g, y);
    RotlWord(Xor(h, x), r);
    RotlWord(Xor(g, y), r);
    MulCancels(Rotl(W64, Xor(h, x), r), Rotl(W64, Xor(g, y), r), p);
    RotlInjective(W64, Xor(h, x), Xor(g, y), r);
    if h == g {
      XorInjective(x, y, h);
    }
    if x == y {
      XorInjective(h, g, x);
    }
  }

  /** Each step determines the hash when the word is known, and the word when the hash is known. */
  lemma Step8Injective(h: nat, g: nat, a: nat, b: nat)
    requires h < W64.Modulus() && g < W64.Modulus() && a < W64.Modulus() && b < W64.Modulus()
    requires Step8(h, a) == Step8(g, b)
    ensures h == g <==> a == b
  {
    hide Rotl, Mul, Xor, Add;
    var x := Mul(W64, Rotl(W64, Xor(h, Round(0, a)), 27), PRIME64_1);
    var y := Mul(W64, Rotl(W64, Xor(g, Round(0, b)), 27), PRIME64_1);
    AddCancels(x, y, PRIME64_4);
    MixInjective(h, g, Round(0, a), Round(0, b), 27, PRIME64_1);
    if h == g {
      RoundInjective(0, a, b);
    }
  }

  lemma Step4Injective(h: nat, g: nat, a: nat, b: nat)
    requires h < W64.Modulus() && g < W64.Modulus() && a < W64.Modulus() && b < W64.Modulus()
    requires Step4(h, a) == Step4(g, b)
    ensures h == g <==> a == b
  {
    hide Rotl, Mul, Xor, Add;
    var v, w := Mul(W64, a, PRIME64_1), Mul(W64, b, PRIME64_1);
    var x, y := Mul(W64, Rotl(W64, Xor(h, v), 23), PRIME64_2), Mul(W64, Rotl(W64, Xor(g, w), 23), PRIME64_2);
    AddCancels(x, y, PRIME64_3);
    MixInjective(h, g, v, w, 23, PRIME64_2);
    if h == g {
      MulCancels(a, b, PRIME64_1);
    }
  }

  lemma Step1Injective(h: nat, g: nat, a: nat, b: nat)
    requires h < W64.Modulus() && g < W64.Modulus() && a < W64.Modulus() && b < W64.Modulus()
    requires Step1(h, a) == Step1(g, b)
    ensures h == g <==> a == b
  {
    hide Rotl, Mul, Xor, Add;
    MixInjective(h, g, Mul(W64, a, PRIME64_5), Mul(W64, b, PRIME64_5), 11, PRIME64_1);
    if h == g {
      MulCancels(a, b, PRIME64_5);
    }
  }

  lemma WordBytes(s: seq<byte>)
    requires |s| <= 8
    ensures LE(s) < W64.Modulus()
  {
    hide LE, Pow256;
    LEBound(s);
    SmallPowers(|s|);
  }

  lemma SmallPowers(n: nat)
    requires n <= 8
    ensures Pow256(n) <= W64.Modulus()
    decreases 8 - n
  {
    if n < 8 {
      SmallPowers(n + 1);
      assert Pow256(n + 1) == 256 * Pow256(n);
    } else {
      assert Pow256(4) == 0x1_0000_0000;
      assert Pow256(8) == W64.Modulus();
    }
  }

  // ---------- The whole tail ----------

  /** Whatever bytes follow, the tail keeps different hashes apart. */
  lemma {:induction false} TailInjective(h: nat, g: nat, s: seq<byte>)
    requires h < W64.Modulus() && g < W64.Modulus()
    requires Tail(h, s) == Tail(g, s)
    ensures h == g
    decreases |s|
  {
    hide Step8, Step4, Step1, LE;
    if |s| >= 8 {
      var k := LE(s[..8]);
      WordBytes(s[..8]);
      StepWord(h, g, k);
      TailInjective(Step8(h, k), Step8(g, k), s[8..]);
      Step8Injective(h, g, k, k);
    } else if |s| >= 4 {
      var k := LE(s[..4]);
      WordBytes(s[..4]);
      StepWord(h, g, k);
      TailInjective(Step4(h, k), Step4(g, k), s[4..]);
      Step4Injective(h, g, k, k);
    } else if |s| >= 1 {
      var k := s[0] as nat;
      StepWord(h, g, k);
      TailInjective(Step1(h, k), Step1(g, k), s[1..]);
      Step1Injective(h, g, k, k);
    }
  }

  lemma StepWord(h: nat, g: nat, k: nat)
    ensures Step8(h, k) < W64.Modulus() && Step8(g, k) < W64.Modulus()
    ensures Step4(h, k) < W64.Modulus() && Step4(g, k) < W64.Modulus()
    ensures Step1(h, k) < W64.Modulus() && Step1(g, k) < W64.Modulus()
  {
    hide Rotl, Mul, Xor, Add;
  }

  /** The bytes [i, i + n) of a tail of the given length are what one step of XXH64_finalize reads. */
  ghost predicate IsStep(length: nat, i: nat, n: nat) {
    && i + n <= length
    && (|| (n == 8 && i % 8 == 0)
        || (n == 4 && length - i == length % 8)
        || (n == 1 && length - i <= length % 4))
  }

  ghost predicate DifferOnly(s: seq<byte>, t: seq<byte>, i: nat, n: nat) {
    && |s| == |t| && i + n <= |s|
    && s[..i] == t[..i] && s[i + n..] == t[i + n..] && s[i..i + n] != t[i..i + n]
  }

  /** The tail is one step and the tail of the rest. */
  lemma TailStep(h: nat, s: seq<byte>)
    requires s != []
    ensures Tail(h, s) == if |s| >= 8 then Tail(Step8(h, LE(s[..8])), s[8..])
                          else if |s| >= 4 then Tail(Step4(h, LE(s[..4])), s[4..])
                          else Tail(Step1(h, s[0] as nat), s[1..])
  {}

  lemma SameFirstByte(s: seq<byte>, t: seq<byte>, i: nat, n: nat)
    requires DifferOnly(s, t, i, n) && i > 0
    ensures |s| == |t| > 0 && i <= |s| && s[0] == t[0]
  {
    assert s[0] == s[..i][0] && t[0] == t[..i][0];
  }

  /** Where the first step reads the same bytes, the tails are those of the rests from the same hash. */
  lemma SameFirstStep(h: nat, s: seq<byte>, t: seq<byte>, i: nat, n: nat) returns (g: nat, m: nat)
    requires DifferOnly(s, t, i, n) && IsStep(|s|, i, n) && i > 0
    ensures 0 < m <= i && m <= |s| == |t| && g < W64.Modulus()
    ensures DifferOnly(s[m..], t[m..], i - m, n) && IsStep(|s[m..]|, i - m, n)
    ensures Tail(h, s) == Tail(g, s[m..]) && Tail(h, t) == Tail(g, t[m..])
  {
    hide Step8, Step4, Step1, LE, Tail, IsStep, DifferOnly;
    SameFirstByte(s, t, i, n);
    m := if |s| >= 8 then 8 else if |s| >= 4 then 4 else 1;
    LaterStep(|s|, i, n, m);
    DropPrefix(s, t, i, n, m);
    TailStep(h, s);
    TailStep(h, t);
    var k := if m == 1 then s[0] as nat else LE(s[..m]);
    StepWord(h, h, k);
    g := if m == 8 then Step8(h, k) else if m == 4 then Step4(h, k) else Step1(h, k);
  }

  lemma {:induction false} TailSeparates(h: nat, s: seq<byte>, t: seq<byte>, i: nat, n: nat)
    requires h < W64.Modulus()
    requires DifferOnly(s, t, i, n) && IsStep(|s|, i, n)
    ensures Tail(h, s) != Tail(h, t)
    decreases |s|
  {
    hide Tail, IsStep, DifferOnly;
    if i == 0 {
      FirstStepSeparates(h, s, t, n);
    } else {
      var g, m := SameFirstStep(h, s, t, i, n);
      TailSeparates(g, s[m..], t[m..], i - m, n);
    }
  }

  /** A common prefix can be dropped. */
  lemma DropPrefix(s: seq<byte>, t: seq<byte>, i: nat, n: nat, m: nat)
    requires DifferOnly(s, t, i, n) && m <= i
    ensures s[..m] == t[..m]
    ensures DifferOnly(s[m..], t[m..], i - m, n)
  {
    SliceTail(s, i, n, m);
    SliceTail(t, i, n, m);
  }

  lemma SliceTail(s: seq<byte>, i: nat, n: nat, m: nat)
    requires m <= i && i + n <= |s|
    ensures s[..m] == s[..i][..m]
    ensures s[m..][..i - m] == s[..i][m..]
    ensures s[m..][i - m + n..] == s[i + n..]
    ensures s[m..][i - m..i - m + n] == s[i..i + n]
  {}

  /** A step that is not the first is a step of what the first leaves. */
  lemma LaterStep(length: nat, i: nat, n: nat, m: nat)
    requires IsStep(length, i, n) && i > 0
    requires m == if length >= 8 then 8 else if length >= 4 then 4 else 1
    ensures m <= i && IsStep(length - m, i - m, n)
  {
    if length >= 8 {
      Stripes.ModStep(length, 8);
      Stripes.ModStep(length, 4);
      Stripes.ModStep(length - 4, 4);
      Stripes.ModStep(i, 8);
      MultipleOf8(i);
    } else if length >= 4 {
      DivUnique(length, 8, 0, length);
      Stripes.ModStep(length, 4);
      DivUnique(length - 4, 4, 0, length - 4);
      MultipleOf8(i);
    } else {
      DivUnique(length, 8, 0, length);
      DivUnique(length, 4, 0, length);
      DivUnique(length - 1, 4, 0, length - 1);
      MultipleOf8(i);
    }
  }

  lemma MultipleOf8(i: nat)
    ensures i % 8 == 0 && i > 0 ==> i >= 8
  {}

  lemma FirstStepSeparates(h: nat, s: seq<byte>, t: seq<byte>, n: nat)
    requires h < W64.Modulus()
    requires DifferOnly(s, t, 0, n) && IsStep(|s|, 0, n)
    ensures Tail(h, s) != Tail(h, t)
  {
    hide Step8, Step4, Step1, LE;
    assert s[0..n] == s[..n] && t[0..n] == t[..n];
    assert s[0 + n..] == s[n..] && t[0 + n..] == t[n..];
    if n == 1 {
      assert s[..1] == [s[0]] && t[..1] == [t[0]];
      var a, b := s[0] as nat, t[0] as nat;
      assert a != b;
      StepWord(h, h, a);
      StepWord(h, h, b);
      if Tail(h, s) == Tail(h, t) {
        TailInjective(Step1(h, a), Step1(h, b), s[1..]);
        Step1Injective(h, h, a, b);
      }
    } else {
      var a, b := LE(s[..n]), LE(t[..n]);
      if a == b {
        LEInjective(s[..n], t[..n]);
      }
      WordBytes(s[..n]);
      WordBytes(t[..n]);
      StepWord(h, h, a);
      StepWord(h, h, b);
      if Tail(h, s) == Tail(h, t) {
        if n == 8 {
          TailInjective(Step8(h, a), Step8(h, b), s[8..]);
          Step8Injective(h, h, a, b);
        } else {
          TailInjective(Step4(h, a), Step4(h, b), s[4..]);
          Step4Injective(h, h, a, b);
        }
      }
    }
  }

  // ---------- Whole hashes ----------

  /** Inputs of equal length that differ only inside one step of the tail never collide. */
  lemma NoCollisionInsideStep(seed: nat, s: seq<byte>, t: seq<byte>, i: nat, n: nat)
    requires i >= |s| - |s| % 32 && DifferOnly(s, t, i, n)
    requires IsStep(|s| % 32, i - (|s| - |s| % 32), n)
    ensures Hash(seed, s) != Hash(seed, t)
  {
    hide Stripe, Init, Converge, Avalanche, Tail, Add;
    var base := |s| - |s| % 32;
    DropPrefix(s, t, i, n, base);
    SameStripes(Init(seed), s, t);
    var u, v := s[base..], t[base..];
    var h := Add(W64, if |s| >= 32 then Converge(Consumed(seed, s)) else Add(W64, seed, PRIME64_5), |s|);
    TailSeparates(h, u, v, i - base, n);
    TailWord(h, u);
    TailWord(h, v);
    if Avalanche(Tail(h, u)) == Avalanche(Tail(h, v)) {
      AvalancheInjective(Tail(h, u), Tail(h, v));
    }
  }

  /** Consumed stripes and the remainder, for inputs that agree on every whole stripe. */
  lemma {:induction false} SameStripes(acc: Lanes, s: seq<byte>, t: seq<byte>)
    requires |s| == |t|
    requires s[..|s| - |s| % 32] == t[..|s| - |s| % 32]
    ensures Stripes.Fold(Stripe, 32, acc, s) == Stripes.Fold(Stripe, 32, acc, t)
    ensures Stripes.Rest(32, s) == s[|s| - |s| % 32..]
    ensures Stripes.Rest(32, t) == t[|s| - |s| % 32..]
    decreases |s|
  {
    hide Stripe;
    if |s| < 32 {
    } else {
      var base := |s| - |s| % 32;
      Stripes.ModStep(|s|, 32);
      assert |s| % 32 < 32;
      assert s[..32] == s[..base][..32] && t[..32] == t[..base][..32];
      assert s[32..][..base - 32] == s[..base][32..] && t[32..][..base - 32] == t[..base][32..];
      SameStripes(Stripe(acc, s[..32]), s[32..], t[32..]);
    }
  }

  lemma {:induction false} TailWord(h: nat, s: seq<byte>)
    requires h < W64.Modulus()
    ensures Tail(h, s) < W64.Modulus()
    decreases |s|
  {
    hide Step8, Step4, Step1, LE;
    if |s| >= 8 {
      StepWord(h, h, LE(s[..8]));
      TailWord(Step8(h, LE(s[..8])), s[8..]);
    } else if |s| >= 4 {
      StepWord(h, h, LE(s[..4]));
      TailWord(Step4(h, LE(s[..4])), s[4..]);
    } else if |s| >= 1 {
      StepWord(h, h, s[0] as nat);
      TailWord(Step1(h, s[0] as nat), s[1..]);
    }
  }

  /** XXH64 is injective on keys of eight bytes, of four bytes and of one byte. */
  lemma NoCollisionSmallKeys(seed: nat, s: seq<byte>, t: seq<byte>)
    requires |s| == |t| && |s| in {1, 4, 8}
    ensures Hash(seed, s) == Hash(seed, t) <==> s == t
  {
    hide Hash;
    if s != t {
      assert s[0..|s|] == s && t[0..|t|] == t;
      NoCollisionInsideStep(seed, s, t, 0, |s|);
    }
  }

  /** An input shorter than a stripe has a different hash under every seed. */
  lemma NoCollisionAcrossSeeds(seed: nat, seed': nat, s: seq<byte>)
    requires seed < W64.Modulus() && seed' < W64.Modulus() && |s| < 32
    ensures Hash(seed, s) == Hash(seed', s) <==> seed == seed'
  {
    hide Avalanche, Tail, Add;
    var h, g := Add(W64, Add(W64, seed, PRIME64_5), |s|), Add(W64, Add(W64, seed', PRIME64_5), |s|);
    TailWord(h, s);
    TailWord(g, s);
    if Hash(seed, s) == Hash(seed', s) {
      AvalancheInjective(Tail(h, s), Tail(g, s));
      TailInjective(h, g, s);
      AddCancels(Add(W64, seed, PRIME64_5), Add(W64, seed', PRIME64_5), |s|);
      AddCancels(seed, seed', PRIME64_5);
    }
  }

  /** The digest of a stream is its one-shot digest exactly where the total is judged rightly, or where
      the accumulators happen to converge to what is taken for a short input instead. */
  lemma DigestExactly(seed: nat, s: seq<byte>)
    requires seed < W64.Modulus()
    ensures DigestOf(seed, s) == Hash(seed, s)
       <==> || |s| < 32
            || |s| % W64.Modulus() >= 32
            || Converge(Consumed(seed, s)) == Add(W64, Consumed(seed, s).v3, PRIME64_5)
  {
    hide Avalanche, Tail, Add, Converge, Stripe;
    DigestIsHash(seed, s);
    if |s| >= 32 && |s| % W64.Modulus() < 32 && DigestOf(seed, s) == Hash(seed, s) {
      var g, h := Converge(Consumed(seed, s)), Add(W64, Consumed(seed, s).v3, PRIME64_5);
      var rest := Stripes.Rest(32, s);
      TailWord(Add(W64, g, |s|), rest);
      TailWord(Add(W64, h, |s|), rest);
      AvalancheInjective(Tail(Add(W64, g, |s|), rest), Tail(Add(W64, h, |s|), rest));
      TailInjective(Add(W64, g, |s|), Add(W64, h, |s|), rest);
      ConvergedWord(Consumed(seed, s));
      AddCancels(g, h, |s|);
    }
  }

  lemma ConvergedWord(acc: Lanes)
    ensures Converge(acc) < W64.Modulus()
  {
    hide Rotl, Xor, Mul, Add;
  }

  // ---------- A wrong digest ----------

  /** For every accumulator there is an input word that makes it 0. */
  lemma ClearingWord(v: nat) returns (x: nat)
    ensures x < W64.Modulus() && Round(v, x) == 0
  {
    var m := W64.Modulus();
    var y := m - v % m;
    var q, k := 839798700976720815, 638699622168397319;
    x := y * q % m;
    var a := y * q / m;
    assert y * q == a * m + x;
    Cleared(x, y, q, k, a, m);
    Congruent(x * PRIME64_2, y, y * k - a * PRIME64_2, m);
    assert Mul(W64, x, PRIME64_2) == y % m;
    NegationCancels(v, m);
    hide Mul;
    assert Add(W64, v, Mul(W64, x, PRIME64_2)) == 0;
    RoundOfZero();
  }

  lemma Cleared(x: int, y: int, q: int, k: int, a: int, m: int)
    requires PRIME64_2 * q == k * m + 1 && y * q == a * m + x
    ensures x * PRIME64_2 == y + (y * k - a * PRIME64_2) * m
  {
    calc {
      x * PRIME64_2;
      (y * q - a * m) * PRIME64_2;
      y * (PRIME64_2 * q) - a * m * PRIME64_2;
      y * (k * m + 1) - a * m * PRIME64_2;
      y + (y * k - a * PRIME64_2) * m;
    }
  }

  lemma Congruent(a: int, b: int, k: int, m: int)
    requires m > 0 && a == b + k * m
    ensures a % m == b % m
  {
    var q, r := b / m, b % m;
    assert a == (q + k) * m + r;
    DivUnique(a, m, q + k, r);
  }

  lemma NegationCancels(v: nat, m: nat)
    requires m == W64.Modulus()
    ensures Add(W64, v, (m - v % m) % m) == 0
  {
    var q, r := v / m, v % m;
    if r == 0 {
      DivUnique(m, m, 1, 0);
      DivUnique(v, m, q, 0);
    } else {
      DivUnique(m - r, m, 0, m - r);
      DivUnique(v + (m - r), m, q + 1, 0);
    }
  }

  lemma RoundOfZero()
    ensures Mul(W64, Rotl(W64, 0, 31), PRIME64_1) == 0
  {
    hide Pow2;
    ZeroRotated(Pow2(31), Pow2(33));
  }

  lemma ZeroRotated(p: nat, q: nat)
    requires q > 0
    ensures 0 * p % W64.Modulus() + 0 / q == 0
  {}

  /** For every accumulators there is a stripe that makes them all 0. */
  lemma ClearingStripe(acc: Lanes) returns (w: seq<byte>)
    ensures |w| == 32 && Stripe(acc, w) == Lanes(0, 0, 0, 0)
  {
    var x1 := ClearingWord(acc.v1);
    var x2 := ClearingWord(acc.v2);
    var x3 := ClearingWord(acc.v3);
    var x4 := ClearingWord(acc.v4);
    var w1 := WordStored(x1);
    var w2 := WordStored(x2);
    var w3 := WordStored(x3);
    var w4 := WordStored(x4);
    hide Round, LE;
    w := w1 + w2 + w3 + w4;
    assert w[..8] == w1 && w[8..16] == w2 && w[16..24] == w3 && w[24..] == w4;
  }

  lemma WordStored(x: nat) returns (w: seq<byte>)
    requires x < W64.Modulus()
    ensures |w| == 8 && LE(w) == x
  {
    w := Store(LittleEndian, x, 8);
    assert Pow256(4) == 0x1_0000_0000;
    assert Pow256(8) == W64.Modulus();
    StoreLoad(LittleEndian, x, 8);
  }

  lemma ConvergedZero()
    ensures Converge(Lanes(0, 0, 0, 0)) == 4152819969490635184
  {
    hide *;
    RotatedZero(1);
    RotatedZero(7);
    RotatedZero(12);
    RotatedZero(18);
    MergedOnce();
    MergedTwice();
    MergedThrice();
    MergedFourTimes();
    ConvergeFrom(Lanes(0, 0, 0, 0), 9650029242287828579, 16886523136464896664, 18343090187728206987,
                 4152819969490635184);
  }

  lemma ConvergeFrom(acc: Lanes, h1: nat, h2: nat, h3: nat, h4: nat)
    requires Rotl(W64, acc.v1, 1) == Rotl(W64, acc.v2, 7) == Rotl(W64, acc.v3, 12) == Rotl(W64, acc.v4, 18) == 0
    requires MergeRound(0, acc.v1) == h1 && MergeRound(h1, acc.v2) == h2
    requires MergeRound(h2, acc.v3) == h3 && MergeRound(h3, acc.v4) == h4
    ensures Converge(acc) == h4
  {
    NothingAdded();
    hide Rotl, MergeRound, Add;
  }

  lemma NothingAdded()
    ensures Add(W64, 0, 0) == 0
  {}

  lemma MergedOnce()
    ensures MergeRound(0, 0) == 9650029242287828579
  {
    hide MergeRound;
    MergedZero(0, 0, 0, 0, PRIME64_4);
  }

  lemma MergedTwice()
    ensures MergeRound(9650029242287828579, 0) == 16886523136464896664
  {
    hide MergeRound;
    MergedZero(9650029242287828579, 5964046046247882094, 7236493894177068085, 0, 16886523136464896664);
  }

  lemma MergedThrice()
    ensures MergeRound(16886523136464896664, 0) == 18343090187728206987
  {
    hide MergeRound;
    MergedZero(16886523136464896664, 10436445218795011076, 8693060945440378408, 0, 18343090187728206987);
  }

  lemma MergedFourTimes()
    ensures MergeRound(18343090187728206987, 0) == 4152819969490635184
  {
    hide MergeRound;
    MergedZero(18343090187728206987, 11336653160664662931, 12949534800912358221, 1, 4152819969490635184);
  }

  lemma RotatedZero(r: nat)
    requires r <= 64
    ensures Rotl(W64, 0, r) == 0
  {
    hide Pow2;
    ZeroRotated(Pow2(r), Pow2(64 - r));
  }

  /** One merge of an accumulator that is 0, with its product and sum split at 2^64. */
  lemma MergedZero(h: nat, q: nat, z: nat, c: nat, r: nat)
    requires h * PRIME64_1 == q * W64.Modulus() + z && z < W64.Modulus()
    requires z + PRIME64_4 == c * W64.Modulus() + r && r < W64.Modulus()
    ensures MergeRound(h, 0) == r
  {
    RoundZero();
    XorNothing(h);
    DivUnique(h * PRIME64_1, W64.Modulus(), q, z);
    DivUnique(z + PRIME64_4, W64.Modulus(), c, r);
    hide Round, Xor;
  }

  lemma RoundZero()
    ensures Round(0, 0) == 0
  {
    RoundOfZero();
    hide Rotl;
  }

  lemma {:induction false} XorNothing(h: nat)
    ensures Xor(h, 0) == h
    decreases h
  {
    if h == 0 {
    } else {
      XorNothing(h / 2);
    }
  }

  /** After 2^64 bytes of the right kind the digest is wrong, under every seed: the accumulators have become
      0 and the total has wrapped around to 0. */
  lemma WrongDigest(seed: nat) returns (s: seq<byte>)
    requires seed < W64.Modulus()
    ensures |s| == W64.Modulus() && DigestOf(seed, s) != Hash(seed, s)
  {
    hide *;
    var zeros := ZeroBytes(0xFFFF_FFFF_FFFF_FFE0);
    var w := ClearingStripe(Consumed(seed, zeros));
    s := zeros + w;
    AppendStripe(seed, zeros, w);
    WrappedToNothing(seed, s);
  }

  lemma ZeroBytes(n: nat) returns (s: seq<byte>)
    ensures |s| == n
  {
    s := seq(n, _ => 0);
  }

  lemma WrappedToNothing(seed: nat, s: seq<byte>)
    requires seed < W64.Modulus() && |s| == 0x1_0000_0000_0000_0000 && Consumed(seed, s) == Lanes(0, 0, 0, 0)
    ensures |s| == W64.Modulus() && DigestOf(seed, s) != Hash(seed, s)
  {
    hide Converge, DigestOf, Hash, Consumed;
    ConvergedZero();
    DivUnique(|s|, W64.Modulus(), 1, 0);
    DivUnique(PRIME64_5, W64.Modulus(), 0, PRIME64_5);
    DigestExactly(seed, s);
  }

  lemma AppendStripe(seed: nat, s: seq<byte>, w: seq<byte>)
    requires |s| % 32 == 0 && |w| == 32
    ensures Consumed(seed, s + w) == Stripe(Consumed(seed, s), w)
  {
    hide Stripe, Init;
    Stripes.FoldAppend(Stripe, 32, Init(seed), s, w);
    Stripes.RestLength(32, s);
    assert Stripes.Rest(32, s) + w == w && w[..32] == w;
  }
}
