/** Evaluating XXH32 on given inputs (src/xxhash.c:269-389): a record of the intermediate words is checked step by
    step. */
module Xxh32Values {
  import opened Words
  import opened Memory
  import opened WordBits
  import opened Xxh32
  import HashValues
  import Stripes

  const WORD: nat := 0x1_0000_0000

  /** A word multiplied by a prime and added to another, rotated by r bits and multiplied again; `hi` are the r
      highest bits of the sum and `lo` the others. */
  datatype Mix = Mix(quotient: nat, product: nat, carry: nat, sum: nat, hi: nat, lo: nat, last: nat, word: nat) {
    predicate Is(x: nat, input: nat, p: nat, high: nat, low: nat, q: nat) {
      && input * p == quotient * WORD + product && product < WORD
      && x + product == carry * WORD + sum && sum < WORD
      && sum == hi * low + lo && lo < low
      && (lo * high + hi) * q == last * WORD + word && word < WORD
    }
  }

  lemma MulIs(a: int, p: int, k: int, x: nat)
    requires a * p == k * WORD + x && x < WORD
    ensures Mul(W32, a, p) == x
  {
    DivUnique(a * p, WORD, k, x);
  }

  lemma AddIs(a: int, b: int, k: int, x: nat)
    requires a + b == k * WORD + x && x < WORD
    ensures Add(W32, a, b) == x
  {
    DivUnique(a + b, WORD, k, x);
  }

  lemma RotlIs(x: nat, r: nat, hi: nat, lo: nat, high: nat, low: nat)
    requires r <= 32 && high == Pow2(r) && low == Pow2(32 - r)
    requires x == hi * low + lo && lo < low && x < WORD
    ensures Rotl(W32, x, r) == lo * high + hi
  {
    hide Pow2;
    RotlParts(W32, x, r);
    DivUnique(x, low, hi, lo);
  }

  lemma MixIs(t: Mix, x: nat, input: nat, p: nat, r: nat, high: nat, low: nat, q: nat)
    requires r <= 32 && high == Pow2(r) && low == Pow2(32 - r) && t.Is(x, input, p, high, low, q)
    ensures Mul(W32, Rotl(W32, Add(W32, x, Mul(W32, input, p)), r), q) == t.word
  {
    hide Pow2, Rotl, Mul, Add;
    MulIs(input, p, t.quotient, t.product);
    AddIs(x, t.product, t.carry, t.sum);
    RotlIs(t.sum, r, t.hi, t.lo, high, low);
    MulIs(t.lo * high + t.hi, q, t.last, t.word);
  }

  lemma Powers()
    ensures Pow2(11) == 0x800 && Pow2(21) == 0x20_0000 && Pow2(13) == 0x2000 && Pow2(19) == 0x8_0000
    ensures Pow2(17) == 0x2_0000 && Pow2(15) == 0x8000 && Pow2(16) == 0x1_0000
    ensures Pow2(1) == 2 && Pow2(31) == 0x8000_0000 && Pow2(7) == 0x80 && Pow2(25) == 0x200_0000
    ensures Pow2(12) == 0x1000 && Pow2(20) == 0x10_0000 && Pow2(18) == 0x4_0000 && Pow2(14) == 0x4000
  {
    HashValues.SmallPowers();
    assert Pow2(1) == 2;
    hide Pow2;
    PowAdd(4, 3);
    PowAdd(8, 3);
    PowAdd(8, 4);
    PowAdd(11, 2);
    PowAdd(11, 3);
    PowAdd(11, 4);
    PowAdd(8, 8);
    PowAdd(16, 1);
    PowAdd(16, 2);
    PowAdd(16, 3);
    PowAdd(16, 4);
    PowAdd(17, 4);
    PowAdd(17, 8);
    PowAdd(15, 16);
  }

  lemma RoundIs(t: Mix, acc: nat, input: nat)
    requires t.Is(acc, input, PRIME32_2, 0x2000, 0x8_0000, PRIME32_1)
    ensures Round(acc, input) == t.word
  {
    hide Pow2, Rotl, Mul, Add;
    Powers();
    MixIs(t, acc, input, PRIME32_2, 13, 0x2000, 0x8_0000, PRIME32_1);
  }

  lemma Step4Is(t: Mix, h: nat, input: nat)
    requires t.Is(h, input, PRIME32_3, 0x2_0000, 0x8000, PRIME32_4)
    ensures Step4(h, input) == t.word
  {
    hide Pow2, Rotl, Mul, Add;
    Powers();
    MixIs(t, h, input, PRIME32_3, 17, 0x2_0000, 0x8000, PRIME32_4);
  }

  lemma Step1Is(t: Mix, h: nat, input: nat)
    requires t.Is(h, input, PRIME32_5, 0x800, 0x20_0000, PRIME32_1)
    ensures Step1(h, input) == t.word
  {
    hide Pow2, Rotl, Mul, Add;
    Powers();
    MixIs(t, h, input, PRIME32_5, 11, 0x800, 0x20_0000, PRIME32_1);
  }

  /** A word exclusive-or'ed with its own highest bits, and the product that follows. */
  datatype Fold = Fold(shifted: bv64, rest: nat, quotient: nat, word: bv64) {
    predicate Is(x: bv64, low: nat, q: nat) {
      && Value(x) == Value(shifted) * low + rest && rest < low
      && Value(Combine(x, shifted)) * q == quotient * WORD + Value(word) && Value(word) < WORD
    }
  }

  lemma FoldIs(t: Fold, x: bv64, k: nat, low: nat, q: nat)
    requires low == Pow2(k) && t.Is(x, low, q)
    ensures Mul(W32, Xor(Value(x), Shr(Value(x), k)), q) == Value(t.word)
    ensures Xor(Value(x), Shr(Value(x), k)) == Value(Combine(x, t.shifted))
  {
    hide Value, Combine, Xor, Shr, Mul, Pow2;
    HashValues.FoldingIs(HashValues.Folding(t.shifted, t.rest), x, k, low);
    MulIs(Value(Combine(x, t.shifted)), q, t.quotient, Value(t.word));
  }

  lemma AvalancheIs(a: Fold, b: Fold, c: Fold, x: bv64)
    requires a.Is(x, 0x8000, PRIME32_2) && b.Is(a.word, 0x2000, PRIME32_3) && c.Is(b.word, 0x1_0000, 1)
    requires c.quotient == 0
    ensures Avalanche(Value(x)) == Value(c.word)
  {
    hide Value, Combine, Xor, Shr, Mul, Pow2;
    Powers();
    FoldIs(a, x, 15, 0x8000, PRIME32_2);
    FoldIs(b, a.word, 13, 0x2000, PRIME32_3);
    FoldIs(c, b.word, 16, 0x1_0000, 1);
    assert Value(Combine(b.word, c.shifted)) == Value(c.word);
  }

  // ---------- Whole inputs ----------

  /** The words of a stripe. */
  ghost predicate WordsAre(s: seq<byte>, w: Lanes) {
    |s| == 16 && LE(s[..4]) == w.v1 && LE(s[4..8]) == w.v2 && LE(s[8..12]) == w.v3 && LE(s[12..]) == w.v4
  }

  lemma WordsIn(a: seq<byte>, b: seq<byte>, c: seq<byte>, d: seq<byte>)
    requires |a| == |b| == |c| == |d| == 4
    ensures WordsAre(a + b + c + d,
                     Lanes(HashValues.Word4(a), HashValues.Word4(b), HashValues.Word4(c), HashValues.Word4(d)))
  {
    hide LE, HashValues.Word4;
    WholeWord(a);
    WholeWord(b);
    WholeWord(c);
    WholeWord(d);
    var s := a + b + c + d;
    assert s[..4] == a && s[4..8] == b && s[8..12] == c && s[12..] == d;
  }

  lemma WholeWord(s: seq<byte>)
    requires |s| == 4
    ensures LE(s) == HashValues.Word4(s)
  {
    hide LE, HashValues.Word4;
    HashValues.Word4Is(s);
    assert s[..4] == s;
  }

  /** One stripe of these words takes the accumulators v to u. */
  predicate RoundsAre(v: Lanes, w: Lanes, u: Lanes) {
    && Round(v.v1, w.v1) == u.v1 && Round(v.v2, w.v2) == u.v2
    && Round(v.v3, w.v3) == u.v3 && Round(v.v4, w.v4) == u.v4
  }

  /** The rotation of x by r bits is `turned`: its r highest bits and the others. */
  predicate Turns(x: nat, hi: nat, lo: nat, high: nat, low: nat, turned: nat) {
    x == hi * low + lo && lo < low && x < WORD && turned == lo * high + hi
  }

  /** The lanes turned, and their sum. */
  datatype Meeting = Meeting(hi: Lanes, lo: Lanes, turned: Lanes, carry: nat, sum: nat) {
    predicate Is(v: Lanes) {
      && Turns(v.v1, hi.v1, lo.v1, 2, 0x8000_0000, turned.v1) && Turns(v.v2, hi.v2, lo.v2, 0x80, 0x200_0000, turned.v2)
      && Turns(v.v3, hi.v3, lo.v3, 0x1000, 0x10_0000, turned.v3)
      && Turns(v.v4, hi.v4, lo.v4, 0x4_0000, 0x4000, turned.v4)
      && turned.v1 + turned.v2 + turned.v3 + turned.v4 == carry * WORD + sum && sum < WORD
    }
  }

  lemma AddFour(a: nat, b: nat, c: nat, d: nat, k: nat, x: nat)
    requires a + b + c + d == k * WORD + x && x < WORD
    ensures Add(W32, Add(W32, Add(W32, a, b), c), d) == x
  {
    AddModulo(a + b, c);
    AddModulo(a + b + c, d);
    DivUnique(a + b + c + d, WORD, k, x);
  }

  lemma AddModulo(a: nat, b: nat)
    ensures Add(W32, a % WORD, b) == Add(W32, a + b, 0)
    ensures Add(W32, a, 0) == a % WORD
  {
    var q, r := a / WORD, a % WORD;
    var p, s := (r + b) / WORD, (r + b) % WORD;
    assert a + b == (q + p) * WORD + s;
    DivUnique(a + b, WORD, q + p, s);
  }

  lemma ConvergeIs(t: Meeting, v: Lanes)
    requires t.Is(v)
    ensures Converge(v) == t.sum
  {
    hide Add, Rotl, Pow2, Turns;
    Powers();
    TurnIs(v.v1, 1, t.hi.v1, t.lo.v1, 2, 0x8000_0000, t.turned.v1);
    TurnIs(v.v2, 7, t.hi.v2, t.lo.v2, 0x80, 0x200_0000, t.turned.v2);
    TurnIs(v.v3, 12, t.hi.v3, t.lo.v3, 0x1000, 0x10_0000, t.turned.v3);
    TurnIs(v.v4, 18, t.hi.v4, t.lo.v4, 0x4_0000, 0x4000, t.turned.v4);
    AddFour(t.turned.v1, t.turned.v2, t.turned.v3, t.turned.v4, t.carry, t.sum);
  }

  lemma TurnIs(x: nat, r: nat, hi: nat, lo: nat, high: nat, low: nat, turned: nat)
    requires r <= 32 && high == Pow2(r) && low == Pow2(32 - r) && Turns(x, hi, lo, high, low, turned)
    ensures Rotl(W32, x, r) == turned
  {
    hide Pow2, Rotl;
    RotlIs(x, r, hi, lo, high, low);
  }

  /** An input of one stripe and a rest. */
  lemma OneStripe(seed: nat, s: seq<byte>, w: Lanes, rest: seq<byte>, v: Lanes, u: Lanes, h: nat, start: nat)
    requires WordsAre(s, w) && |rest| < 16
    requires Init(seed) == v && RoundsAre(v, w, u) && Converge(u) == h
    requires h + 16 + |rest| == start < WORD
    ensures Hash(seed, s + rest) == Avalanche(Tail(start, rest))
  {
    hide Init, Round, Converge, Avalanche, Tail, Add, LE;
    AddIs(h, 16 + |rest|, 0, start);
    var all := s + rest;
    assert all[..16] == s && all[16..] == rest;
    assert Stripes.Fold(Stripe, 16, u, rest) == u;
    assert Stripes.Rest(16, rest) == rest;
  }

  /** A rest of four bytes and one. */
  lemma FiveBytes(start: nat, t: seq<byte>, b: byte, four: Mix, one: Mix)
    requires |t| == 4
    requires four.Is(start, HashValues.Word4(t), PRIME32_3, 0x2_0000, 0x8000, PRIME32_4)
    requires one.Is(four.word, Val(b), PRIME32_5, 0x800, 0x20_0000, PRIME32_1)
    ensures Tail(start, t + [b]) == one.word
  {
    hide HashValues.Word4, Step4, Step1, LE, Mix.Is;
    WholeWord(t);
    Step4Is(four, start, HashValues.Word4(t));
    Step1Is(one, four.word, Val(b));
    assert (t + [b])[..4] == t && (t + [b])[4..] == [b];
    assert Tail(start, t + [b]) == Tail(four.word, [b]);
    LastByte(four.word, b);
  }

  lemma LastByte(h: nat, b: byte)
    ensures Tail(h, [b]) == Step1(h, Val(b))
  {
    hide Step1;
    assert [b][1..] == [];
  }

  /** Nothing at all. */
  lemma NoBytes(seed: nat, k: nat, start: bv64, a: Fold, b: Fold, c: Fold)
    requires seed + PRIME32_5 == k * WORD + Value(start) && Value(start) < WORD
    requires a.Is(start, 0x8000, PRIME32_2) && b.Is(a.word, 0x2000, PRIME32_3) && c.Is(b.word, 0x1_0000, 1)
    requires c.quotient == 0
    ensures Hash(seed, []) == Value(c.word)
  {
    hide Value, Avalanche, Add, Fold.Is;
    AddIs(seed, PRIME32_5, k, Value(start));
    AddIs(Value(start), 0, 0, Value(start));
    AvalancheIs(a, b, c, start);
    assert Tail(Value(start), []) == Value(start);
  }

  // ---------- Given values ----------

  /** "abcdefghijklmnopqrstu" */
  const LETTERS: seq<byte> :=
    [97, 98, 99, 100] + [101, 102, 103, 104] + [105, 106, 107, 108]
    + [109, 110, 111, 112] + ([113, 114, 115, 116] + [117])

  lemma LettersInit()
    ensures Init(7) == Lanes(606290991, 2246822526, 7, 1640531542)
  {}

  lemma LettersRounds()
    ensures RoundsAre(Lanes(606290991, 2246822526, 7, 1640531542),
                      Lanes(1684234849, 1751606885, 1818978921, 1886350957),
                      Lanes(1917915584, 4008586463, 1605629337, 3414634680))
  {
    hide Round;
    RoundIs(Mix(881072316, 3386787095, 0, 3993078086, 7616, 100678, 509730818, 1917915584),
            606290991, 1684234849);
    RoundIs(Mix(916316591, 2526235379, 1, 478090609, 911, 464241, 2350422300, 4008586463),
            2246822526, 1751606885);
    RoundIs(Mix(951560866, 1665683663, 0, 1665683670, 3177, 20694, 104774328, 1605629337),
            7, 1818978921);
    RoundIs(Mix(986805141, 805131947, 0, 2445663489, 4664, 384257, 1945470873, 3414634680),
            1640531542, 1886350957);
  }

  lemma LettersConverge()
    ensures Converge(Lanes(1917915584, 4008586463, 1605629337, 3414634680)) == 1576359822
  {
    hide Converge;
    ConvergeIs(Meeting(Lanes(0, 119, 1531, 208412),
                       Lanes(1917915584, 15609055, 259481, 12472),
                       Lanes(3835831168, 1997959159, 1062835707, 3269668380), 2, 1576359822),
               Lanes(1917915584, 4008586463, 1605629337, 3414634680));
  }

  lemma LettersTail()
    ensures Tail(1576359843, [113, 114, 115, 116] + [117]) == 2423610135
  {
    hide Tail;
    FiveBytes(1576359843, [113, 114, 115, 116], 117,
      Mix(1485882433, 1809650413, 0, 3386010256, 103332, 27280, 556359961, 864134940),
      Mix(10, 897410021, 0, 1761544961, 839, 2034433, 2575050733, 2423610135));
  }

  lemma LettersWords() returns (s: seq<byte>)
    ensures WordsAre(s, Lanes(1684234849, 1751606885, 1818978921, 1886350957))
    ensures s == [97, 98, 99, 100] + [101, 102, 103, 104] + [105, 106, 107, 108]
              + [109, 110, 111, 112]
  {
    WordsIn([97, 98, 99, 100], [101, 102, 103, 104], [105, 106, 107, 108],
            [109, 110, 111, 112]);
    s := [97, 98, 99, 100] + [101, 102, 103, 104] + [105, 106, 107, 108]
         + [109, 110, 111, 112];
  }

  lemma LettersParts() returns (s: seq<byte>, rest: seq<byte>)
    ensures LETTERS == s + rest && |rest| == 5
    ensures WordsAre(s, Lanes(1684234849, 1751606885, 1818978921, 1886350957))
    ensures Tail(1576359843, rest) == 2423610135
  {
    s := LettersWords();
    rest := [113, 114, 115, 116] + [117];
    hide Tail, LE, WordsAre;
    LettersTail();
  }

  lemma LettersEnd()
    ensures Avalanche(2423610135) == 3611600673
  {
    hide Avalanche;
    AvalancheIs(Fold(73962, 23319, 1267831191, 1379550363), Fold(168402, 1179, 1049130267, 3611586661),
                Fold(55108, 28773, 0, 3611600673), 2423610135);
  }

  /** A stripe, four bytes and one, under a seed. */
  lemma LettersHash()
    ensures Hash(7, LETTERS) == 3611600673
  {
    assert 1576359843 < WORD;
    hide *;
    var s, rest := LettersParts();
    LettersInit();
    LettersRounds();
    LettersConverge();
    OneStripe(7, s, Lanes(1684234849, 1751606885, 1818978921, 1886350957), rest,
              Lanes(606290991, 2246822526, 7, 1640531542),
              Lanes(1917915584, 4008586463, 1605629337, 3414634680), 1576359822, 1576359843);
    LettersEnd();
  }

  /** Nothing, under no seed. */
  lemma EmptyHash()
    ensures Hash(0, []) == 46947589
  {
    hide Hash;
    NoBytes(0, 0, 374761393, Fold(11436, 26545, 196044775, 2113981563),
            Fold(258054, 3195, 1607886811, 46948297), Fold(716, 24521, 0, 46947589));
  }

  /** Nothing, under a seed. */
  lemma SeededEmptyHash()
    ensures Hash(2654435761, []) == 917998311
  {
    hide Hash;
    NoBytes(2654435761, 0, 3029197154, Fold(92443, 24930, 1584615090, 4111854143),
            Fold(501935, 2623, 3127043056, 918010960), Fold(14007, 48208, 0, 917998311));
  }
}
