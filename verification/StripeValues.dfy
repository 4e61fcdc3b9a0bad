/** Evaluating XXH64 on inputs of a whole stripe and more (src/xxhash.c:680-686, 826-849), as HashValues does it
    on short ones: a record of the intermediate words is checked step by step. */
module StripeValues {
  import opened Words
  import opened Memory
  import opened WordBits
  import opened HashValues
  import opened Xxh64
  import Stripes

  /** One round from any accumulator. */
  datatype LaneRound = LaneRound(input: Times, carry: nat, sum: bv64, mixing: Mixing) {
    predicate Is(acc: bv64, word: nat) {
      && input.Is(word, PRIME64_2) && Value(acc) + Value(input.word) == carry * WORD + Value(sum)
      && mixing.Is(sum, 0x8000_0000, 0x2_0000_0000, PRIME64_1, 0)
    }

    function Word(): bv64 {
      mixing.word
    }
  }

  /** A word that is rotated: its highest bits and the others. */
  datatype Turn = Turn(hi: nat, lo: nat) {
    predicate Is(x: bv64, low: nat) {
      Value(x) == hi * low + lo && lo < low
    }

    function Turned(high: nat): nat {
      lo * high + hi
    }
  }

  /** One lane merged into the hash. */
  datatype Merge = Merge(input: Times, round: Mixing, product: Times, carry: nat, word: bv64) {
    predicate Is(acc: bv64, lane: bv64) {
      && input.Is(Value(lane), PRIME64_2)
      && round.Is(input.word, 0x8000_0000, 0x2_0000_0000, PRIME64_1, 0)
      && product.Is(Value(Combine(acc, round.word)), PRIME64_1)
      && Value(product.word) + PRIME64_4 == carry * WORD + Value(word)
    }
  }

  datatype Four<T> = Four(a: T, b: T, c: T, d: T)

  /** The four lanes turned and added up. */
  predicate TurnsAre(turns: Four<Turn>, carry: nat, sum: bv64, v: Four<bv64>) {
    && turns.a.Is(v.a, 0x8000_0000_0000_0000) && turns.b.Is(v.b, 0x200_0000_0000_0000)
    && turns.c.Is(v.c, 0x10_0000_0000_0000) && turns.d.Is(v.d, 0x4000_0000_0000)
    && turns.a.Turned(2) + turns.b.Turned(0x80) + turns.c.Turned(0x1000) + turns.d.Turned(0x4_0000)
       == carry * WORD + Value(sum)
  }

  /** Merging the lanes into this sum one after the other gives these words. */
  predicate MergesAre(sum: bv64, v: Four<bv64>, x: Four<bv64>) {
    && MergeRound(Value(sum), Value(v.a)) == Value(x.a) && MergeRound(Value(x.a), Value(v.b)) == Value(x.b)
    && MergeRound(Value(x.b), Value(v.c)) == Value(x.c) && MergeRound(Value(x.c), Value(v.d)) == Value(x.d)
  }

  function LanesOf(v: Four<bv64>): Lanes {
    Lanes(Value(v.a), Value(v.b), Value(v.c), Value(v.d))
  }

  lemma AddIs(a: int, b: int, k: int, x: bv64)
    requires a + b == k * WORD + Value(x)
    ensures Add(W64, a, b) == Value(x)
  {
    hide Value;
    ValueBound(x);
    DivUnique(a + b, WORD, k, Value(x));
  }

  lemma LaneRoundIs(t: LaneRound, acc: bv64, word: nat)
    requires t.Is(acc, word)
    ensures Round(Value(acc), word) == Value(t.Word())
  {
    hide Value, Mul, Add, Rotl, Pow2, Mixing.Is, Times.Is;
    Powers();
    TimesIs(t.input, word, PRIME64_2);
    AddIs(Value(acc), Value(t.input.word), t.carry, t.sum);
    MixingIs(t.mixing, t.sum, 31, 0x8000_0000, 0x2_0000_0000, PRIME64_1, 0);
  }

  lemma MergeIs(t: Merge, acc: bv64, lane: bv64)
    requires t.Is(acc, lane)
    ensures MergeRound(Value(acc), Value(lane)) == Value(t.word)
  {
    hide Value, Combine, Mul, Add, Rotl, Xor, Pow2, Mixing.Is, Times.Is;
    Powers();
    TimesIs(t.input, Value(lane), PRIME64_2);
    AddNothing(t.input.word);
    MixingIs(t.round, t.input.word, 31, 0x8000_0000, 0x2_0000_0000, PRIME64_1, 0);
    XorOfWords(acc, t.round.word);
    TimesIs(t.product, Value(Combine(acc, t.round.word)), PRIME64_1);
    AddIs(Value(t.product.word), PRIME64_4, t.carry, t.word);
  }

  lemma TurnIs(t: Turn, x: bv64, r: nat, high: nat, low: nat)
    requires r <= 64 && high == Pow2(r) && low == Pow2(64 - r) && t.Is(x, low)
    ensures Rotl(W64, Value(x), r) == t.Turned(high)
  {
    hide Pow2, Value, Rotl;
    ValueBound(x);
    RotlIs(Value(x), r, t.hi, t.lo, high, low);
  }

  lemma TurnPowers()
    ensures Pow2(1) == 2 && Pow2(63) == 0x8000_0000_0000_0000
    ensures Pow2(7) == 0x80 && Pow2(57) == 0x200_0000_0000_0000
    ensures Pow2(12) == 0x1000 && Pow2(52) == 0x10_0000_0000_0000
    ensures Pow2(18) == 0x4_0000 && Pow2(46) == 0x4000_0000_0000
  {
    Powers();
    SmallPowers();
    assert Pow2(1) == 2;
    hide Pow2;
    PowAdd(3, 4);
    PowAdd(8, 4);
    PowAdd(11, 7);
    PowAdd(23, 23);
    PowAdd(41, 11);
    PowAdd(53, 4);
    PowAdd(52, 11);
  }

  /** Sums in a word may be reduced at the end. */
  lemma AddFour(a: nat, b: nat, c: nat, d: nat, k: nat, x: bv64)
    requires a + b + c + d == k * WORD + Value(x)
    ensures Add(W64, Add(W64, Add(W64, a, b), c), d) == Value(x)
  {
    hide Value;
    ValueBound(x);
    AddModulo(a + b, c);
    AddModulo(a + b + c, d);
    DivUnique(a + b + c + d, WORD, k, Value(x));
  }

  lemma AddModulo(a: nat, b: nat)
    ensures Add(W64, a % WORD, b) == Add(W64, a + b, 0)
    ensures Add(W64, a, 0) == a % WORD
  {
    var q, r := a / WORD, a % WORD;
    var p, s := (r + b) / WORD, (r + b) % WORD;
    assert a + b == (q + p) * WORD + s;
    DivUnique(a + b, WORD, q + p, s);
  }

  lemma ConvergeIs(turns: Four<Turn>, carry: nat, sum: bv64, v: Four<bv64>, x: Four<bv64>)
    requires TurnsAre(turns, carry, sum, v) && MergesAre(sum, v, x)
    ensures Converge(LanesOf(v)) == Value(x.d)
  {
    hide Value, Add, Rotl, MergeRound, Pow2, Turn.Is, Turn.Turned;
    TurnPowers();
    TurnIs(turns.a, v.a, 1, 2, 0x8000_0000_0000_0000);
    TurnIs(turns.b, v.b, 7, 0x80, 0x200_0000_0000_0000);
    TurnIs(turns.c, v.c, 12, 0x1000, 0x10_0000_0000_0000);
    TurnIs(turns.d, v.d, 18, 0x4_0000, 0x4000_0000_0000);
    AddFour(turns.a.Turned(2), turns.b.Turned(0x80), turns.c.Turned(0x1000), turns.d.Turned(0x4_0000), carry, sum);
  }

  // ---------- Whole inputs ----------

  /** One stripe of these words takes the accumulators v to u. */
  predicate RoundsAre(v: Four<bv64>, w: Four<nat>, u: Four<bv64>) {
    && Round(Value(v.a), w.a) == Value(u.a) && Round(Value(v.b), w.b) == Value(u.b)
    && Round(Value(v.c), w.c) == Value(u.c) && Round(Value(v.d), w.d) == Value(u.d)
  }

  /** The words of a stripe. */
  ghost predicate WordsAre(s: seq<byte>, w: Four<nat>) {
    |s| == 32 && LE(s[..8]) == w.a && LE(s[8..16]) == w.b && LE(s[16..24]) == w.c && LE(s[24..]) == w.d
  }

  lemma WordsIn(a: seq<byte>, b: seq<byte>, c: seq<byte>, d: seq<byte>) returns (s: seq<byte>)
    requires |a| == |b| == |c| == |d| == 8
    ensures s == a + b + c + d && WordsAre(s, Four(Word8(a), Word8(b), Word8(c), Word8(d)))
  {
    hide LE, Word8;
    WholeWord(a);
    WholeWord(b);
    WholeWord(c);
    WholeWord(d);
    s := a + b + c + d;
    assert s[..8] == a && s[8..16] == b && s[16..24] == c && s[24..] == d;
  }

  lemma StripeIs(v: Four<bv64>, s: seq<byte>, w: Four<nat>, u: Four<bv64>)
    requires WordsAre(s, w) && RoundsAre(v, w, u)
    ensures Stripe(LanesOf(v), s) == LanesOf(u)
  {
    hide Value, Round, LE;
  }

  lemma WholeWord(s: seq<byte>)
    requires |s| == 8
    ensures LE(s) == Word8(s)
  {
    hide LE, Word8;
    Word8Is(s);
    assert s[..8] == s;
  }

  /** An input of one stripe and a rest. */
  lemma OneStripe(seed: nat, s: seq<byte>, w: Four<nat>, rest: seq<byte>, v: Four<bv64>, u: Four<bv64>, h: bv64,
                  start: bv64)
    requires WordsAre(s, w) && |rest| < 32
    requires Init(seed) == LanesOf(v) && RoundsAre(v, w, u) && Converge(LanesOf(u)) == Value(h)
    requires Value(h) + 32 + |rest| == Value(start)
    ensures Hash(seed, s + rest) == Avalanche(Tail(Value(start), rest))
  {
    hide Value, Init, Stripe, Converge, LanesOf, RoundsAre, Avalanche, Tail, Add, LE;
    StripeIs(v, s, w, u);
    AddIs(Value(h), 32 + |rest|, 0, start);
    var all := s + rest;
    assert all[..32] == s && all[32..] == rest;
    assert Stripes.Fold(Stripe, 32, LanesOf(u), rest) == LanesOf(u);
    assert Stripes.Rest(32, rest) == rest;
  }

  lemma LastByte(h: nat, b: byte)
    ensures Tail(h, [b]) == Step1(h, Val(b))
  {
    hide Step1;
    assert [b][1..] == [];
  }

  lemma NothingLeft(h: nat)
    ensures Tail(h, []) == h
  {}

  /** A rest of eight bytes, four and one. */
  lemma ThirteenBytes(start: bv64, s: seq<byte>, t: seq<byte>, b: byte, eight: LongStep, four: ShortStep,
                      one: ShortStep)
    requires |s| == 8 && |t| == 4
    requires Is8(eight, start, Word8(s)) && Is4(four, eight.mixing.word, Word4(t))
    requires Is1(one, four.mixing.word, Val(b))
    ensures Tail(Value(start), s + t + [b]) == Value(one.mixing.word)
  {
    hide Value, Word8, Word4, Is8, Is4, Is1, Step8, Step4, Step1, LE;
    WholeWord(s);
    Word4Is(t);
    assert t[..4] == t;
    Step8Is(eight, start, Word8(s));
    Step4Is(four, eight.mixing.word, Word4(t));
    Step1Is(one, four.mixing.word, Val(b));
    var all := s + t + [b];
    assert all[..8] == s && all[8..] == t + [b] && (t + [b])[..4] == t && (t + [b])[4..] == [b] && [b][1..] == [];
    assert Tail(Value(start), all) == Tail(Value(eight.mixing.word), t + [b]);
    assert Tail(Value(eight.mixing.word), t + [b]) == Tail(Value(four.mixing.word), [b]);
    LastByte(Value(four.mixing.word), b);
  }

  /** Nothing at all. */
  lemma NoBytes(seed: nat, start: bv64, last: Last)
    requires seed + PRIME64_5 == Value(start) && last.Is(start)
    ensures Hash(seed, []) == Value(last.Word())
  {
    hide Value, Avalanche, Add, Last.Is, Last.Word;
    AddIs(seed, PRIME64_5, 0, start);
    AddIs(Value(start), 0, 0, start);
    LastIs(last, start);
    assert Tail(Value(start), []) == Value(start);
  }

  // ---------- Given values ----------

  /** "The quick brown fox jumps over the lazy dogs." */
  const SENTENCE: seq<byte> :=
    [84, 104, 101, 32, 113, 117, 105, 99]
    + [107, 32, 98, 114, 111, 119, 110, 32]
    + [102, 111, 120, 32, 106, 117, 109, 112]
    + [115, 32, 111, 118, 101, 114, 32, 116]
    + ([104, 101, 32, 108, 97, 122, 121, 32] + [100, 111, 103, 115] + [46])

  /** "abcdefghijklmnopqrstuvwxyz012345" */
  const LETTERS: seq<byte> :=
    [97, 98, 99, 100, 101, 102, 103, 104]
    + [105, 106, 107, 108, 109, 110, 111, 112]
    + [113, 114, 115, 116, 117, 118, 119, 120]
    + [121, 122, 48, 49, 50, 51, 52, 53]
    + []

  lemma SentenceRoundA()
    ensures Round(Value(0x60EA27EEADC0B5D6), 0x6369757120656854) == Value(0x1BF961D28F3A149D)
  {
    hide Round;
    LaneRoundIs(
      LaneRound(Times(5448033922462056229, 0xD173518947A04DEC), 1, 0x325D7977F56103C2,
                Mixing(422493371, 8411743170, Times(11164215943859080420, 0x1BF961D28F3A149D), 0, 0x1BF961D28F3A149D)),
      0x60EA27EEADC0B5D6, 0x6369757120656854);
  }

  lemma SentenceRoundB()
    ensures Round(Value(0xC2B2AE3D27D4EB4F), 0x206E776F7262206B) == Value(0xBD18AA2EE4D901F)
  {
    hide Round;
    LaneRoundIs(
      LaneRound(Times(1777331290404022164, 0xE042491685A63A05), 1, 0xA2F4F753AD7B2554,
                Mixing(1366981545, 7205496148, Times(9563263328229017859, 0xBD18AA2EE4D901F), 0, 0xBD18AA2EE4D901F)),
      0xC2B2AE3D27D4EB4F, 0x206E776F7262206B);
  }

  lemma SentenceRoundC()
    ensures Round(Value(0), 0x706D756A20786F66) == Value(0x9986F59CC4FE6078)
  {
    hide Round;
    LaneRoundIs(
      LaneRound(Times(6161324080055657315, 0xECBAC3915DE5027A), 0, 0xECBAC3915DE5027A,
                Mixing(1985831368, 5870256762, Times(7791109740415195395, 0x9986F59CC4FE6078), 0, 0x9986F59CC4FE6078)),
      0, 0x706D756A20786F66);
  }

  lemma SentenceRoundD()
    ensures Round(Value(0x61C8864E7A143579), 0x74207265766F2073) == Value(0x79F80495CC7EBC76)
  {
    hide Round;
    LaneRoundIs(
      LaneRound(Times(6364048387156365202, 0x46965866F350947D), 0, 0xA85EDEB56D64C9F6,
                Mixing(1412394842, 6130289142, Times(8136229364373777980, 0x79F80495CC7EBC76), 0, 0x79F80495CC7EBC76)),
      0x61C8864E7A143579, 0x74207265766F2073);
  }

  lemma SentenceMergeA()
    ensures MergeRound(Value(0xA26913671D1DAA37), Value(0x1BF961D28F3A149D)) == Value(0x739083290851E7D7)
  {
    hide MergeRound;
    MergeIs(
      Merge(Times(1533056285739927721, 0x8EF58E1A80DC7B73),
            Mixing(1199228685, 2161933171, Times(2869356362303913267, 0xE2C7D07A8CBE39DB), 0, 0xE2C7D07A8CBE39DB),
            Times(2880580515950329775, 0xEDA4B8B1459F3974), 1, 0x739083290851E7D7),
      0xA26913671D1DAA37, 0x1BF961D28F3A149D);
  }

  lemma SentenceMergeB()
    ensures MergeRound(Value(0x739083290851E7D7), Value(0xBD18AA2EE4D901F)) == Value(0xCD0C5C927E433BF7)
  {
    hide MergeRound;
    MergeIs(
      Merge(Times(647685797480235123, 0xD526EB9BCFE7EE91),
            Mixing(1788048845, 7783050897, Times(10329804318480809114, 0x6C4239D9B2E5E11B), 0, 0x6C4239D9B2E5E11B),
            Times(1417214170052955213, 0x4720921ABB908D94), 0, 0xCD0C5C927E433BF7),
      0x739083290851E7D7, 0xBD18AA2EE4D901F);
  }

  lemma SentenceMergeC()
    ensures MergeRound(Value(0xCD0C5C927E433BF7), Value(0x9986F59CC4FE6078)) == Value(0x962F3F76B777EA40)
  {
    hide MergeRound;
    MergeIs(
      Merge(Times(8413689981880898182, 0x65912428786DED08),
            Mixing(852005396, 2020470024, Times(2681603943922115793, 0xBD41959F8764D08C), 0, 0xBD41959F8764D08C),
            Times(5001344347067032075, 0x104374FEF4C53BDD), 0, 0x962F3F76B777EA40),
      0xCD0C5C927E433BF7, 0x9986F59CC4FE6078);
  }

  lemma SentenceMergeD()
    ensures MergeRound(Value(0x962F3F76B777EA40), Value(0x79F80495CC7EBC76)) == Value(0x9007C00F586BFAF0)
  {
    hide MergeRound;
    MergeIs(
      Merge(Times(6684209294773149139, 0x424AB0BA7DD47A6A),
            Mixing(556095581, 2111076970, Times(2801859102591630990, 0xBF6114A960C9FB0B), 0, 0xBF6114A960C9FB0B),
            Times(1839494507463406458, 0xA1BF59795B94C8D), 0, 0x9007C00F586BFAF0),
      0x962F3F76B777EA40, 0x79F80495CC7EBC76);
  }

  lemma SentenceConverge()
    ensures Converge(LanesOf(Four(0x1BF961D28F3A149D, 0xBD18AA2EE4D901F, 0x9986F59CC4FE6078, 0x79F80495CC7EBC76)))
         == Value(0x9007C00F586BFAF0)
  {
    hide Converge, LanesOf, MergeRound;
    SentenceMergeA();
    SentenceMergeB();
    SentenceMergeC();
    SentenceMergeD();
    ConvergeIs(Four(Turn(0, 2015749865198982301), Turn(5, 131038296557850655),
                    Turn(2456, 1958903528972408), Turn(124896, 5041427496054)), 1, 0xA26913671D1DAA37,
      Four(0x1BF961D28F3A149D, 0xBD18AA2EE4D901F, 0x9986F59CC4FE6078, 0x79F80495CC7EBC76),
      Four(0x739083290851E7D7, 0xCD0C5C927E433BF7, 0x962F3F76B777EA40, 0x9007C00F586BFAF0));
  }

  lemma SentenceInit()
    ensures Init(0) == LanesOf(Four(0x60EA27EEADC0B5D6, 0xC2B2AE3D27D4EB4F, 0, 0x61C8864E7A143579))
  {
    hide Add;
    AddIs(0, PRIME64_1, 0, 0x9E3779B185EBCA87);
    AddIs(Value(0x9E3779B185EBCA87), PRIME64_2, 1, 0x60EA27EEADC0B5D6);
    AddIs(0, PRIME64_2, 0, 0xC2B2AE3D27D4EB4F);
    AddIs(0, 0, 0, 0);
    AddIs(0, -PRIME64_1, -1, 0x61C8864E7A143579);
  }

  lemma SentenceTail()
    ensures Tail(Value(0x9007C00F586BFB1D), [104, 101, 32, 108, 97, 122, 121, 32] + [100, 111, 103, 115] + [46])
         == Value(0xD4A4636672B646B5)
  {
    hide Tail;
    ThirteenBytes(0x9007C00F586BFB1D, [104, 101, 32, 108, 97, 122, 121, 32], [100, 111, 103, 115], 46,
      LongStep(Times(1779688552772902955, 0xD3EF8660ED35C318),
               Mixing(1777845040, 3979723544, Times(5281960249183351821, 0xAF785FB17EBBCE50), 0, 0xAF785FB17EBBCE50),
               Mixing(33291517, 129500198221, Times(10742186165087959917, 0xA8B68D2C66C10B6B), 1, 0x2EA257A42973B9CE)),
      ShortStep(Times(1196611796, 0x91055042AE3CA5BC),
                Mixing(6280067, 2089624214642, Times(13331516460497485044, 0xBDE3D059C937866D), 0, 0xD43A380B676F0066)),
      ShortStep(Times(7, 0x284242760386A566),
                Mixing(2019, 6890078423590144, Times(8721003802908223932, 0xD4A4636672B646B5), 0, 0xD4A4636672B646B5)));
  }

  lemma SentenceEnd()
    ensures Avalanche(Value(0xD4A4636672B646B5)) == 3601704655662352320
  {
    hide Avalanche;
    LastIs(Last(Folding(0x6A5231B3, 1924548277), Times(11653343702678203399, 0xE9D3411DE2BB3CDA),
                Folding(0x74E9A08EF, 45825242), Times(1470164996414863952, 0x31FBD34D0B5BD48D),
                Folding(0x31FBD34D, 190567565)),
           0xD4A4636672B646B5);
  }

  lemma SentenceLanes()
    ensures RoundsAre(Four(0x60EA27EEADC0B5D6, 0xC2B2AE3D27D4EB4F, 0, 0x61C8864E7A143579),
                      Four(0x6369757120656854, 0x206E776F7262206B, 0x706D756A20786F66, 0x74207265766F2073),
                      Four(0x1BF961D28F3A149D, 0xBD18AA2EE4D901F, 0x9986F59CC4FE6078, 0x79F80495CC7EBC76))
  {
    hide Round;
    SentenceRoundA();
    SentenceRoundB();
    SentenceRoundC();
    SentenceRoundD();
  }

  lemma SentenceWordA()
    ensures Word8([84, 104, 101, 32, 113, 117, 105, 99]) == 0x6369757120656854
  {}

  lemma SentenceWordB()
    ensures Word8([107, 32, 98, 114, 111, 119, 110, 32]) == 0x206E776F7262206B
  {}

  lemma SentenceWordC()
    ensures Word8([102, 111, 120, 32, 106, 117, 109, 112]) == 0x706D756A20786F66
  {}

  lemma SentenceWordD()
    ensures Word8([115, 32, 111, 118, 101, 114, 32, 116]) == 0x74207265766F2073
  {}

  lemma SentenceWords() returns (s: seq<byte>)
    ensures WordsAre(s, Four(0x6369757120656854, 0x206E776F7262206B, 0x706D756A20786F66, 0x74207265766F2073))
    ensures s == [84, 104, 101, 32, 113, 117, 105, 99]
              + [107, 32, 98, 114, 111, 119, 110, 32]
              + [102, 111, 120, 32, 106, 117, 109, 112]
              + [115, 32, 111, 118, 101, 114, 32, 116]
  {
    hide Word8, WordsAre;
    SentenceWordA();
    SentenceWordB();
    SentenceWordC();
    SentenceWordD();
    s := WordsIn([84, 104, 101, 32, 113, 117, 105, 99],
                 [107, 32, 98, 114, 111, 119, 110, 32],
                 [102, 111, 120, 32, 106, 117, 109, 112],
                 [115, 32, 111, 118, 101, 114, 32, 116]);
  }

  lemma SentenceParts() returns (s: seq<byte>, rest: seq<byte>)
    ensures SENTENCE == s + rest && |rest| == 13
    ensures WordsAre(s, Four(0x6369757120656854, 0x206E776F7262206B, 0x706D756A20786F66, 0x74207265766F2073))
    ensures Tail(Value(0x9007C00F586BFB1D), rest) == Value(0xD4A4636672B646B5)
  {
    s := SentenceWords();
    rest := [104, 101, 32, 108, 97, 122, 121, 32] + [100, 111, 103, 115] + [46];
    hide Tail, LE, WordsAre;
    SentenceTail();
  }

  /** A stripe, eight bytes, four and one, without a seed. */
  lemma SentenceHash()
    ensures Hash(0, SENTENCE) == 3601704655662352320
  {
    assert Value(0x9007C00F586BFAF0) + 45 == Value(0x9007C00F586BFB1D);
    hide *;
    var s, rest := SentenceParts();
    SentenceInit();
    SentenceLanes();
    SentenceConverge();
    OneStripe(0, s, Four(0x6369757120656854, 0x206E776F7262206B, 0x706D756A20786F66, 0x74207265766F2073), rest,
              Four(0x60EA27EEADC0B5D6, 0xC2B2AE3D27D4EB4F, 0, 0x61C8864E7A143579),
              Four(0x1BF961D28F3A149D, 0xBD18AA2EE4D901F, 0x9986F59CC4FE6078, 0x79F80495CC7EBC76),
              0x9007C00F586BFAF0, 0x9007C00F586BFB1D);
    SentenceEnd();
  }

  lemma LettersRoundA()
    ensures Round(Value(0x60EA27EF4BF82F87), 0x6867666564636261) == Value(0x14010771A04B39B5)
  {
    hide Round;
    LaneRoundIs(
      LaneRound(Times(5721606229953741885, 0xC32851D8754E66EF), 1, 0x241279C7C1469676,
                Mixing(302595299, 7537596022, Times(10004032218542653601, 0x14010771A04B39B5), 0, 0x14010771A04B39B5)),
      0x60EA27EF4BF82F87, 0x6867666564636261);
  }

  lemma LettersRoundB()
    ensures Round(Value(0xC2B2AE3DC60C6500), 0x706F6E6D6C6B6A69) == Value(0xE31F176B7FA3007D)
  {
    hide Round;
    LaneRoundIs(
      LaneRound(Times(6161746382640707210, 0x81D1657A2DC83967), 1, 0x448413B7F3D49E67,
                Mixing(574753243, 8385764967, Times(11129737208421528476, 0xE31F176B7FA3007D), 0, 0xE31F176B7FA3007D)),
      0xC2B2AE3DC60C6500, 0x706F6E6D6C6B6A69);
  }

  lemma LettersRoundC()
    ensures Round(Value(0x9E3779B1), 0x7877767574737271) == Value(0x88AA05D3AE6CFAE2)
  {
    hide Round;
    LaneRoundIs(
      LaneRound(Times(6601886535327672535, 0x407A791BE6420BDF), 0, 0x407A791C84798590,
                Mixing(540884110, 2222556560, Times(2949816807770197890, 0x88AA05D3AE6CFAE2), 0, 0x88AA05D3AE6CFAE2)),
      0x9E3779B1, 0x7877767574737271);
  }

  lemma LettersRoundD()
    ensures Round(Value(0x61C8864F184BAF2A), 0x3534333231307A79) == Value(0x74F567BCEAB5610D)
  {
    hide Round;
    LaneRoundIs(
      LaneRound(Times(2915712756574352599, 0xE7176B478996DE57), 1, 0x48DFF196A1E28D81,
                Mixing(611317963, 2715979137, Times(3604696074779578317, 0x74F567BCEAB5610D), 0, 0x74F567BCEAB5610D)),
      0x61C8864F184BAF2A, 0x3534333231307A79);
  }

  lemma LettersMergeA()
    ensures MergeRound(Value(0xF6DEAA5F65FAAEBA), Value(0x14010771A04B39B5)) == Value(0x655307282E5303A3)
  {
    hide MergeRound;
    MergeIs(
      Merge(Times(1096272435430638191, 0x34AA946CE213F5DB),
            Mixing(441797174, 3792958939, Times(5034082925108258126, 0x9033A042DD1ABE7A), 0, 0x9033A042DD1ABE7A),
            Times(4583707952619258031, 0xDF673CB06BA05540), 1, 0x655307282E5303A3),
      0xF6DEAA5F65FAAEBA, 0x14010771A04B39B5);
  }

  lemma LettersMergeB()
    ensures MergeRound(Value(0x655307282E5303A3), Value(0xE31F176B7FA3007D)) == Value(0x5D37F11D257E9BF1)
  {
    hide MergeRound;
    MergeIs(
      Merge(Times(12446847604155911719, 0xABA5842F7743E593),
            Mixing(1439875607, 6295905683, Times(8356038598955842796, 0xD0BE235D2D678021), 0, 0xD0BE235D2D678021),
            Times(8101915180456960363, 0xD74C26A562CBED8E), 1, 0x5D37F11D257E9BF1),
      0x655307282E5303A3, 0xE31F176B7FA3007D);
  }

  lemma LettersMergeC()
    ensures MergeRound(Value(0x5D37F11D257E9BF1), Value(0x88AA05D3AE6CFAE2)) == Value(0xE66789D8CFC2CEBD)
  {
    hide MergeRound;
    MergeIs(
      Merge(Times(7489551767371952946, 0xAA518DC30F16E1BE),
            Mixing(1428735713, 4548125118, Times(6036352981433408011, 0xE562F54A8AF96AA7), 0, 0xE562F54A8AF96AA7),
            Times(8209053396346340064, 0x607BBF610D10205A), 0, 0xE66789D8CFC2CEBD),
      0x5D37F11D257E9BF1, 0x88AA05D3AE6CFAE2);
  }

  lemma LettersMergeD()
    ensures MergeRound(Value(0xE66789D8CFC2CEBD), Value(0x74F567BCEAB5610D)) == Value(0x85FFE5F1DAECC213)
  {
    hide MergeRound;
    MergeIs(
      Merge(Times(6409636955912892093, 0x986264D747D3E203),
            Mixing(1278292587, 5500035587, Times(7299745576681356052, 0x821AF2675EF3046D), 0, 0x821AF2675EF3046D),
            Times(4475233442054195182, 0x141B7A183A13B0), 0, 0x85FFE5F1DAECC213),
      0xE66789D8CFC2CEBD, 0x74F567BCEAB5610D);
  }

  lemma LettersConverge()
    ensures Converge(LanesOf(Four(0x14010771A04B39B5, 0xE31F176B7FA3007D, 0x88AA05D3AE6CFAE2, 0x74F567BCEAB5610D)))
         == Value(0x85FFE5F1DAECC213)
  {
    hide Converge, LanesOf, MergeRound;
    LettersMergeA();
    LettersMergeB();
    LettersMergeC();
    LettersMergeD();
    ConvergeIs(Four(Turn(0, 1441441540337252789), Turn(113, 80809068786286717),
                    Turn(2186, 2821156489722594), Turn(119765, 43692345090317)), 1, 0xF6DEAA5F65FAAEBA,
      Four(0x14010771A04B39B5, 0xE31F176B7FA3007D, 0x88AA05D3AE6CFAE2, 0x74F567BCEAB5610D),
      Four(0x655307282E5303A3, 0x5D37F11D257E9BF1, 0xE66789D8CFC2CEBD, 0x85FFE5F1DAECC213));
  }

  lemma LettersInit()
    ensures Init(2654435761) == LanesOf(Four(0x60EA27EF4BF82F87, 0xC2B2AE3DC60C6500, 0x9E3779B1, 0x61C8864F184BAF2A))
  {
    hide Add;
    AddIs(2654435761, PRIME64_1, 0, 0x9E3779B224234438);
    AddIs(Value(0x9E3779B224234438), PRIME64_2, 1, 0x60EA27EF4BF82F87);
    AddIs(2654435761, PRIME64_2, 0, 0xC2B2AE3DC60C6500);
    AddIs(2654435761, 0, 0, 0x9E3779B1);
    AddIs(2654435761, -PRIME64_1, -1, 0x61C8864F184BAF2A);
  }

  lemma LettersEnd()
    ensures Avalanche(Value(0x85FFE5F1DAECC233)) == 6428530720109514939
  {
    hide Avalanche;
    LastIs(Last(Folding(0x42FFF2F8, 7967916595), Times(7343527536046356317, 0x872C32D9E0D267A5),
                Folding(0x4396196CF, 13789093), Times(849891670686013816, 0x5936BAA116E6EA1A),
                Folding(0x5936BAA1, 384231962)),
           0x85FFE5F1DAECC233);
  }

  lemma LettersLanes()
    ensures RoundsAre(Four(0x60EA27EF4BF82F87, 0xC2B2AE3DC60C6500, 0x9E3779B1, 0x61C8864F184BAF2A),
                      Four(0x6867666564636261, 0x706F6E6D6C6B6A69, 0x7877767574737271, 0x3534333231307A79),
                      Four(0x14010771A04B39B5, 0xE31F176B7FA3007D, 0x88AA05D3AE6CFAE2, 0x74F567BCEAB5610D))
  {
    hide Round;
    LettersRoundA();
    LettersRoundB();
    LettersRoundC();
    LettersRoundD();
  }

  lemma LettersWordA()
    ensures Word8([97, 98, 99, 100, 101, 102, 103, 104]) == 0x6867666564636261
  {}

  lemma LettersWordB()
    ensures Word8([105, 106, 107, 108, 109, 110, 111, 112]) == 0x706F6E6D6C6B6A69
  {}

  lemma LettersWordC()
    ensures Word8([113, 114, 115, 116, 117, 118, 119, 120]) == 0x7877767574737271
  {}

  lemma LettersWordD()
    ensures Word8([121, 122, 48, 49, 50, 51, 52, 53]) == 0x3534333231307A79
  {}

  lemma LettersWords() returns (s: seq<byte>)
    ensures WordsAre(s, Four(0x6867666564636261, 0x706F6E6D6C6B6A69, 0x7877767574737271, 0x3534333231307A79))
    ensures s == [97, 98, 99, 100, 101, 102, 103, 104]
              + [105, 106, 107, 108, 109, 110, 111, 112]
              + [113, 114, 115, 116, 117, 118, 119, 120]
              + [121, 122, 48, 49, 50, 51, 52, 53]
  {
    hide Word8, WordsAre;
    LettersWordA();
    LettersWordB();
    LettersWordC();
    LettersWordD();
    s := WordsIn([97, 98, 99, 100, 101, 102, 103, 104],
                 [105, 106, 107, 108, 109, 110, 111, 112],
                 [113, 114, 115, 116, 117, 118, 119, 120],
                 [121, 122, 48, 49, 50, 51, 52, 53]);
  }

  lemma LettersParts() returns (s: seq<byte>, rest: seq<byte>)
    ensures LETTERS == s + rest && |rest| == 0
    ensures WordsAre(s, Four(0x6867666564636261, 0x706F6E6D6C6B6A69, 0x7877767574737271, 0x3534333231307A79))
    ensures Tail(Value(0x85FFE5F1DAECC233), rest) == Value(0x85FFE5F1DAECC233)
  {
    s := LettersWords();
    rest := [];
    hide Tail, LE, WordsAre;
    NothingLeft(Value(0x85FFE5F1DAECC233));
  }

  /** A stripe under a seed. */
  lemma LettersHash()
    ensures Hash(2654435761, LETTERS) == 6428530720109514939
  {
    assert Value(0x85FFE5F1DAECC213) + 32 == Value(0x85FFE5F1DAECC233);
    hide *;
    var s, rest := LettersParts();
    LettersInit();
    LettersLanes();
    LettersConverge();
    OneStripe(2654435761, s, Four(0x6867666564636261, 0x706F6E6D6C6B6A69, 0x7877767574737271, 0x3534333231307A79), rest,
              Four(0x60EA27EF4BF82F87, 0xC2B2AE3DC60C6500, 0x9E3779B1, 0x61C8864F184BAF2A),
              Four(0x14010771A04B39B5, 0xE31F176B7FA3007D, 0x88AA05D3AE6CFAE2, 0x74F567BCEAB5610D),
              0x85FFE5F1DAECC213, 0x85FFE5F1DAECC233);
    LettersEnd();
  }

  /** Nothing, under no seed. */
  lemma EmptyHash()
    ensures Hash(0, []) == 17241709254077376921
  {
    hide Hash;
    NoBytes(0, 0x27D4EB2F165667C5,
      Last(Folding(0x13EA7597, 4669728709), Times(2182881743648002948, 0xBEB13DDA13C2ED4E),
           Folding(0x5F589EED0, 331541838), Times(1198969161725600792, 0xEF46DB37BE9E32AE),
           Folding(0xEF46DB37, 3198038702)));
  }

  /** Nothing, under a seed. */
  lemma SeededEmptyHash()
    ensures Hash(2654435761, []) == 12427117621484918767
  {
    hide Hash;
    NoBytes(2654435761, 0x27D4EB2FB48DE176,
      Last(Folding(0x13EA7597, 7324164470), Times(2182881745710867391, 0x15E223734FF57C6F),
           Folding(0xAF111B9A, 267746415), Times(137590553090301992, 0xAC75FDA23EEEEA4D),
           Folding(0xAC75FDA2, 1055844941)));
  }
}
