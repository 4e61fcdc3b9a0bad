/** Counting set bits (src/bitops.c:99-150): 28 bytes at a time inside seven 32-bit words, then one
    byte at a time from a table. */
module BitCount {
  import opened Memory

  /** The number of set bits of a byte. */
  function Ones(b: byte): nat {
    Bit(b & 0x80 != 0) + Bit(b & 0x40 != 0) + Bit(b & 0x20 != 0) + Bit(b & 0x10 != 0)
    + Bit(b & 8 != 0) + Bit(b & 4 != 0) + Bit(b & 2 != 0) + Bit(b & 1 != 0)
  }

  /** The number of set bits of a byte sequence. */
  function Count(s: seq<byte>): nat {
    if s == [] then 0 else Ones(s[0]) + Count(s[1..])
  }

  lemma {:induction false} CountConcat(s: seq<byte>, t: seq<byte>)
    ensures Count(s + t) == Count(s) + Count(t)
  {
    if s == [] {
      assert [] + t == t;
    } else {
      assert (s + t)[1..] == s[1..] + t;
      CountConcat(s[1..], t);
    }
  }

  // ---------- The stages on one word ----------

  function Pairs(x: bv32): bv32 {
    x - ((x >> 1) & 0x55555555)
  }

  function Quads(x: bv32): bv32 {
    (x & 0x33333333) + ((x >> 2) & 0x33333333)
  }

  function Octets(x: bv32): bv32 {
    (x + (x >> 4)) & 0x0F0F0F0F
  }

  // The same stages on a single byte.

  function Pairs8(x: byte): byte {
    x - ((x >> 1) & 0x55)
  }

  function Quads8(x: byte): byte {
    (x & 0x33) + ((x >> 2) & 0x33)
  }

  function Octets8(x: byte): byte {
    (x + (x >> 4)) & 0x0F
  }

  /** The word of four bytes, the first of them least significant. */
  function Word(a: byte, b: byte, c: byte, d: byte): bv32 {
    (a as bv32) | ((b as bv32) << 8) | ((c as bv32) << 16) | ((d as bv32) << 24)
  }

  /** The word the processor loads from four bytes. */
  function Load32(cpu: Endianess, s: seq<byte>): bv32
    requires |s| == 4
  {
    if cpu.LittleEndian? then Word(s[0], s[1], s[2], s[3]) else Word(s[3], s[2], s[1], s[0])
  }

  /** The number a uint32_t holds. */
  function Value32(x: bv32): nat {
    x as nat
  }

  function PairsByAddition(x: bv32): bv32 {
    (x & 0x55555555) + ((x >> 1) & 0x55555555)
  }

  lemma PairsAdd(x: bv32)
    ensures Pairs(x) == PairsByAddition(x)
  {}

  lemma PairLanesByAddition(a: byte, b: byte, c: byte, d: byte)
    ensures PairsByAddition(Word(a, b, c, d)) == Word(Pairs8(a), Pairs8(b), Pairs8(c), Pairs8(d))
  {}

  /** No stage moves a carry or a borrow from one byte lane to another. */
  lemma PairLanes(a: byte, b: byte, c: byte, d: byte)
    ensures Pairs(Word(a, b, c, d)) == Word(Pairs8(a), Pairs8(b), Pairs8(c), Pairs8(d))
  {
    hide Pairs, PairsByAddition, Word, Pairs8;
    PairsAdd(Word(a, b, c, d));
    PairLanesByAddition(a, b, c, d);
  }

  lemma QuadLanes(a: byte, b: byte, c: byte, d: byte)
    ensures Quads(Word(a, b, c, d)) == Word(Quads8(a), Quads8(b), Quads8(c), Quads8(d))
  {}

  /** For the last stage this needs every nibble below 8. */
  lemma OctetLanes(a: byte, b: byte, c: byte, d: byte)
    requires a & 0x88 == 0 && b & 0x88 == 0 && c & 0x88 == 0 && d & 0x88 == 0
    ensures Octets(Word(a, b, c, d)) == Word(Octets8(a), Octets8(b), Octets8(c), Octets8(d))
  {}

  lemma ByteNibbles(b: byte)
    ensures Quads8(Pairs8(b)) & 0x88 == 0
    ensures Octets8(Quads8(Pairs8(b))) <= 8
  {}

  lemma ByteStages(b: byte)
    ensures Octets8(Quads8(Pairs8(b))) as nat == Ones(b) <= 8
  {}

  lemma WordValue(a: byte, b: byte, c: byte, d: byte)
    requires a <= 8 && b <= 8 && c <= 8 && d <= 8
    ensures Value32(Word(a, b, c, d))
         == a as nat + 0x100 * (b as nat) + 0x10000 * (c as nat) + 0x1000000 * (d as nat)
  {}

  /** After the three stages each byte lane of a word holds the count of that byte. */
  lemma LaneCounts(a: byte, b: byte, c: byte, d: byte)
    ensures Value32(Octets(Quads(Pairs(Word(a, b, c, d)))))
         == Ones(a) + 0x100 * Ones(b) + 0x10000 * Ones(c) + 0x1000000 * Ones(d)
  {
    hide Pairs, Quads, Octets, Word, Pairs8, Quads8, Octets8, Value32, Ones;
    PairLanes(a, b, c, d);
    QuadLanes(Pairs8(a), Pairs8(b), Pairs8(c), Pairs8(d));
    ByteNibbles(a);
    ByteNibbles(b);
    ByteNibbles(c);
    ByteNibbles(d);
    ByteStages(a);
    ByteStages(b);
    ByteStages(c);
    ByteStages(d);
    OctetLanes(Quads8(Pairs8(a)), Quads8(Pairs8(b)), Quads8(Pairs8(c)), Quads8(Pairs8(d)));
    WordValue(Octets8(Quads8(Pairs8(a))), Octets8(Quads8(Pairs8(b))),
              Octets8(Quads8(Pairs8(c))), Octets8(Quads8(Pairs8(d))));
  }

  /** Four lanes, one per byte of the word, none above n. */
  datatype Lanes = Lanes(a: nat, b: nat, c: nat, d: nat) {
    predicate AtMost(n: nat) {
      a <= n && b <= n && c <= n && d <= n
    }

    function Value(): nat {
      a + 0x100 * b + 0x10000 * c + 0x1000000 * d
    }

    function Sum(): nat {
      a + b + c + d
    }

    function Plus(l: Lanes): Lanes {
      Lanes(a + l.a, b + l.b, c + l.c, d + l.d)
    }
  }

  ghost function Swar(cpu: Endianess, s: seq<byte>): nat
    requires |s| == 4
  {
    Value32(Octets(Quads(Pairs(Load32(cpu, s)))))
  }

  /** The three stages leave in each lane of a loaded word the count of one of its bytes. */
  lemma WordLanes(cpu: Endianess, s: seq<byte>) returns (l: Lanes)
    requires |s| == 4
    ensures l.AtMost(8) && l.Sum() == Count(s)
    ensures Swar(cpu, s) == l.Value()
  {
    hide Pairs, Quads, Octets, Ones, Word, Value32;
    var t := if cpu.LittleEndian? then s else [s[3], s[2], s[1], s[0]];
    LaneCounts(t[0], t[1], t[2], t[3]);
    l := Lanes(Ones(t[0]), Ones(t[1]), Ones(t[2]), Ones(t[3]));
    assert l.AtMost(8) by {
      ByteStages(t[0]);
      ByteStages(t[1]);
      ByteStages(t[2]);
      ByteStages(t[3]);
    }
    Count4(s);
  }

  lemma Count4(s: seq<byte>)
    requires |s| == 4
    ensures Count(s) == Ones(s[0]) + Ones(s[1]) + Ones(s[2]) + Ones(s[3])
  {
    hide Ones;
    assert s[1..][1..] == s[2..] && s[2..][1..] == s[3..] && s[3..][1..] == [];
    assert Count(s[3..]) == Ones(s[3]);
    assert Count(s[2..]) == Ones(s[2]) + Count(s[3..]);
    assert Count(s[1..]) == Ones(s[1]) + Count(s[2..]);
  }

  /** Multiplication by 0x01010101 gathers the lanes in the highest one. Seven counts make at most 56
      in a lane and four lanes at most 224, so nothing is carried into or out of it. */
  lemma Gather(l: Lanes)
    requires l.AtMost(56)
    ensures Words.Mul(Words.W32, l.Value(), 0x01010101) / 0x100_0000 == l.Sum()
  {
    var v := l.Value() * 0x01010101;
    var low := l.a + 0x100 * (l.a + l.b) + 0x10000 * (l.a + l.b + l.c);
    var high := (l.b + l.c + l.d) + 0x100 * (l.c + l.d) + 0x10000 * l.d;
    var rest := l.Sum() * 0x100_0000 + low;
    Words.DivUnique(v, 0x1_0000_0000, high, rest);
    Words.DivUnique(rest, 0x100_0000, l.Sum(), low);
  }

  /** v is a word whose lanes hold n in all and at most `most` each. */
  ghost predicate Holds(v: nat, n: nat, most: nat) {
    exists l: Lanes :: l.AtMost(most) && v == l.Value() && n == l.Sum()
  }

  lemma HoldsSum(v: nat, n: nat, most: nat, v': nat, n': nat, most': nat)
    requires Holds(v, n, most) && Holds(v', n', most')
    ensures Holds(v + v', n + n', most + most')
  {
    var l: Lanes :| l.AtMost(most) && v == l.Value() && n == l.Sum();
    var k: Lanes :| k.AtMost(most') && v' == k.Value() && n' == k.Sum();
    PlusIs(l, k, most, most');
    hide Lanes.Value, Lanes.Sum, Lanes.AtMost, Lanes.Plus;
    assert l.Plus(k).AtMost(most + most');
  }

  lemma PlusIs(l: Lanes, k: Lanes, most: nat, most': nat)
    requires l.AtMost(most) && k.AtMost(most')
    ensures l.Plus(k).AtMost(most + most')
    ensures l.Plus(k).Value() == l.Value() + k.Value() && l.Plus(k).Sum() == l.Sum() + k.Sum()
  {}

  lemma HoldsGather(v: nat, n: nat)
    requires Holds(v, n, 56)
    ensures Words.Mul(Words.W32, v, 0x01010101) / 0x100_0000 == n
  {
    var l: Lanes :| l.AtMost(56) && v == l.Value() && n == l.Sum();
    Gather(l);
  }

  lemma CountWords(s: seq<byte>, p: nat, i: nat)
    requires p + i + 4 <= |s|
    ensures Count(s[p..p + i + 4]) == Count(s[p..p + i]) + Count(s[p + i..p + i + 4])
  {
    assert s[p..p + i] + s[p + i..p + i + 4] == s[p..p + i + 4];
    CountConcat(s[p..p + i], s[p + i..p + i + 4]);
  }

  lemma FirstWord(cpu: Endianess, s: seq<byte>)
    requires |s| == 4
    ensures Holds(Swar(cpu, s), Count(s), 8)
  {
    hide Swar, Count;
    var l := WordLanes(cpu, s);
  }

  /** Another word is added to the i / 4 words of a block. */
  lemma NextWord(cpu: Endianess, s: seq<byte>, p: nat, i: nat, v: nat)
    requires p + i + 4 <= |s| && Holds(v, Count(s[p..p + i]), 2 * i)
    ensures Holds(v + Swar(cpu, s[p + i..p + i + 4]), Count(s[p..p + i + 4]), 2 * (i + 4))
  {
    hide Swar, Count, Holds;
    CountWords(s, p, i);
    FirstWord(cpu, s[p + i..p + i + 4]);
    HoldsSum(v, Count(s[p..p + i]), 2 * i, Swar(cpu, s[p + i..p + i + 4]), Count(s[p + i..p + i + 4]), 8);
  }

  /** Seven words hold the count of 28 bytes. */
  lemma BlockCount(cpu: Endianess, s: seq<byte>, p: nat)
    requires p + 28 <= |s|
    ensures Words.Mul(Words.W32,
                      Swar(cpu, s[p..p + 4]) + Swar(cpu, s[p + 4..p + 8]) + Swar(cpu, s[p + 8..p + 12])
                      + Swar(cpu, s[p + 12..p + 16]) + Swar(cpu, s[p + 16..p + 20])
                      + Swar(cpu, s[p + 20..p + 24]) + Swar(cpu, s[p + 24..p + 28]),
                      0x01010101) / 0x100_0000 == Count(s[p..p + 28])
  {
    hide Words.Mul, Swar, Count, Holds;
    FirstWord(cpu, s[p..p + 4]);
    var v := Swar(cpu, s[p..p + 4]);
    NextWord(cpu, s, p, 4, v);
    v := v + Swar(cpu, s[p + 4..p + 8]);
    NextWord(cpu, s, p, 8, v);
    v := v + Swar(cpu, s[p + 8..p + 12]);
    NextWord(cpu, s, p, 12, v);
    v := v + Swar(cpu, s[p + 12..p + 16]);
    NextWord(cpu, s, p, 16, v);
    v := v + Swar(cpu, s[p + 16..p + 20]);
    NextWord(cpu, s, p, 20, v);
    v := v + Swar(cpu, s[p + 20..p + 24]);
    NextWord(cpu, s, p, 24, v);
    v := v + Swar(cpu, s[p + 24..p + 28]);
    HoldsGather(v, Count(s[p..p + 28]));
  }

  // ---------- The table ----------

  /** The 256 entries of bitsinbyte, in rows of sixteen. */
  const BITS_IN_BYTE: seq<seq<nat>> :=
    [[0, 1, 1, 2, 1, 2, 2, 3, 1, 2, 2, 3, 2, 3, 3, 4],
     [1, 2, 2, 3, 2, 3, 3, 4, 2, 3, 3, 4, 3, 4, 4, 5],
     [1, 2, 2, 3, 2, 3, 3, 4, 2, 3, 3, 4, 3, 4, 4, 5],
     [2, 3, 3, 4, 3, 4, 4, 5, 3, 4, 4, 5, 4, 5, 5, 6],
     [1, 2, 2, 3, 2, 3, 3, 4, 2, 3, 3, 4, 3, 4, 4, 5],
     [2, 3, 3, 4, 3, 4, 4, 5, 3, 4, 4, 5, 4, 5, 5, 6],
     [2, 3, 3, 4, 3, 4, 4, 5, 3, 4, 4, 5, 4, 5, 5, 6],
     [3, 4, 4, 5, 4, 5, 5, 6, 4, 5, 5, 6, 5, 6, 6, 7],
     [1, 2, 2, 3, 2, 3, 3, 4, 2, 3, 3, 4, 3, 4, 4, 5],
     [2, 3, 3, 4, 3, 4, 4, 5, 3, 4, 4, 5, 4, 5, 5, 6],
     [2, 3, 3, 4, 3, 4, 4, 5, 3, 4, 4, 5, 4, 5, 5, 6],
     [3, 4, 4, 5, 4, 5, 5, 6, 4, 5, 5, 6, 5, 6, 6, 7],
     [2, 3, 3, 4, 3, 4, 4, 5, 3, 4, 4, 5, 4, 5, 5, 6],
     [3, 4, 4, 5, 4, 5, 5, 6, 4, 5, 5, 6, 5, 6, 6, 7],
     [3, 4, 4, 5, 4, 5, 5, 6, 4, 5, 5, 6, 5, 6, 6, 7],
     [4, 5, 5, 6, 5, 6, 6, 7, 5, 6, 6, 7, 6, 7, 7, 8]]

  const BITS_IN_NIBBLE: seq<nat> := [0, 1, 1, 2, 1, 2, 2, 3, 1, 2, 2, 3, 2, 3, 3, 4]

  lemma TableRows()
    ensures |BITS_IN_BYTE| == 16 && forall i :: 0 <= i < 16 ==> |BITS_IN_BYTE[i]| == 16
  {}

  function BitsInByte(b: byte): nat {
    TableRows();
    BITS_IN_BYTE[(b >> 4) as nat][(b & 15) as nat]
  }

  lemma TableRow(h: nat, l: nat)
    requires h < 16 && l < 16
    ensures |BITS_IN_BYTE| == 16 && |BITS_IN_BYTE[h]| == 16
    ensures BITS_IN_BYTE[h][l] == BITS_IN_NIBBLE[h] + BITS_IN_NIBBLE[l]
  {}

  lemma OnesOfNibbles(b: byte)
    ensures Ones(b) == BITS_IN_NIBBLE[(b >> 4) as nat] + BITS_IN_NIBBLE[(b & 15) as nat]
  {}

  /** The table holds the number of set bits of every byte. */
  lemma TableCounts(b: byte)
    ensures BitsInByte(b) == Ones(b)
  {
    hide Ones, BITS_IN_BYTE, BITS_IN_NIBBLE;
    OnesOfNibbles(b);
    TableRow((b >> 4) as nat, (b & 15) as nat);
  }

  // ---------- redisPopcount ----------

  /** The count of the buffer, whichever the byte order of the processor. */
  method Popcount(cpu: Endianess, s: seq<byte>) returns (bits: nat)
    ensures bits == Count(s)
  {
    hide Ones, Pairs, Quads, Octets, Value32, Load32, Words.Mul, BitsInByte;
    bits := 0;
    var p := 0;
    var count := |s|;
    assert s[0..] == s;
    while count >= 28
      invariant count == |s| - p && 0 <= p <= |s|
      invariant bits + Count(s[p..]) == Count(s)
    {
      var aux1, aux2, aux3, aux4 := Load32(cpu, s[p..p + 4]), Load32(cpu, s[p + 4..p + 8]),
                                    Load32(cpu, s[p + 8..p + 12]), Load32(cpu, s[p + 12..p + 16]);
      var aux5, aux6, aux7 := Load32(cpu, s[p + 16..p + 20]), Load32(cpu, s[p + 20..p + 24]),
                              Load32(cpu, s[p + 24..p + 28]);
      count := count - 28;
      aux1 := Quads(Pairs(aux1));
      aux2 := Quads(Pairs(aux2));
      aux3 := Quads(Pairs(aux3));
      aux4 := Quads(Pairs(aux4));
      aux5 := Quads(Pairs(aux5));
      aux6 := Quads(Pairs(aux6));
      aux7 := Quads(Pairs(aux7));
      BlockCount(cpu, s, p);
      assert s[p..p + 28] + s[p + 28..] == s[p..];
      CountConcat(s[p..p + 28], s[p + 28..]);
      bits := bits + Words.Mul(Words.W32,
                               Value32(Octets(aux1)) + Value32(Octets(aux2)) + Value32(Octets(aux3))
                               + Value32(Octets(aux4)) + Value32(Octets(aux5)) + Value32(Octets(aux6))
                               + Value32(Octets(aux7)),
                               0x01010101) / 0x100_0000;
      p := p + 28;
    }
    while count > 0
      invariant count == |s| - p && 0 <= p <= |s|
      invariant bits + Count(s[p..]) == Count(s)
    {
      TableCounts(s[p]);
      bits := bits + BitsInByte(s[p]);
      p, count := p + 1, count - 1;
    }
  }
}
