/** XXH_swap32 and XXH_swap64 as they are written, with shifts and masks (src/xxhash.c:203-209 and
    632-642): they turn what a big-endian processor loads into the little-endian word. */
module ByteOrder {
  import opened Memory
  import opened WordBits
  import BitCount
  import BitOp

  function Swap32(x: bv32): bv32 {
    ((x << 24) & 0xFF000000) | ((x << 8) & 0x00FF0000) | ((x >> 8) & 0x0000FF00) | ((x >> 24) & 0x000000FF)
  }

  function Swap64(x: bv64): bv64 {
    ((x << 56) & 0xFF00000000000000) | ((x << 40) & 0x00FF000000000000)
    | ((x << 24) & 0x0000FF0000000000) | ((x << 8) & 0x000000FF00000000)
    | ((x >> 8) & 0x00000000FF000000) | ((x >> 24) & 0x0000000000FF0000)
    | ((x >> 40) & 0x000000000000FF00) | ((x >> 56) & 0x00000000000000FF)
  }

  /** XXH_readLE32 */
  function ReadLE32(cpu: Endianess, s: seq<byte>): bv32
    requires |s| == 4
  {
    if cpu.LittleEndian? then BitCount.Load32(cpu, s) else Swap32(BitCount.Load32(cpu, s))
  }

  /** XXH_readLE64 */
  function ReadLE64(cpu: Endianess, s: seq<byte>): bv64
    requires |s| == 8
  {
    if cpu.LittleEndian? then BitOp.Load64(cpu, s) else Swap64(BitOp.Load64(cpu, s))
  }

  /** Reading yields the same word on every processor, the one whose bytes, lowest first, are those read. */
  lemma ReadLE32Portable(cpu: Endianess, s: seq<byte>)
    requires |s| == 4
    ensures ReadLE32(cpu, s) == BitCount.Word(s[0], s[1], s[2], s[3])
  {
    Swap32Reverses(s[3], s[2], s[1], s[0]);
    hide Swap32, BitCount.Word;
  }

  lemma ReadLE64Portable(cpu: Endianess, s: seq<byte>)
    requires |s| == 8
    ensures ReadLE64(cpu, s) == BitOp.Word64(s)
  {
    hide Swap64, BitOp.Word64;
    Swap64Reverses(s);
  }

  lemma Swap32Reverses(a: byte, b: byte, c: byte, d: byte)
    ensures Swap32(BitCount.Word(a, b, c, d)) == BitCount.Word(d, c, b, a)
  {}

  lemma Swap64Reverses(s: seq<byte>)
    requires |s| == 8
    ensures Swap64(BitOp.Word64(BitOp.Reverse8(s))) == BitOp.Word64(s)
  {}

  // ---------- The numbers the words hold ----------

  function Wide(x: bv32): bv64 {
    x as bv64
  }

  lemma WideValue(x: bv32)
    ensures Value(Wide(x)) == BitCount.Value32(x)
  {}

  lemma WordByAppending(a: byte, b: byte, c: byte, d: byte)
    ensures Wide(BitCount.Word(a, b, c, d)) == Append(Append(Append(Append(0, d), c), b), a)
  {}

  lemma Word64ByAppending(s: seq<byte>)
    requires |s| == 8
    ensures BitOp.Word64(s)
         == Append(Append(Append(Append(Append(Append(Append(Append(0, s[7]), s[6]), s[5]), s[4]), s[3]), s[2]),
                          s[1]), s[0])
  {}

  /** Appending the bytes of a sequence from the last to the first. */
  function Appended(s: seq<byte>): bv64 {
    if s == [] then 0 else Append(Appended(s[1..]), s[0])
  }

  lemma {:induction false} AppendedValue(s: seq<byte>)
    requires |s| <= 8
    ensures Value(Appended(s)) == LE(s) < Pow256(|s|)
  {
    hide Append, Val;
    if s == [] {
    } else {
      AppendedValue(s[1..]);
      AtMost7(|s| - 1);
      AppendValue(Appended(s[1..]), s[0]);
      LEBound(s);
    }
  }

  lemma AtMost7(n: nat)
    requires n <= 7
    ensures Pow256(n) <= 0x100_0000_0000_0000
    decreases 7 - n
  {
    if n == 7 {
      assert Pow256(4) == 0x1_0000_0000;
      assert Pow256(7) == 256 * (256 * (256 * Pow256(4)));
    } else {
      AtMost7(n + 1);
      assert Pow256(n + 1) == 256 * Pow256(n);
    }
  }

  lemma Word32Value(s: seq<byte>)
    requires |s| == 4
    ensures BitCount.Value32(BitCount.Word(s[0], s[1], s[2], s[3])) == LE(s)
  {
    WordByAppending(s[0], s[1], s[2], s[3]);
    WideValue(BitCount.Word(s[0], s[1], s[2], s[3]));
    hide Append, Value, Wide, BitCount.Word, BitCount.Value32, LE;
    assert s[1..][1..] == s[2..] && s[2..][1..] == s[3..] && s[3..][1..] == [];
    assert Appended(s[3..]) == Append(0, s[3]);
    assert Appended(s[2..]) == Append(Appended(s[3..]), s[2]);
    assert Appended(s[1..]) == Append(Appended(s[2..]), s[1]);
    AppendedValue(s);
  }

  lemma Word64Value(s: seq<byte>)
    requires |s| == 8
    ensures Value(BitOp.Word64(s)) == LE(s)
  {
    Word64ByAppending(s);
    hide Append, Value, BitOp.Word64, LE;
    assert s[1..][1..] == s[2..] && s[2..][1..] == s[3..] && s[3..][1..] == s[4..] && s[4..][1..] == s[5..];
    assert s[5..][1..] == s[6..] && s[6..][1..] == s[7..] && s[7..][1..] == [];
    assert Appended(s[7..]) == Append(0, s[7]);
    assert Appended(s[6..]) == Append(Appended(s[7..]), s[6]);
    assert Appended(s[5..]) == Append(Appended(s[6..]), s[5]);
    assert Appended(s[4..]) == Append(Appended(s[5..]), s[4]);
    assert Appended(s[3..]) == Append(Appended(s[4..]), s[3]);
    assert Appended(s[2..]) == Append(Appended(s[3..]), s[2]);
    assert Appended(s[1..]) == Append(Appended(s[2..]), s[1]);
    AppendedValue(s);
  }

  lemma Reverse4(s: seq<byte>)
    requires |s| == 4
    ensures Reversed(s) == [s[3], s[2], s[1], s[0]]
  {
    assert s[1..][1..] == s[2..] && s[2..][1..] == s[3..] && s[3..][1..] == [];
    assert Reversed(s[3..]) == [s[3]];
    assert Reversed(s[2..]) == [s[3], s[2]];
    assert Reversed(s[1..]) == [s[3], s[2], s[1]];
  }

  lemma Reverse8Is(s: seq<byte>)
    requires |s| == 8
    ensures Reversed(s) == BitOp.Reverse8(s)
  {
    assert s[1..][1..] == s[2..] && s[2..][1..] == s[3..] && s[3..][1..] == s[4..];
    Reverse4(s[4..]);
    assert Reversed(s[3..]) == [s[7], s[6], s[5], s[4], s[3]];
    assert Reversed(s[2..]) == [s[7], s[6], s[5], s[4], s[3], s[2]];
    assert Reversed(s[1..]) == [s[7], s[6], s[5], s[4], s[3], s[2], s[1]];
  }

  /** The native loads of 4 and 8 bytes are the ones the hashes use. */
  lemma Load32Value(cpu: Endianess, s: seq<byte>)
    requires |s| == 4
    ensures BitCount.Value32(BitCount.Load32(cpu, s)) == Load(cpu, s)
  {
    hide BitCount.Word, BitCount.Value32, LE, BE;
    Reverse4(s);
    LEReversed(s);
    Word32Value(s);
    Word32Value(Reversed(s));
  }

  lemma Load64Value(cpu: Endianess, s: seq<byte>)
    requires |s| == 8
    ensures Value(BitOp.Load64(cpu, s)) == Load(cpu, s)
  {
    hide BitOp.Word64, Value, LE, BE;
    Reverse8Is(s);
    LEReversed(s);
    Word64Value(s);
    Word64Value(Reversed(s));
  }

  function Bytes32(x: bv32): (s: seq<byte>)
    ensures |s| == 4
  {
    [(x & 0xFF) as byte, ((x >> 8) & 0xFF) as byte, ((x >> 16) & 0xFF) as byte, (x >> 24) as byte]
  }

  lemma OfBytes32(x: bv32)
    ensures var s := Bytes32(x);
            BitCount.Word(s[0], s[1], s[2], s[3]) == x
  {}

  lemma OfBytes64(x: bv64)
    ensures BitOp.Word64(BitOp.Bytes64(x)) == x
  {}

  /** XXH_swap32 on a word is the reversal of the four bytes of its number. */
  lemma Swap32Number(x: bv32)
    ensures BitCount.Value32(Swap32(x)) == Memory.Swap(BitCount.Value32(x), 4)
  {
    hide Swap32, BitCount.Word, BitCount.Value32, Bytes32, LE, BE, Memory.Swap;
    var s := Bytes32(x);
    OfBytes32(x);
    Swap32Reverses(s[0], s[1], s[2], s[3]);
    Word32Value(s);
    Reverse4(s);
    Word32Value(Reversed(s));
    LEReversed(s);
    SwapOfLE(s);
  }

  /** XXH_swap64 on a word is the reversal of the eight bytes of its number. */
  lemma Swap64Number(x: bv64)
    ensures Value(Swap64(x)) == Memory.Swap(Value(x), 8)
  {
    hide Swap64, BitOp.Word64, Value, BitOp.Bytes64, LE, BE, Memory.Swap;
    var s := BitOp.Bytes64(x);
    OfBytes64(x);
    Reverse8Is(s);
    Swap64Reverses(Reversed(s));
    ReversedTwice(s);
    Word64Value(s);
    Word64Value(Reversed(s));
    LEReversed(s);
    SwapOfLE(s);
  }

  lemma ReversedTwice(s: seq<byte>)
    requires |s| == 8
    ensures BitOp.Reverse8(BitOp.Reverse8(s)) == s
  {}
}
