/** SETBIT, GETBIT and BITCOUNT (src/bitops.c:35-97 and 152-210). */
module BitCommands {
  import opened Memory
  import opened FileView
  import opened Wrappers
  import opened BitCount
  import Words
  import WordBits

  // ---------- The bitmap a file stands for ----------

  /** 1 << bit in a byte. */
  function Mask(bit: nat): byte
    requires bit < 8
  {
    match bit
    case 0 => 0x01
    case 1 => 0x02
    case 2 => 0x04
    case 3 => 0x08
    case 4 => 0x10
    case 5 => 0x20
    case 6 => 0x40
    case _ => 0x80
  }

  /** The bit of a byte that a mask selects. */
  function BitIn(b: byte, bit: nat): nat
    requires bit < 8
  {
    Bit(b & Mask(bit) != 0)
  }

  /** Bit k of a file, the highest bit of a byte first; bits past the end are 0. */
  function BitAt(data: seq<byte>, k: nat): nat {
    BitIn(At(data, k / 8), 7 - k % 8)
  }

  /** One byte with one bit replaced. */
  function PutBit(b: byte, bit: nat, value: nat): byte
    requires bit < 8 && value <= 1
  {
    (b & (0xFF ^ Mask(bit))) | (if value == 1 then Mask(bit) else 0)
  }

  lemma Masks(bit: nat, other: nat)
    requires bit < 8 && other < 8
    ensures Mask(bit) != 0
    ensures bit != other ==> Mask(bit) & Mask(other) == 0
  {}

  lemma MaskedUpdate(b: byte, m: byte, n: byte)
    ensures ((b & (0xFF ^ m)) | m) & m == m && ((b & (0xFF ^ m)) | 0) & m == 0
    ensures m & n == 0 ==> ((b & (0xFF ^ m)) | m) & n == b & n && ((b & (0xFF ^ m)) | 0) & n == b & n
  {}

  lemma PutBitAt(b: byte, bit: nat, value: nat, other: nat)
    requires bit < 8 && value <= 1 && other < 8
    ensures BitIn(PutBit(b, bit, value), other) == if other == bit then value else BitIn(b, other)
  {
    hide Mask;
    Masks(bit, other);
    MaskedUpdate(b, Mask(bit), Mask(other));
  }

  // ---------- Which bit of a byte that is ----------

  lemma Weights(b: byte)
    ensures b as nat == 128 * BitIn(b, 7) + 64 * BitIn(b, 6) + 32 * BitIn(b, 5) + 16 * BitIn(b, 4)
                      + 8 * BitIn(b, 3) + 4 * BitIn(b, 2) + 2 * BitIn(b, 1) + BitIn(b, 0)
  {
    WordBits.ByteBits(b);
  }

  lemma AtMostOne(b: byte, bit: nat)
    requires bit < 8
    ensures BitIn(b, bit) <= 1
  {
    hide Mask;
  }

  lemma Powers()
    ensures Words.Pow2(0) == 1 && Words.Pow2(1) == 2 && Words.Pow2(2) == 4 && Words.Pow2(3) == 8
    ensures Words.Pow2(4) == 16 && Words.Pow2(5) == 32 && Words.Pow2(6) == 64 && Words.Pow2(7) == 128
  {}

  /** A bit of a byte is the digit of its number at that power of two. */
  lemma BitIsDigit(b: byte, bit: nat)
    requires bit < 8
    ensures BitIn(b, bit) == (b as nat / Words.Pow2(bit)) % 2
  {
    Weights(b);
    Powers();
    hide BitIn, Words.Pow2;
    forall i: nat | i < 8
      ensures BitIn(b, i) <= 1
    {
      AtMostOne(b, i);
    }
    DigitOf(b as nat, BitIn(b, 7), BitIn(b, 6), BitIn(b, 5), BitIn(b, 4), BitIn(b, 3), BitIn(b, 2), BitIn(b, 1),
            BitIn(b, 0));
  }

  lemma DigitOf(n: nat, h: nat, g: nat, f: nat, e: nat, d: nat, c: nat, b: nat, a: nat)
    requires h <= 1 && g <= 1 && f <= 1 && e <= 1 && d <= 1 && c <= 1 && b <= 1 && a <= 1
    requires n == 128 * h + 64 * g + 32 * f + 16 * e + 8 * d + 4 * c + 2 * b + a
    ensures n / 128 % 2 == h && n / 64 % 2 == g && n / 32 % 2 == f && n / 16 % 2 == e
    ensures n / 8 % 2 == d && n / 4 % 2 == c && n / 2 % 2 == b && n / 1 % 2 == a
  {
    Digit(n, 128, 0, h, 64 * g + 32 * f + 16 * e + 8 * d + 4 * c + 2 * b + a);
    Digit(n, 64, h, g, 32 * f + 16 * e + 8 * d + 4 * c + 2 * b + a);
    Digit(n, 32, 2 * h + g, f, 16 * e + 8 * d + 4 * c + 2 * b + a);
    Digit(n, 16, 4 * h + 2 * g + f, e, 8 * d + 4 * c + 2 * b + a);
    Digit(n, 8, 8 * h + 4 * g + 2 * f + e, d, 4 * c + 2 * b + a);
    Digit(n, 4, 16 * h + 8 * g + 4 * f + 2 * e + d, c, 2 * b + a);
    Digit(n, 2, 32 * h + 16 * g + 8 * f + 4 * e + 2 * d + c, b, a);
    Digit(n, 1, 64 * h + 32 * g + 16 * f + 8 * e + 4 * d + 2 * c + b, a, 0);
  }

  lemma Digit(n: nat, p: nat, high: nat, bit: nat, low: nat)
    requires p > 0 && bit <= 1 && low < p && n == (2 * high + bit) * p + low
    ensures n / p % 2 == bit
  {
    Words.DivUnique(n, p, 2 * high + bit, low);
  }

  /** Offset k is the binary digit of byte k / 8 at the power 7 - k % 8. */
  lemma BitAtIsDigit(data: seq<byte>, k: nat)
    ensures BitAt(data, k) == (At(data, k / 8) as nat / Words.Pow2(7 - k % 8)) % 2
  {
    hide BitIn, Words.Pow2;
    BitIsDigit(At(data, k / 8), 7 - k % 8);
  }

  /** Replacing a bit takes its power of two off the number, adds it, or leaves the number as it is. */
  lemma PutBitAddsPower(b: byte, bit: nat, value: nat)
    requires bit < 8 && value <= 1
    ensures PutBit(b, bit, value) as nat
         == b as nat + (value - (b as nat / Words.Pow2(bit)) % 2) * Words.Pow2(bit)
  {
    hide BitIn, PutBit, Words.Pow2, Scaled;
    BitIsDigit(b, bit);
    PutBitWeight(b, bit, value);
    TimesPower(value - BitIn(b, bit), bit);
  }

  /** A multiple of a power of two below 256. */
  function Scaled(x: int, bit: nat): int
    requires bit < 8
  {
    match bit
    case 0 => x
    case 1 => 2 * x
    case 2 => 4 * x
    case 3 => 8 * x
    case 4 => 16 * x
    case 5 => 32 * x
    case 6 => 64 * x
    case _ => 128 * x
  }

  lemma TimesPower(x: int, bit: nat)
    requires bit < 8
    ensures x * Words.Pow2(bit) == Scaled(x, bit)
  {
    Powers();
    hide Words.Pow2;
    match bit
    case 0 =>
    case 1 =>
    case 2 =>
    case 3 =>
    case 4 =>
    case 5 =>
    case 6 =>
    case _ =>
      assert bit == 7;
  }

  lemma PutBitWeight(b: byte, bit: nat, value: nat)
    requires bit < 8 && value <= 1
    ensures PutBit(b, bit, value) as nat == b as nat + Scaled(value - BitIn(b, bit), bit)
  {
    hide BitIn, PutBit, Scaled;
    var c := PutBit(b, bit, value);
    Weights(b);
    Weights(c);
    var i := 0;
    var sum, sum' := 0, 0;
    while i < 8
      invariant i <= 8
      invariant sum == WeightsBelow(b, i) && sum' == WeightsBelow(c, i)
      invariant sum' == sum + if bit < i then Scaled(value - BitIn(b, bit), bit) else 0
    {
      PutBitAt(b, bit, value, i);
      ScaledDifference(BitIn(c, i), BitIn(b, i), i);
      sum, sum' := sum + Scaled(BitIn(b, i), i), sum' + Scaled(BitIn(c, i), i);
      i := i + 1;
    }
    AllWeights(b);
    AllWeights(c);
  }

  function WeightsBelow(b: byte, i: nat): int
    requires i <= 8
  {
    if i == 0 then 0 else WeightsBelow(b, i - 1) + Scaled(BitIn(b, i - 1), i - 1)
  }

  lemma AllWeights(b: byte)
    ensures WeightsBelow(b, 8) == b as nat
  {
    Weights(b);
    hide BitIn;
    assert WeightsBelow(b, 1) == BitIn(b, 0);
    assert WeightsBelow(b, 2) == WeightsBelow(b, 1) + 2 * BitIn(b, 1);
    assert WeightsBelow(b, 3) == WeightsBelow(b, 2) + 4 * BitIn(b, 2);
    assert WeightsBelow(b, 4) == WeightsBelow(b, 3) + 8 * BitIn(b, 3);
    assert WeightsBelow(b, 5) == WeightsBelow(b, 4) + 16 * BitIn(b, 4);
    assert WeightsBelow(b, 6) == WeightsBelow(b, 5) + 32 * BitIn(b, 5);
    assert WeightsBelow(b, 7) == WeightsBelow(b, 6) + 64 * BitIn(b, 6);
  }

  lemma ScaledDifference(x: int, y: int, bit: nat)
    requires bit < 8
    ensures Scaled(x, bit) - Scaled(y, bit) == Scaled(x - y, bit)
    ensures Scaled(0, bit) == 0
  {}

  /** Offset 1 is the second highest bit of the first byte. */
  lemma SecondBitExample()
    ensures SetData([], 0, 1, 1) == [0x40] && BitAt([0x40], 1) == 1 && BitAt([0x40], 6) == 0
  {
    assert PutBit(0, 6, 1) == 0x40;
    assert BitIn(0x40, 6) == 1 && BitIn(0x40, 1) == 0;
    hide PutBit, BitIn;
    assert Written([], [0x40], 0) == [0x40];
  }

  lemma OnesByMask(b: byte)
    ensures Ones(b) == BitIn(b, 0) + BitIn(b, 1) + BitIn(b, 2) + BitIn(b, 3)
                     + BitIn(b, 4) + BitIn(b, 5) + BitIn(b, 6) + BitIn(b, 7)
  {}

  lemma PutBitOnes(b: byte, bit: nat, value: nat)
    requires bit < 8 && value <= 1
    ensures Ones(PutBit(b, bit, value)) == Ones(b) - BitIn(b, bit) + value
  {
    hide Ones, PutBit, BitIn;
    OnesByMask(b);
    OnesByMask(PutBit(b, bit, value));
    forall other | 0 <= other < 8
      ensures BitIn(PutBit(b, bit, value), other)
           == if other == bit then value else BitIn(b, other)
    {
      PutBitAt(b, bit, value, other);
    }
  }

  /** Replacing one byte changes the count by the difference of the two bytes. */
  lemma CountReplace(s: seq<byte>, j: nat, b: byte)
    requires j < |s|
    ensures Count(s[j := b]) == Count(s) - Ones(s[j]) + Ones(b)
  {
    hide Ones;
    var front, rest := s[..j], s[j + 1..];
    assert s == front + ([s[j]] + rest);
    assert s[j := b] == front + ([b] + rest);
    CountConcat(front, [s[j]] + rest);
    CountConcat(front, [b] + rest);
    CountConcat([s[j]], rest);
    CountConcat([b], rest);
    CountOne(s[j]);
    CountOne(b);
  }

  lemma CountOne(b: byte)
    ensures Count([b]) == Ones(b)
  {
    assert [b][1..] == [];
  }

  lemma {:induction false} CountZeros(n: nat)
    ensures Count(Zeros(n)) == 0
  {
    if n == 0 {
    } else {
      assert Zeros(n)[1..] == Zeros(n - 1);
      CountZeros(n - 1);
    }
  }

  /** Appending zeros changes neither the bitmap nor the count. */
  lemma Padding(data: seq<byte>, n: nat)
    ensures Count(data + Zeros(n)) == Count(data)
    ensures forall k: nat :: BitAt(data + Zeros(n), k) == BitAt(data, k)
  {
    hide Ones, BitIn;
    CountConcat(data, Zeros(n));
    CountZeros(n);
    forall k: nat
      ensures BitAt(data + Zeros(n), k) == BitAt(data, k)
    {
      assert At(data + Zeros(n), k / 8) == At(data, k / 8);
    }
  }

  /** What storing one changed byte does to the bitmap and to the number of set bits. */
  lemma StoreBit(data: seq<byte>, offset: nat, value: nat)
    requires value <= 1
    ensures var j := offset / 8;
            var data' := Written(data, [PutBit(At(data, j), 7 - offset % 8, value)], j);
            && (forall k: nat :: BitAt(data', k) == if k == offset then value else BitAt(data, k))
            && Count(data') == Count(data) - BitAt(data, offset) + value
            && |data'| == Max(|data|, j + 1)
  {
    hide Ones, BitIn, PutBit, Count;
    var j, bit := offset / 8, 7 - offset % 8;
    var b := PutBit(At(data, j), bit, value);
    forall k: nat
      ensures BitAt(Written(data, [b], j), k) == if k == offset then value else BitAt(data, k)
    {
      WrittenAt(data, [b], j, k / 8);
      PutBitAt(At(data, j), bit, value, 7 - k % 8);
      if k / 8 == j && k % 8 == offset % 8 {
        assert k == offset;
      }
    }
    WrittenAt(data, [b], j, 0);
    StoreByteCount(data, j, b);
    PutBitOnes(At(data, j), bit, value);
  }

  lemma StoreByteCount(data: seq<byte>, j: nat, b: byte)
    ensures Count(Written(data, [b], j)) == Count(data) - Ones(At(data, j)) + Ones(b)
  {
    hide Ones, BitIn, Count;
    var padded := data + Zeros(Max(j + 1 - |data|, 0));
    Padding(data, Max(j + 1 - |data|, 0));
    assert Written(data, [b], j) == padded[j := b];
    CountReplace(padded, j, b);
  }

  // ---------- SETBIT and GETBIT ----------

  /** The bit, or -1 where the cached length promises a byte that the file does not have. */
  function BitReply(data: seq<byte>, length: nat, offset: nat): int {
    if |data| <= offset / 8 < length then -1 else BitAt(data, offset)
  }

  /** Whether SETBIT writes: not where the byte cannot be read, and no 0 past the end. */
  predicate Stores(data: seq<byte>, length: nat, offset: nat, value: nat) {
    if offset / 8 < length then offset / 8 < |data| else value != 0
  }

  /** The file after SETBIT. */
  function SetData(data: seq<byte>, length: nat, offset: nat, value: nat): seq<byte>
    requires value <= 1
  {
    if Stores(data, length, offset, value)
    then Written(data, [PutBit(At(data, offset / 8), 7 - offset % 8, value)], offset / 8)
    else data
  }

  /** The cached length after SETBIT. */
  function SetLength(data: seq<byte>, length: nat, offset: nat, value: nat): nat {
    if Stores(data, length, offset, value) then Max(length, offset / 8 + 1) else length
  }

  /** What SETBIT does to the bitmap where it does not fail. */
  lemma SetDataIs(data: seq<byte>, length: nat, offset: nat, value: nat)
    requires value <= 1 && |data| <= length && BitReply(data, length, offset) != -1
    ensures var data' := SetData(data, length, offset, value);
            && (forall k: nat :: BitAt(data', k) == if k == offset then value else BitAt(data, k))
            && Count(data') == Count(data) - BitAt(data, offset) + value
            && |data'| <= SetLength(data, length, offset, value)
            && (|data| == length ==> |data'| == SetLength(data, length, offset, value))
  {
    hide Count, BitAt, PutBit;
    ReadBitAt(data, offset);
    if Stores(data, length, offset, value) {
      StoreBit(data, offset, value);
    } else {
      StoreNothing(data, offset);
    }
  }

  /** Reading the byte fails: the stream has an error, or the cached length promises more than the file has. */
  predicate ReadFails(data: seq<byte>, length: nat, offset: nat, read: bool) {
    offset / 8 < length && (!read || |data| <= offset / 8)
  }

  /** setbitCommand. The dispatcher has checked that the offset is not negative and the value a bit. `read`
      and `fate` tell how reading and writing the byte turn out, where they happen. */
  method SetBit(dt: Desc, offset: nat, value: nat, read: bool := true, fate: Fate := Done) returns (r: int)
    requires dt.Valid() && value <= 1
    modifies dt
    ensures fate.Done? ==> dt.Valid()
    ensures ReadFails(old(dt.data), old(dt.length), offset, read) ==>
              r == -1 && dt.data == old(dt.data) && dt.length == old(dt.length)
    ensures !ReadFails(old(dt.data), old(dt.length), offset, read)
            && (fate.Done? || !Stores(old(dt.data), old(dt.length), offset, value)) ==>
              && r == BitAt(old(dt.data), offset)
              && dt.data == SetData(old(dt.data), old(dt.length), offset, value)
              && dt.length == SetLength(old(dt.data), old(dt.length), offset, value)
    ensures !ReadFails(old(dt.data), old(dt.length), offset, read)
            && !fate.Done? && Stores(old(dt.data), old(dt.length), offset, value) ==>
              && r == -1 && dt.length == old(dt.length)
              && (dt.data == old(dt.data) || dt.data == SetData(old(dt.data), old(dt.length), offset, value))
    ensures r != -1 ==> forall k: nat :: BitAt(dt.data, k) == if k == offset then value else BitAt(old(dt.data), k)
    ensures r != -1 ==> Count(dt.data) == Count(old(dt.data)) - r + value
  {
    hide BitIn, Mask, PutBit, Count, BitAt, Written;
    ghost var data, length := dt.data, dt.length;
    var j, bit := offset / 8, 7 - offset % 8;
    var byteval, bitval;
    ReadBitAt(data, offset);
    if !ReadFails(data, length, offset, read) {
      SetDataIs(data, length, offset, value);
    }
    if j < dt.length {
      var n, got := dt.ReadFrom(1, j, if read then None else Some(0));
      if n == 0 {
        return -1;
      }
      byteval := got[0];
      bitval := byteval & Mask(bit);
    } else {
      bitval := 0;
      byteval := 0;
      if value == 0 {
        return 0;
      }
    }
    byteval := PutBit(byteval, bit, value);
    assert byteval == PutBit(At(data, j), bit, value);
    PartOfByte(data, byteval, j, fate);
    var written := dt.WriteTo([byteval], j, fate);
    if written == 0 {
      return -1;
    }
    r := Bit(bitval != 0);
  }

  lemma PartOfByte(data: seq<byte>, b: byte, j: nat, fate: Fate)
    ensures fate.Breaks? ==>
              var now := Written(data, [b][..Min(fate.n, 1)], j);
              now == data || now == Written(data, [b], j)
  {
    if fate.Breaks? {
      if fate.n == 0 {
        assert [b][..0] == [];
      } else {
        assert [b][..1] == [b];
      }
    }
  }

  lemma ReadBitAt(data: seq<byte>, k: nat)
    ensures BitAt(data, k) == Bit(At(data, k / 8) & Mask(7 - k % 8) != 0)
    ensures k / 8 >= |data| ==> BitAt(data, k) == 0
    ensures k / 8 < |data| ==> Window(data, k / 8, 1) == [data[k / 8]]
  {
    hide Mask;
  }

  lemma StoreNothing(data: seq<byte>, offset: nat)
    requires offset / 8 >= |data|
    ensures forall k: nat :: BitAt(data, k) == if k == offset then 0 else BitAt(data, k)
  {
    hide Mask;
  }

  /** getbitCommand. */
  method GetBit(dt: Desc, offset: nat, read: bool := true) returns (r: int)
    requires dt.Valid()
    ensures r == if ReadFails(dt.data, dt.length, offset, read) then -1 else BitAt(dt.data, offset)
  {
    hide BitIn, Mask, BitAt;
    var j, bit := offset / 8, 7 - offset % 8;
    ReadBitAt(dt.data, offset);
    if j < dt.length {
      var n, got := dt.ReadFrom(1, j, if read then None else Some(0));
      if n == 0 {
        return -1;
      }
      return Bit(got[0] & Mask(bit) != 0);
    } else {
      return 0;
    }
  }

  // ---------- Command sequences against a finite set of bit offsets ----------

  datatype BitCommand = SetCommand(offset: nat, value: bool) | GetCommand(offset: nat)

  /** The specification: a set of offsets. */
  function SpecReply(ones: set<nat>, command: BitCommand): int {
    if command.offset in ones then 1 else 0
  }

  function SpecStep(ones: set<nat>, command: BitCommand): set<nat> {
    match command
    case SetCommand(offset, value) => if value then ones + {offset} else ones - {offset}
    case GetCommand(_) => ones
  }

  function SpecReplies(ones: set<nat>, commands: seq<BitCommand>): seq<int>
    decreases |commands|
  {
    if commands == [] then []
    else [SpecReply(ones, commands[0])] + SpecReplies(SpecStep(ones, commands[0]), commands[1..])
  }

  function SpecFinal(ones: set<nat>, commands: seq<BitCommand>): set<nat>
    decreases |commands|
  {
    if commands == [] then ones else SpecFinal(SpecStep(ones, commands[0]), commands[1..])
  }

  /** The k-th reply is whether the offset is in the set that the commands before it leave. */
  lemma {:induction false} ReplyAt(ones: set<nat>, commands: seq<BitCommand>, k: nat)
    requires k < |commands|
    ensures |SpecReplies(ones, commands)| == |commands|
    ensures SpecReplies(ones, commands)[k] == SpecReply(SpecFinal(ones, commands[..k]), commands[k])
    decreases |commands|
  {
    hide SpecReply, SpecStep;
    var rest := commands[1..];
    if rest == [] {
    } else {
      ReplyAt(SpecStep(ones, commands[0]), rest, if k == 0 then 0 else k - 1);
    }
    if k > 0 {
      assert commands[..k][0] == commands[0] && commands[..k][1..] == rest[..k - 1];
    }
  }

  /** The set a file stands for. */
  ghost predicate Represents(data: seq<byte>, ones: set<nat>) {
    forall k: nat :: BitAt(data, k) == if k in ones then 1 else 0
  }

  /** Any sequence of SETBIT and GETBIT on a descriptor whose length is the size of its file replies,
      and leaves the file, as the set of offsets does. */
  method RunCommands(dt: Desc, ghost ones: set<nat>, commands: seq<BitCommand>) returns (replies: seq<int>)
    requires dt.length == |dt.data| && Represents(dt.data, ones)
    modifies dt
    ensures dt.length == |dt.data|
    ensures replies == SpecReplies(ones, commands)
    ensures Represents(dt.data, SpecFinal(ones, commands))
  {
    hide SpecReply, SpecStep, Represents;
    replies := [];
    ghost var now := ones;
    assert commands[0..] == commands;
    for i := 0 to |commands|
      invariant dt.length == |dt.data| && Represents(dt.data, now)
      invariant replies + SpecReplies(now, commands[i..]) == SpecReplies(ones, commands)
      invariant SpecFinal(now, commands[i..]) == SpecFinal(ones, commands)
    {
      var r := RunOne(dt, now, commands[i]);
      OneMore(replies, now, commands, i);
      replies := replies + [r];
      now := SpecStep(now, commands[i]);
    }
    assert replies + [] == replies;
  }

  lemma OneMore(replies: seq<int>, ones: set<nat>, commands: seq<BitCommand>, i: nat)
    requires i < |commands|
    ensures replies + SpecReplies(ones, commands[i..])
         == replies + [SpecReply(ones, commands[i])] + SpecReplies(SpecStep(ones, commands[i]), commands[i + 1..])
    ensures SpecFinal(ones, commands[i..]) == SpecFinal(SpecStep(ones, commands[i]), commands[i + 1..])
  {
    hide SpecReply, SpecStep;
    var rest := commands[i..];
    assert rest[0] == commands[i] && rest[1..] == commands[i + 1..];
  }

  /** One command against the set. */
  method RunOne(dt: Desc, ghost ones: set<nat>, command: BitCommand) returns (r: int)
    requires dt.length == |dt.data| && Represents(dt.data, ones)
    modifies dt
    ensures dt.length == |dt.data| && Represents(dt.data, SpecStep(ones, command))
    ensures r == SpecReply(ones, command)
  {
    hide BitAt, Count, Represents, SetData, SetLength, Stores, ReadFails, BitReply, PutBit;
    InSet(dt.data, ones, command.offset);
    match command {
      case SetCommand(offset, value) =>
        SetChanged(dt.data, ones, offset, value);
        r := SetBit(dt, offset, if value then 1 else 0);
      case GetCommand(offset) =>
        r := GetBit(dt, offset);
    }
  }

  /** A file whose cached length is its size answers with its set. */
  lemma InSet(data: seq<byte>, ones: set<nat>, offset: nat)
    requires Represents(data, ones)
    ensures !ReadFails(data, |data|, offset, true)
    ensures BitReply(data, |data|, offset) == BitAt(data, offset) == if offset in ones then 1 else 0
  {
    hide BitAt;
  }

  /** It stays such a file, and its set changes by the one offset. */
  lemma SetChanged(data: seq<byte>, ones: set<nat>, offset: nat, value: bool)
    requires Represents(data, ones)
    ensures var v := if value then 1 else 0;
            && Represents(SetData(data, |data|, offset, v), if value then ones + {offset} else ones - {offset})
            && |SetData(data, |data|, offset, v)| == SetLength(data, |data|, offset, v)
  {
    hide BitAt, SetData, Stores, SetLength;
    InSet(data, ones, offset);
    SetDataIs(data, |data|, offset, if value then 1 else 0);
  }

  ghost function SetBelow(data: seq<byte>, n: nat): set<nat> {
    set k: nat | k < n && BitAt(data, k) == 1
  }

  lemma {:induction false} SetBelowSize(data: seq<byte>, n: nat)
    ensures |SetBelow(data, n)| == BitsBelow(data, n)
  {
    hide BitAt;
    if n == 0 {
    } else {
      SetBelowSize(data, n - 1);
      BitRange(data, n - 1);
      assert SetBelow(data, n)
          == SetBelow(data, n - 1) + if BitAt(data, n - 1) == 1 then {n - 1} else {};
    }
  }

  lemma BitRange(data: seq<byte>, k: nat)
    ensures BitAt(data, k) <= 1
    ensures k >= 8 * |data| ==> BitAt(data, k) == 0
  {
    hide Mask;
  }

  /** The sum of the bits before position n. */
  ghost function BitsBelow(data: seq<byte>, n: nat): nat {
    if n == 0 then 0 else BitsBelow(data, n - 1) + BitAt(data, n - 1)
  }

  lemma {:induction false} BitsOfBytes(data: seq<byte>, j: nat)
    requires j <= |data|
    ensures BitsBelow(data, 8 * j) == Count(data[..j])
  {
    hide BitIn, Ones, Count;
    if j == 0 {
      NoBytes(data);
    } else {
      BitsOfBytes(data, j - 1);
      hide BitsBelow;
      CountNext(data, j - 1);
      OnesByMask(data[j - 1]);
      EightBits(data, j - 1);
    }
  }

  lemma NoBytes(data: seq<byte>)
    ensures Count(data[..0]) == 0
  {}

  lemma CountNext(data: seq<byte>, j: nat)
    requires j < |data|
    ensures Count(data[..j + 1]) == Count(data[..j]) + Ones(data[j])
  {
    hide Ones, Count;
    assert data[..j + 1] == data[..j] + [data[j]];
    CountConcat(data[..j], [data[j]]);
    CountOne(data[j]);
  }

  lemma EightBits(data: seq<byte>, j: nat)
    requires j < |data|
    ensures BitsBelow(data, 8 * j + 8) == BitsBelow(data, 8 * j)
              + BitIn(data[j], 7) + BitIn(data[j], 6) + BitIn(data[j], 5) + BitIn(data[j], 4)
              + BitIn(data[j], 3) + BitIn(data[j], 2) + BitIn(data[j], 1) + BitIn(data[j], 0)
  {
    hide BitIn, BitsBelow;
    NextBit(data, j, 0);
    NextBit(data, j, 1);
    NextBit(data, j, 2);
    NextBit(data, j, 3);
    NextBit(data, j, 4);
    NextBit(data, j, 5);
    NextBit(data, j, 6);
    NextBit(data, j, 7);
  }

  lemma NextBit(data: seq<byte>, j: nat, i: nat)
    requires j < |data| && i < 8
    ensures BitsBelow(data, 8 * j + i + 1) == BitsBelow(data, 8 * j + i) + BitIn(data[j], 7 - i)
  {
    hide BitIn;
    var k := 8 * j + i;
    assert k / 8 == j && k % 8 == i;
  }

  /** The count of a file is the size of the set of offsets it stands for. */
  lemma CountIsSize(data: seq<byte>, ones: set<nat>)
    requires Represents(data, ones)
    ensures Count(data) == |ones|
  {
    hide BitAt, Count;
    var n := 8 * |data|;
    forall k: nat
      ensures k in ones <==> k < n && BitAt(data, k) == 1
    {
      BitRange(data, k);
    }
    assert ones == SetBelow(data, n);
    SetBelowSize(data, n);
    BitsOfBytes(data, |data|);
    assert data[..|data|] == data;
  }

  /** The count of a range of bytes is the number of offsets in it. */
  lemma CountInRange(data: seq<byte>, ones: set<nat>, first: nat, last: int)
    requires Represents(data, ones)
    ensures Count(Window(data, first, Max(last - first + 1, 0))) == |set k | k in ones && first <= k / 8 <= last|
  {
    hide BitAt, Count;
    var n := Max(last - first + 1, 0);
    var a, z := Min(first, |data|), Min(first + n, |data|);
    CountBetween(data, a, z);
    SetBelowSize(data, 8 * a);
    SetBelowSize(data, 8 * z);
    BitsOfBytes(data, a);
    BitsOfBytes(data, z);
    hide Represents;
    BetweenSize(SetBelow(data, 8 * a), SetBelow(data, 8 * z));
    assert SetBelow(data, 8 * z) - SetBelow(data, 8 * a) == set k | k in ones && first <= k / 8 <= last by {
      forall k: nat
        ensures k in SetBelow(data, 8 * z) - SetBelow(data, 8 * a) <==> k in ones && first <= k / 8 <= last
      {
        InRange(data, ones, first, last, k);
      }
    }
  }

  lemma InRange(data: seq<byte>, ones: set<nat>, first: nat, last: int, k: nat)
    requires Represents(data, ones)
    ensures var n := Max(last - first + 1, 0);
            (k in SetBelow(data, 8 * Min(first + n, |data|)) && k !in SetBelow(data, 8 * Min(first, |data|)))
            <==> (k in ones && first <= k / 8 <= last)
  {
    hide BitAt;
    BitRange(data, k);
  }

  lemma CountBetween(data: seq<byte>, a: nat, z: nat)
    requires a <= z <= |data|
    ensures Count(data[..z]) == Count(data[..a]) + Count(data[a..z])
  {
    hide Count;
    assert data[..z] == data[..a] + data[a..z];
    CountConcat(data[..a], data[a..z]);
  }

  lemma BetweenSize(a: set<nat>, z: set<nat>)
    requires a <= z
    ensures |z - a| == |z| - |a|
  {
    assert z == a + (z - a);
  }

  // ---------- BITCOUNT ----------

  /** The inclusive byte range, normalised: a negative bound counts from the end and stops at 0. */
  function Normalised(length: nat, start: int, end: int): (r: (int, int))
    ensures r.0 >= 0 && r.1 < Max(length, 1)
  {
    if start < 0 && end < 0 && start > end then (0, -1)
    else
      var s := if start < 0 then Max(length + start, 0) else start;
      var e := if end < 0 then Max(length + end, 0) else end;
      (s, if e >= length then length - 1 else e)
  }

  /** Of n bytes that are read in chunks, those before the first chunk whose read fails; k counts the reads. */
  function Readable(errors: nat -> Option<nat>, chunk: nat, n: nat, k: nat): (r: nat)
    requires chunk > 0
    ensures r <= n
    decreases n
  {
    if n == 0 || errors(k).Some? then 0
    else if n <= chunk then n
    else chunk + Readable(errors, chunk, n - chunk, k + 1)
  }

  lemma {:induction false} AllReadable(errors: nat -> Option<nat>, chunk: nat, n: nat, k: nat)
    requires chunk > 0 && forall i: nat :: errors(i).None?
    ensures Readable(errors, chunk, n, k) == n
    decreases n
  {
    if n <= chunk {
    } else {
      AllReadable(errors, chunk, n - chunk, k + 1);
    }
  }

  /** What is read is what comes before the first read that fails. */
  lemma {:induction false} ReadableUntil(errors: nat -> Option<nat>, chunk: nat, n: nat, from: nat, k: nat)
    requires chunk > 0 && from <= k && errors(k).Some? && forall i :: from <= i < k ==> errors(i).None?
    ensures Readable(errors, chunk, n, from) == Min(n, (k - from) * chunk)
    decreases n
  {
    if n == 0 || from == k {
      Words.ProductNonNegative(k - from, chunk);
    } else {
      assert (k - from) * chunk == chunk + (k - (from + 1)) * chunk;
      Words.ProductNonNegative(k - (from + 1), chunk);
      if n > chunk {
        ReadableUntil(errors, chunk, n - chunk, from + 1, k);
      }
    }
  }

  /** The loop of bitcountCommand: the set bits of n bytes from o on, as far as they can be read. */
  method CountBytes(cpu: Endianess, dt: Desc, from: nat, n: nat, errors: nat -> Option<nat>, chunk: nat)
    returns (bits: nat)
    requires chunk > 0
    ensures bits == Count(Window(dt.data, from, Readable(errors, chunk, n, 0)))
  {
    hide Count, Window, Readable;
    var o, remaining := from, n;
    var k := 0;
    bits := 0;
    while remaining > 0
      invariant 0 <= remaining && 0 <= o && 0 <= k
      invariant bits + Count(Window(dt.data, o, Readable(errors, chunk, remaining, k)))
             == Count(Window(dt.data, from, Readable(errors, chunk, n, 0)))
    {
      var size := if remaining < chunk then remaining else chunk;
      var read, got := dt.ReadFrom(size, o, errors(k));
      if read == 0 {
        NothingRead(dt.data, o, size, errors, chunk, remaining, k);
        return;
      }
      NextRead(dt.data, o, errors, chunk, remaining, k);
      o := o + read;
      var ones := Popcount(cpu, got);
      bits := bits + ones;
      remaining, k := remaining - read, k + 1;
    }
    EmptyWindow(dt.data, o);
  }

  /** A read that yields nothing has failed or is past the end. */
  lemma NothingRead(data: seq<byte>, o: nat, size: nat, errors: nat -> Option<nat>, chunk: nat, n: nat, k: nat)
    requires size > 0 && chunk > 0 && (errors(k).None? ==> Got(data, o, size, errors(k)) == [])
    ensures Count(Window(data, o, Readable(errors, chunk, n, k))) == 0
  {}

  /** A read that yields bytes takes them off what is readable. */
  lemma NextRead(data: seq<byte>, o: nat, errors: nat -> Option<nat>, chunk: nat, remaining: nat, k: nat)
    requires chunk > 0 && remaining > 0 && errors(k).None?
    ensures var got := Window(data, o, if remaining < chunk then remaining else chunk);
            && |got| <= remaining
            && Count(Window(data, o, Readable(errors, chunk, remaining, k)))
               == Count(got) + Count(Window(data, o + |got|, Readable(errors, chunk, remaining - |got|, k + 1)))
  {
    hide Count, Window;
    var size := if remaining < chunk then remaining else chunk;
    var got := Window(data, o, size);
    WindowSize(data, o, size);
    var rest := Readable(errors, chunk, remaining - |got|, k + 1);
    WindowSplit(data, o, size, Readable(errors, chunk, remaining, k) - size, rest);
    CountConcat(got, Window(data, o + |got|, rest));
  }

  lemma WindowSize(data: seq<byte>, o: nat, size: nat)
    ensures |Window(data, o, size)| <= size
  {}

  /** A window is a shorter one and what follows; where the shorter one is at the end nothing follows. */
  lemma WindowSplit(data: seq<byte>, o: nat, size: nat, more: nat, next: nat)
    requires |Window(data, o, size)| == size ==> more == next
    ensures var got := Window(data, o, size);
            Window(data, o, size + more) == got + Window(data, o + |got|, next)
  {}

  /** bitcountCommand, for every signed start and end, through reads of at most `chunk` bytes: the set bits of
      the normalised range of bytes, as far as the file holds them and up to the first read that fails; -1 if
      there is something to read and no memory for the buffer. */
  method BitCountCommand(cpu: Endianess, dt: Desc, start: int, end: int, memory: bool,
                         errors: nat -> Option<nat>, chunk: nat := FILE_BUFFER_SIZE)
    returns (r: int)
    requires chunk > 0
    ensures var (s, e) := Normalised(dt.length, start, end);
            r == if s <= e && !memory then -1
                 else Count(Window(dt.data, s, Readable(errors, chunk, Max(e - s + 1, 0), 0)))
  {
    hide Count, Window;
    var s, e := start, end;
    var length := dt.length;
    EmptyWindow(dt.data, 0);
    if s < 0 && e < 0 && s > e {
      return 0;
    }
    if s < 0 {
      s := length + s;
      if s < 0 {
        s := 0;
      }
    }
    if e < 0 {
      e := length + e;
      if e < 0 {
        e := 0;
      }
    }
    if e >= length {
      e := length - 1;
    }
    if s > e {
      EmptyWindow(dt.data, s);
      return 0;
    }
    if !memory {
      return -1;
    }
    r := CountBytes(cpu, dt, s, e - s + 1, errors, chunk);
  }

  lemma EmptyWindow(data: seq<byte>, offset: nat)
    ensures Count(Window(data, offset, 0)) == 0
  {}

  /** What BITCOUNT replies for a file whose cached length is its size. */
  function BitCountOf(data: seq<byte>, start: int, end: int): nat {
    var (s, e) := Normalised(|data|, start, end);
    Count(Window(data, s, Max(e - s + 1, 0)))
  }

  /** The position a range argument names: negative arguments count from the end, -1 the last byte. */
  function Position(length: nat, x: int): int {
    if x < 0 then length + x else x
  }

  /** The naive count: every byte from position lo to position hi, wherever these lie. */
  function NamedCount(data: seq<byte>, lo: int, hi: int): nat {
    if data == [] then 0
    else
      var j := |data| - 1;
      NamedCount(data[..j], lo, hi) + if lo <= j <= hi then Ones(data[j]) else 0
  }

  lemma EmptyFile(from: nat, size: nat)
    ensures Window([], from, size) == []
  {}

  lemma WindowBack(data: seq<byte>, j: nat, from: nat, size: nat)
    requires |data| == j + 1
    ensures Window(data, from, size)
         == Window(data[..j], from, size) + if from <= j < from + size then [data[j]] else []
  {}

  lemma {:induction false} NamedIsWindow(data: seq<byte>, lo: int, hi: int)
    ensures NamedCount(data, lo, hi) == Count(Window(data, Max(lo, 0), Max(hi + 1 - Max(lo, 0), 0)))
  {
    hide Ones, Window;
    var from, size := Max(lo, 0), Max(hi + 1 - Max(lo, 0), 0);
    if data != [] {
      var j := |data| - 1;
      NamedIsWindow(data[..j], lo, hi);
      WindowBack(data, j, from, size);
      CountConcat(Window(data[..j], from, size), if lo <= j <= hi then [data[j]] else []);
      CountOne(data[j]);
    } else {
      EmptyFile(from, size);
    }
  }

  /** An end that lies before the first byte is moved onto it instead of emptying the range. */
  predicate EndMovedToFirstByte(length: nat, start: int, end: int) {
    length > 0 && length + end < 0 && (start == 0 || length + start <= 0) && !(start < 0 && start > end)
  }

  /** BITCOUNT is the naive count of the named range exactly unless its end was moved onto a first
      byte that has bits set. */
  lemma BitCountIsNaive(data: seq<byte>, start: int, end: int)
    ensures BitCountOf(data, start, end) == NamedCount(data, Position(|data|, start), Position(|data|, end))
       <==> !(EndMovedToFirstByte(|data|, start, end) && Ones(data[0]) > 0)
  {
    if EndMovedToFirstByte(|data|, start, end) {
      EndMoved(data, start, end);
    } else {
      EndNotMoved(data, start, end);
    }
  }

  lemma EndMoved(data: seq<byte>, start: int, end: int)
    requires EndMovedToFirstByte(|data|, start, end)
    ensures BitCountOf(data, start, end) == Ones(data[0])
    ensures NamedCount(data, Position(|data|, start), Position(|data|, end)) == 0
  {
    hide Ones, Count, Window;
    var lo, hi := Position(|data|, start), Position(|data|, end);
    NamedIsWindow(data, lo, hi);
    EmptyWindow(data, Max(lo, 0));
    FirstByte(data);
    CountOne(data[0]);
  }

  lemma FirstByte(data: seq<byte>)
    requires data != []
    ensures Window(data, 0, 1) == [data[0]]
  {}

  lemma EndNotMoved(data: seq<byte>, start: int, end: int)
    requires !EndMovedToFirstByte(|data|, start, end)
    ensures BitCountOf(data, start, end) == NamedCount(data, Position(|data|, start), Position(|data|, end))
  {
    hide Ones, Count, Window;
    var lo, hi := Position(|data|, start), Position(|data|, end);
    var (s, e) := Normalised(|data|, start, end);
    NamedIsWindow(data, lo, hi);
    SameWindow(data, lo, hi, s, e);
  }

  lemma SameWindow(data: seq<byte>, lo: int, hi: int, s: nat, e: int)
    requires s == Max(lo, 0) || (hi < 0 && e < s) || (hi < lo && e < s)
    requires e == Min(hi, |data| - 1) || (hi < s && e < s) || (hi < lo && e < s)
    ensures Window(data, s, Max(e - s + 1, 0)) == Window(data, Max(lo, 0), Max(hi + 1 - Max(lo, 0), 0))
  {}

  /** On a one-byte file holding a set bit, BITCOUNT 0 -5 counts the byte although no byte is named. */
  lemma EndMovedExample()
    ensures BitCountOf([0x80], 0, -5) == 1 && NamedCount([0x80], 0, Position(1, -5)) == 0
  {
    BitCountIsNaive([0x80], 0, -5);
    assert Window([0x80], 0, 1) == [0x80];
    CountOne(0x80);
  }

  /** The end of the range was moved onto a byte that has bits set. */
  predicate Miscounts(data: seq<byte>, start: int, end: int) {
    EndMovedToFirstByte(|data|, start, end) && Ones(data[0]) > 0
  }

  /** Counts over adjacent ranges add up, for bounds of either sign, as long as each range is counted as
      named. The byte after -1 cannot be named by adding 1. */
  lemma AdjacentRanges(data: seq<byte>, a: int, b: int, c: int)
    requires b != -1 && Position(|data|, a) <= Position(|data|, b) + 1 <= Position(|data|, c) + 1
    requires !Miscounts(data, a, b) && !Miscounts(data, b + 1, c) && !Miscounts(data, a, c)
    ensures BitCountOf(data, a, b) + BitCountOf(data, b + 1, c) == BitCountOf(data, a, c)
  {
    hide NamedCount, BitCountOf, EndMovedToFirstByte;
    BitCountIsNaive(data, a, b);
    BitCountIsNaive(data, b + 1, c);
    BitCountIsNaive(data, a, c);
    NamedAdjacent(data, Position(|data|, a), Position(|data|, b), Position(|data|, c));
  }

  lemma {:induction false} NamedAdjacent(data: seq<byte>, lo: int, m: int, hi: int)
    requires lo <= m + 1 <= hi + 1
    ensures NamedCount(data, lo, m) + NamedCount(data, m + 1, hi) == NamedCount(data, lo, hi)
  {
    hide Ones;
    if data == [] {
    } else {
      NamedAdjacent(data[..|data| - 1], lo, m, hi);
    }
  }

  /** An end that is not negative, or that names a byte of the file, is never moved. */
  lemma NotMiscounted(data: seq<byte>, start: int, end: int)
    requires |data| + end >= 0
    ensures !Miscounts(data, start, end)
  {}

  /** So counts add up whenever the ends name bytes of the file or are not negative. */
  lemma AdjacentInside(data: seq<byte>, a: int, b: int, c: int)
    requires b != -1 && Position(|data|, a) <= Position(|data|, b) + 1 <= Position(|data|, c) + 1
    requires |data| + b >= 0 && |data| + c >= 0
    ensures BitCountOf(data, a, b) + BitCountOf(data, b + 1, c) == BitCountOf(data, a, c)
  {
    hide Miscounts, BitCountOf;
    NotMiscounted(data, a, b);
    NotMiscounted(data, b + 1, c);
    NotMiscounted(data, a, c);
    AdjacentRanges(data, a, b, c);
  }

  /** The whole range, as BITCOUNT without a range asks for it, is the count of the file. */
  lemma WholeFile(data: seq<byte>)
    ensures BitCountOf(data, 0, |data| - 1) == Count(data)
    ensures BitCountOf(data, 0, -1) == Count(data)
  {
    hide Ones, Count;
    if data != [] {
      assert Window(data, 0, |data|) == data;
    } else {
      EmptyWindow(data, 0);
      assert Window(data, 0, 0) == data;
    }
  }
}
