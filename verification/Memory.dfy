/** Words in memory on machines of either byte order (src/xxhash.c:174-250 and 618-661). */
module Memory {
  import opened Words

  type byte = bv8

  function Bit(b: bool): nat {
    if b then 1 else 0
  }

  /** A C string ends at the first NUL byte of its buffer. */
  function CString(s: seq<byte>): seq<byte> {
    if s == [] || s[0] == 0 then [] else [s[0]] + CString(s[1..])
  }

  datatype Endianess = LittleEndian | BigEndian

  function Val(b: byte): (v: nat)
    ensures v < 256
  {
    b as nat
  }

  /** The byte of a value below 256. */
  function ToByte(v: nat): (b: byte)
    requires v < 256
    ensures Val(b) == v
  {
    if v == 0 then 0
    else
      var half := ToByte(v / 2);
      ByteDoubled(half);
      (half << 1) | (if v % 2 == 1 then 1 else 0)
  }

  lemma ByteDoubled(b: byte)
    requires Val(b) < 128
    ensures Val((b << 1) | 0) == 2 * Val(b) && Val((b << 1) | 1) == 2 * Val(b) + 1
  {}

  /** The value of a byte sequence whose first byte is the least significant. */
  function LE(s: seq<byte>): nat {
    if s == [] then 0 else Val(s[0]) + 256 * LE(s[1..])
  }

  /** The value of a byte sequence whose last byte is the least significant. */
  function BE(s: seq<byte>): nat {
    if s == [] then 0 else 256 * BE(s[..|s| - 1]) + Val(s[|s| - 1])
  }

  /** XXH_read32 and XXH_read64: the word the processor loads. */
  function Load(cpu: Endianess, s: seq<byte>): nat {
    match cpu
    case LittleEndian => LE(s)
    case BigEndian => BE(s)
  }

  /** The n bytes the processor stores for a word. */
  function Store(cpu: Endianess, x: nat, n: nat): (s: seq<byte>)
    ensures |s| == n
  {
    if n == 0 then []
    else
      var rest := Store(cpu, x / 256, n - 1);
      match cpu
      case LittleEndian => [ToByte(x % 256)] + rest
      case BigEndian => rest + [ToByte(x % 256)]
  }

  /** XXH_swap32 and XXH_swap64: the n bytes of x in the opposite order. */
  function Swap(x: nat, n: nat): nat {
    if n == 0 then 0 else (x % 256) * Pow256(n - 1) + Swap(x / 256, n - 1)
  }

  function Pow256(n: nat): nat {
    if n == 0 then 1 else 256 * Pow256(n - 1)
  }

  /** XXH_readLE32 and XXH_readLE64 with the byte order that XXH_isLittleEndian detects. */
  function ReadLE(cpu: Endianess, s: seq<byte>): nat {
    if cpu.LittleEndian? then Load(cpu, s) else Swap(Load(cpu, s), |s|)
  }

  /** XXH_readBE32 and XXH_readBE64. */
  function ReadBE(cpu: Endianess, s: seq<byte>): nat {
    if cpu.LittleEndian? then Swap(Load(cpu, s), |s|) else Load(cpu, s)
  }

  /** XXH32_canonicalFromHash and XXH64_canonicalFromHash. */
  function CanonicalFromHash(cpu: Endianess, hash: nat, n: nat): (s: seq<byte>) {
    Store(cpu, if cpu.LittleEndian? then Swap(hash, n) else hash, n)
  }

  lemma {:induction false} BEFront(b: byte, s: seq<byte>)
    ensures BE([b] + s) == Val(b) * Pow256(|s|) + BE(s)
  {
    hide Val;
    if s == [] {
      assert BE([b]) == 256 * BE([b][..0]) + Val(b);
    } else {
      var t := s[..|s| - 1];
      assert ([b] + s)[..|s|] == [b] + t;
      BEFront(b, t);
      Scale(Val(b), Pow256(|t|));
    }
  }

  lemma Scale(v: nat, p: nat)
    ensures 256 * (v * p) == v * (256 * p)
  {}

  lemma SwapStep(b: nat, rest: nat, n: nat)
    requires b < 256
    ensures Swap(b + 256 * rest, n + 1) == b * Pow256(n) + Swap(rest, n)
  {
    assert (b + 256 * rest) % 256 == b && (b + 256 * rest) / 256 == rest;
  }

  /** Swapping the little-endian value gives the big-endian one. */
  lemma {:induction false} SwapOfLE(s: seq<byte>)
    ensures Swap(LE(s), |s|) == BE(s)
  {
    hide Val, Swap, BE, Pow256;
    if s == [] {
      NoBytes();
    } else {
      SwapOfLE(s[1..]);
      assert s == [s[0]] + s[1..];
      BEFront(s[0], s[1..]);
      SwapStep(Val(s[0]), LE(s[1..]), |s| - 1);
    }
  }

  lemma NoBytes()
    ensures Swap(0, 0) == 0 && LE([]) == 0 && BE([]) == 0
  {}

  /** Swapping the big-endian value gives the little-endian one. */
  lemma {:induction false} SwapOfBE(s: seq<byte>)
    ensures Swap(BE(s), |s|) == LE(s)
  {
    hide Val, Swap, LE, Pow256;
    if s == [] {
      NoBytes();
    } else {
      var front, last := s[..|s| - 1], s[|s| - 1];
      SwapOfBE(front);
      assert s == front + [last];
      LEBack(front, last);
      SwapStep(Val(last), BE(front), |front|);
    }
  }

  lemma {:induction false} LEBack(s: seq<byte>, b: byte)
    ensures LE(s + [b]) == LE(s) + Val(b) * Pow256(|s|)
  {
    hide Val;
    if s == [] {
      assert [b][1..] == [];
    } else {
      assert (s + [b])[1..] == s[1..] + [b];
      LEBack(s[1..], b);
      Scale(Val(b), Pow256(|s| - 1));
    }
  }

  function Reversed(s: seq<byte>): (r: seq<byte>)
    ensures |r| == |s|
  {
    if s == [] then [] else Reversed(s[1..]) + [s[0]]
  }

  lemma {:induction false} LEReversed(s: seq<byte>)
    ensures LE(Reversed(s)) == BE(s)
  {
    hide Val;
    if s == [] {
      NoBytes();
    } else {
      LEReversed(s[1..]);
      assert s == [s[0]] + s[1..];
      BEFront(s[0], s[1..]);
      LEBack(Reversed(s[1..]), s[0]);
    }
  }

  /** A little-endian read yields the same word on every processor. */
  lemma ReadLEPortable(cpu: Endianess, s: seq<byte>)
    ensures ReadLE(cpu, s) == LE(s)
  {
    SwapOfBE(s);
  }

  lemma {:induction false} LEBound(s: seq<byte>)
    ensures LE(s) < Pow256(|s|)
  {
    hide Val;
    if s == [] {
    } else {
      LEBound(s[1..]);
    }
  }

  lemma ValInjective(a: byte, b: byte)
    requires Val(a) == Val(b)
    ensures a == b
  {}

  lemma FirstDigit(a: nat, x: nat, b: nat, y: nat)
    requires a < 256 && b < 256 && a + 256 * x == b + 256 * y
    ensures a == b && x == y
  {}

  /** A little-endian word determines its bytes. */
  lemma {:induction false} LEInjective(s: seq<byte>, t: seq<byte>)
    requires |s| == |t| && LE(s) == LE(t)
    ensures s == t
  {
    if s == [] {
    } else {
      FirstDigit(Val(s[0]), LE(s[1..]), Val(t[0]), LE(t[1..]));
      hide Val;
      ValInjective(s[0], t[0]);
      LEInjective(s[1..], t[1..]);
      hide LE;
      assert s == [s[0]] + s[1..];
      assert t == [t[0]] + t[1..];
    }
  }

  lemma {:induction false} StoreLoad(cpu: Endianess, x: nat, n: nat)
    requires x < Pow256(n)
    ensures Load(cpu, Store(cpu, x, n)) == x
  {
    hide Val, ToByte;
    if n == 0 {
    } else {
      StoreLoad(cpu, x / 256, n - 1);
      var rest, b := Store(cpu, x / 256, n - 1), ToByte(x % 256);
      assert x == 256 * (x / 256) + Val(b);
      assert ([b] + rest)[1..] == rest;
      assert (rest + [b])[..|rest|] == rest;
    }
  }

  lemma {:induction false} StoreOpposite(x: nat, n: nat)
    requires x < Pow256(n)
    ensures LE(Store(BigEndian, x, n)) == Swap(x, n)
    ensures BE(Store(LittleEndian, x, n)) == Swap(x, n)
  {
    StoreLoad(BigEndian, x, n);
    SwapOfBE(Store(BigEndian, x, n));
    StoreLoad(LittleEndian, x, n);
    SwapOfLE(Store(LittleEndian, x, n));
  }

  lemma {:induction false} SwapBound(x: nat, n: nat)
    requires x < Pow256(n)
    ensures Swap(x, n) < Pow256(n)
  {
    StoreOpposite(x, n);
    LEBound(Store(BigEndian, x, n));
  }

  /** hashFromCanonical undoes canonicalFromHash between any two machines, and the canonical bytes
      are the big-endian digits of the hash wherever they were written. */
  lemma CanonicalRoundTrip(writer: Endianess, reader: Endianess, hash: nat, n: nat)
    requires hash < Pow256(n)
    ensures CanonicalFromHash(writer, hash, n) == Store(BigEndian, hash, n)
    ensures ReadBE(reader, CanonicalFromHash(writer, hash, n)) == hash
  {
    SwapBound(hash, n);
    StoreLoad(BigEndian, hash, n);
    var s := Store(BigEndian, hash, n);
    SwapOfLE(s);
    StoreOpposite(hash, n);
    StoreLoad(LittleEndian, Swap(hash, n), n);
    LEInjective(Store(LittleEndian, Swap(hash, n), n), s);
  }
}
