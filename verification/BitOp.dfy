/** BITOP and BITCOP (src/bitops.c:237-407): the files are combined chunk by chunk, inside a chunk 32
    bytes at a time through four machine words, and the rest byte by byte. */
module BitOp {
  import opened Memory
  import opened FileView
  import opened Wrappers
  import opened BitCount
  import BitCommands

  datatype Op = AND | OR | XOR | NOT

  datatype Hook = NONE | COUNTOP | GETOP

  // ---------- What the operation means, byte by byte ----------

  function Apply(op: Op, a: byte, b: byte): byte {
    match op
    case AND => a & b
    case OR => a | b
    case XOR => a ^ b
    case NOT => a
  }

  /** The first m sources combined at position j; a source reads as zero past its end. */
  function FoldAt(op: Op, sources: seq<seq<byte>>, m: nat, j: nat): byte
    requires 1 <= m <= |sources|
  {
    if m == 1 then At(sources[0], j) else Apply(op, FoldAt(op, sources, m - 1, j), At(sources[m - 1], j))
  }

  function OpAt(op: Op, sources: seq<seq<byte>>, j: nat): byte
    requires |sources| > 0
  {
    if op == NOT then NotByte(At(sources[0], j)) else FoldAt(op, sources, |sources|, j)
  }

  /** The first n bytes of the result. */
  function Result(op: Op, sources: seq<seq<byte>>, n: nat): (s: seq<byte>)
    requires |sources| > 0
    ensures |s| == n
    ensures forall j :: 0 <= j < n ==> s[j] == OpAt(op, sources, j)
  {
    seq(n, j requires 0 <= j => OpAt(op, sources, j))
  }

  // ---------- Machine words ----------

  function Word64(s: seq<byte>): bv64
    requires |s| == 8
  {
    (s[0] as bv64) | ((s[1] as bv64) << 8) | ((s[2] as bv64) << 16) | ((s[3] as bv64) << 24)
    | ((s[4] as bv64) << 32) | ((s[5] as bv64) << 40) | ((s[6] as bv64) << 48) | ((s[7] as bv64) << 56)
  }

  function Bytes64(x: bv64): (s: seq<byte>)
    ensures |s| == 8
  {
    [(x & 0xFF) as byte, ((x >> 8) & 0xFF) as byte, ((x >> 16) & 0xFF) as byte, ((x >> 24) & 0xFF) as byte,
     ((x >> 32) & 0xFF) as byte, ((x >> 40) & 0xFF) as byte, ((x >> 48) & 0xFF) as byte, (x >> 56) as byte]
  }

  function Reverse8(s: seq<byte>): (r: seq<byte>)
    requires |s| == 8
    ensures |r| == 8
  {
    [s[7], s[6], s[5], s[4], s[3], s[2], s[1], s[0]]
  }

  function Load64(cpu: Endianess, s: seq<byte>): bv64
    requires |s| == 8
  {
    Word64(if cpu.LittleEndian? then s else Reverse8(s))
  }

  function Store64(cpu: Endianess, x: bv64): (s: seq<byte>)
    ensures |s| == 8
  {
    if cpu.LittleEndian? then Bytes64(x) else Reverse8(Bytes64(x))
  }

  function ApplyWord(op: Op, a: bv64, b: bv64): bv64 {
    match op
    case AND => a & b
    case OR => a | b
    case XOR => a ^ b
    case NOT => a
  }

  function ApplyBytes(op: Op, s: seq<byte>, t: seq<byte>): seq<byte>
    requires |s| == |t| == 8
  {
    [Apply(op, s[0], t[0]), Apply(op, s[1], t[1]), Apply(op, s[2], t[2]), Apply(op, s[3], t[3]),
     Apply(op, s[4], t[4]), Apply(op, s[5], t[5]), Apply(op, s[6], t[6]), Apply(op, s[7], t[7])]
  }

  function NotWord(x: bv64): bv64 {
    0xFFFF_FFFF_FFFF_FFFF ^ x
  }

  function NotByte(b: byte): byte {
    0xFF ^ b
  }

  function NotBytes(s: seq<byte>): seq<byte>
    requires |s| == 8
  {
    [NotByte(s[0]), NotByte(s[1]), NotByte(s[2]), NotByte(s[3]),
     NotByte(s[4]), NotByte(s[5]), NotByte(s[6]), NotByte(s[7])]
  }

  lemma BytewiseAnd(s: seq<byte>, t: seq<byte>)
    requires |s| == |t| == 8
    ensures Bytes64(ApplyWord(AND, Word64(s), Word64(t))) == ApplyBytes(AND, s, t)
  {}

  lemma BytewiseOr(s: seq<byte>, t: seq<byte>)
    requires |s| == |t| == 8
    ensures Bytes64(ApplyWord(OR, Word64(s), Word64(t))) == ApplyBytes(OR, s, t)
  {}

  lemma BytewiseXor(s: seq<byte>, t: seq<byte>)
    requires |s| == |t| == 8
    ensures Bytes64(ApplyWord(XOR, Word64(s), Word64(t))) == ApplyBytes(XOR, s, t)
  {}

  lemma BytewiseId(s: seq<byte>, t: seq<byte>)
    requires |s| == |t| == 8
    ensures Bytes64(ApplyWord(NOT, Word64(s), Word64(t))) == ApplyBytes(NOT, s, t)
  {}

  lemma BytewiseNot(s: seq<byte>)
    requires |s| == 8
    ensures Bytes64(NotWord(Word64(s))) == NotBytes(s)
  {}

  lemma ApplyBytesAt(op: Op, s: seq<byte>, t: seq<byte>)
    requires |s| == |t| == 8
    ensures |ApplyBytes(op, s, t)| == 8
    ensures forall k :: 0 <= k < 8 ==> ApplyBytes(op, s, t)[k] == Apply(op, s[k], t[k])
  {
    hide Apply;
  }

  lemma NotBytesAt(s: seq<byte>)
    requires |s| == 8
    ensures |NotBytes(s)| == 8
    ensures forall k :: 0 <= k < 8 ==> NotBytes(s)[k] == NotByte(s[k])
  {
    hide NotByte;
  }

  lemma ReverseApply(op: Op, s: seq<byte>, t: seq<byte>)
    requires |s| == |t| == 8
    ensures Reverse8(ApplyBytes(op, Reverse8(s), Reverse8(t))) == ApplyBytes(op, s, t)
  {
    hide Apply;
  }

  lemma ReverseNot(s: seq<byte>)
    requires |s| == 8
    ensures Reverse8(NotBytes(Reverse8(s))) == NotBytes(s)
  {
    hide NotByte;
  }

  /** A word operation is the byte operation on each byte, on a machine of either byte order. */
  lemma Bytewise(cpu: Endianess, op: Op, s: seq<byte>, t: seq<byte>)
    requires |s| == |t| == 8
    ensures Store64(cpu, ApplyWord(op, Load64(cpu, s), Load64(cpu, t))) == ApplyBytes(op, s, t)
  {
    hide Word64, Bytes64, ApplyWord, ApplyBytes, Reverse8;
    ReverseApply(op, s, t);
    var u := if cpu.LittleEndian? then s else Reverse8(s);
    var v := if cpu.LittleEndian? then t else Reverse8(t);
    match op
    case AND => BytewiseAnd(u, v);
    case OR => BytewiseOr(u, v);
    case XOR => BytewiseXor(u, v);
    case NOT => BytewiseId(u, v);
  }

  lemma BytewiseNegation(cpu: Endianess, s: seq<byte>)
    requires |s| == 8
    ensures Store64(cpu, NotWord(Load64(cpu, s))) == NotBytes(s)
  {
    hide Word64, Bytes64, NotWord, NotBytes, Reverse8;
    ReverseNot(s);
    BytewiseNot(if cpu.LittleEndian? then s else Reverse8(s));
  }

  method StoreWord(dst: array<byte>, at: nat, w: seq<byte>)
    requires at + 8 <= dst.Length && |w| == 8
    modifies dst
    ensures forall k :: 0 <= k < dst.Length ==> dst[k] == if at <= k < at + 8 then w[k - at] else old(dst[k])
  {
    forall k | at <= k < at + 8 {
      dst[k] := w[k - at];
    }
  }

  /** lp[0][w] op= lp[i][w] */
  method CombineWord(cpu: Endianess, op: Op, dst: array<byte>, src: array<byte>, at: nat)
    requires dst != src && at + 8 <= dst.Length == src.Length
    modifies dst
    ensures forall k :: 0 <= k < dst.Length ==>
              dst[k] == if at <= k < at + 8 then Apply(op, old(dst[k]), src[k]) else old(dst[k])
  {
    hide Load64, Store64, Apply, ApplyWord, ApplyBytes;
    var s, t := dst[at..at + 8], src[at..at + 8];
    Bytewise(cpu, op, s, t);
    ApplyBytesAt(op, s, t);
    assert forall k :: 0 <= k < 8 ==> s[k] == dst[at + k] && t[k] == src[at + k];
    StoreWord(dst, at, Store64(cpu, ApplyWord(op, Load64(cpu, s), Load64(cpu, t))));
  }

  /** lp[0][w] = ~lp[0][w] */
  method NegateWord(cpu: Endianess, dst: array<byte>, at: nat)
    requires at + 8 <= dst.Length
    modifies dst
    ensures forall k :: 0 <= k < dst.Length ==>
              dst[k] == if at <= k < at + 8 then NotByte(old(dst[k])) else old(dst[k])
  {
    hide Load64, Store64, NotWord, NotByte, NotBytes;
    var s := dst[at..at + 8];
    var w := Store64(cpu, NotWord(Load64(cpu, s)));
    BytewiseNegation(cpu, s);
    NotBytesAt(s);
    assert forall k :: 0 <= k < 8 ==> s[k] == dst[at + k];
    StoreWord(dst, at, w);
  }

  /** One pass of the unrolled loop over one source: four words. */
  method CombineGroup(cpu: Endianess, op: Op, dst: array<byte>, src: array<byte>, at: nat)
    requires dst != src && at + 32 <= dst.Length == src.Length
    modifies dst
    ensures forall k :: 0 <= k < dst.Length ==>
              dst[k] == if at <= k < at + 32 then Apply(op, old(dst[k]), src[k]) else old(dst[k])
  {
    hide Apply;
    CombineWord(cpu, op, dst, src, at);
    CombineWord(cpu, op, dst, src, at + 8);
    CombineWord(cpu, op, dst, src, at + 16);
    CombineWord(cpu, op, dst, src, at + 24);
  }

  method NegateGroup(cpu: Endianess, dst: array<byte>, at: nat)
    requires at + 32 <= dst.Length
    modifies dst
    ensures forall k :: 0 <= k < dst.Length ==>
              dst[k] == if at <= k < at + 32 then NotByte(old(dst[k])) else old(dst[k])
  {
    hide NotByte;
    NegateWord(cpu, dst, at);
    NegateWord(cpu, dst, at + 8);
    NegateWord(cpu, dst, at + 16);
    NegateWord(cpu, dst, at + 24);
  }

  // ---------- One chunk ----------

  /** The buffers hold these contents; the first of them is where the result is built. */
  ghost predicate Buffers(p: seq<array<byte>>, chunk: nat) {
    && |p| > 0
    && (forall i :: 0 <= i < |p| ==> p[i].Length == chunk)
    && (forall i, k :: 0 <= i < k < |p| ==> p[i] != p[k])
  }

  ghost function Contents(p: seq<array<byte>>): (s: seq<seq<byte>>)
    reads p
    ensures |s| == |p|
  {
    seq(|p|, i requires 0 <= i < |p| reads p => p[i][..])
  }

  /** p[0] holds the finished result before lo, a partial result of m sources from lo to hi, and its
      own bytes from hi on; the other buffers are as they were. */
  ghost predicate Progress(op: Op, p: seq<array<byte>>, bufs: seq<seq<byte>>, m: nat, lo: nat, hi: nat)
    requires |p| > 0 && |bufs| == |p| && 1 <= m <= |p|
    reads p
  {
    && lo <= hi <= p[0].Length == |bufs[0]|
    && (forall i :: 1 <= i < |p| ==> p[i][..] == bufs[i])
    && (forall j :: 0 <= j < lo ==> p[0][j] == OpAt(op, bufs, j))
    && (forall j :: lo <= j < hi ==> p[0][j] == FoldAt(op, bufs, m, j))
    && (forall j :: hi <= j < p[0].Length ==> p[0][j] == bufs[0][j])
  }

  /** The inner loop over the other sources, for the group at idx. */
  method GroupSources(cpu: Endianess, op: Op, p: seq<array<byte>>, chunk: nat, idx: nat, ghost bufs: seq<seq<byte>>)
    requires Buffers(p, chunk) && idx + 32 <= chunk && op != NOT
    requires |bufs| == |p| && Progress(op, p, bufs, 1, idx, idx)
    modifies p[0]
    ensures Progress(op, p, bufs, 1, idx + 32, idx + 32)
  {
    hide Apply;
    var i := 1;
    while i < |p|
      invariant 1 <= i <= |p|
      invariant Progress(op, p, bufs, i, idx, idx + 32)
    {
      ghost var before := p[0][..];
      CombineGroup(cpu, op, p[0], p[i], idx);
      forall j | idx <= j < idx + 32
        ensures p[0][j] == FoldAt(op, bufs, i + 1, j)
      {
        assert before[j] == FoldAt(op, bufs, i, j) && p[i][..][j] == bufs[i][j];
      }
      i := i + 1;
    }
  }

  /** The loops of AND, OR and XOR over whole groups of 32 bytes. The pointers lp[i] all stand idx
      bytes into their buffers. */
  method CombineGroups(cpu: Endianess, op: Op, p: seq<array<byte>>, chunk: nat, times: nat) returns (idx: nat)
    requires Buffers(p, chunk) && 32 * times <= chunk && op != NOT
    modifies p[0]
    ensures idx == 32 * times
    ensures Progress(op, p, old(Contents(p)), 1, idx, idx)
  {
    hide Apply;
    ghost var bufs := Contents(p);
    idx := 0;
    var left := times;
    while left > 0
      invariant 0 <= left && idx == 32 * (times - left)
      invariant Progress(op, p, bufs, 1, idx, idx)
    {
      GroupSources(cpu, op, p, chunk, idx, bufs);
      left, idx := left - 1, idx + 32;
    }
  }

  /** The loop of NOT over whole groups. */
  method NegateGroups(cpu: Endianess, p: seq<array<byte>>, chunk: nat, times: nat) returns (idx: nat)
    requires Buffers(p, chunk) && 32 * times <= chunk
    modifies p[0]
    ensures idx == 32 * times
    ensures Progress(NOT, p, old(Contents(p)), 1, idx, idx)
  {
    hide NotByte;
    ghost var bufs := Contents(p);
    idx := 0;
    var left := times;
    while left > 0
      invariant 0 <= left && idx == 32 * (times - left)
      invariant Progress(NOT, p, bufs, 1, idx, idx)
    {
      NegateGroup(cpu, p[0], idx);
      left, idx := left - 1, idx + 32;
    }
  }

  /** The inner loop over the other sources, for the byte at idx. */
  method ByteSources(op: Op, p: seq<array<byte>>, chunk: nat, idx: nat, ghost bufs: seq<seq<byte>>)
    requires Buffers(p, chunk) && idx < chunk && op != NOT
    requires |bufs| == |p| && Progress(op, p, bufs, 1, idx, idx)
    modifies p[0]
    ensures Progress(op, p, bufs, 1, idx + 1, idx + 1)
  {
    hide Apply;
    var i := 1;
    while i < |p|
      invariant 1 <= i <= |p|
      invariant Progress(op, p, bufs, i, idx, idx + 1)
    {
      CombineByte(op, p, chunk, i, idx, bufs);
      i := i + 1;
    }
  }

  /** The byte at idx, which combines i sources, takes in the next one. */
  method CombineByte(op: Op, p: seq<array<byte>>, chunk: nat, i: nat, idx: nat, ghost bufs: seq<seq<byte>>)
    requires Buffers(p, chunk) && idx < chunk && op != NOT && 1 <= i < |p|
    requires |bufs| == |p| && Progress(op, p, bufs, i, idx, idx + 1)
    modifies p[0]
    ensures Progress(op, p, bufs, i + 1, idx, idx + 1)
  {
    hide Apply, OpAt;
    assert p[i][..][idx] == bufs[i][idx];
    p[0][idx] := Apply(op, p[0][idx], p[i][idx]);
  }

  /** The bytes that do not fill a group. */
  method CombineTail(op: Op, p: seq<array<byte>>, chunk: nat, start: nat, n: nat, ghost bufs: seq<seq<byte>>)
    requires Buffers(p, chunk) && start <= n <= chunk
    requires |bufs| == |p| && Progress(op, p, bufs, 1, start, start)
    modifies p[0]
    ensures Progress(op, p, bufs, 1, n, n)
  {
    hide Apply, NotByte;
    var idx, size := start, n - start;
    while size > 0
      invariant 0 <= size && idx == n - size
      invariant Progress(op, p, bufs, 1, idx, idx)
    {
      if op == NOT {
        p[0][idx] := NotByte(p[0][idx]);
      } else {
        ByteSources(op, p, chunk, idx, bufs);
      }
      idx, size := idx + 1, size - 1;
    }
  }

  /** The combination of the first n bytes of a chunk inside p[0]. */
  method CombineChunk(cpu: Endianess, op: Op, p: seq<array<byte>>, chunk: nat, n: nat)
    requires Buffers(p, chunk) && n <= chunk
    modifies p[0]
    ensures forall j :: 0 <= j < n ==> p[0][j] == OpAt(op, old(Contents(p)), j)
  {
    hide Apply, NotByte, OpAt;
    ghost var bufs := Contents(p);
    var idx;
    if op != NOT {
      idx := CombineGroups(cpu, op, p, chunk, n / 32);
    } else {
      idx := NegateGroups(cpu, p, chunk, n / 32);
    }
    CombineTail(op, p, chunk, idx, n, bufs);
  }

  // ---------- The whole command ----------

  /** A C int that arithmetic has carried past 2^31 - 1. */
  function Int32(x: int): int {
    (x + 0x8000_0000) % 0x1_0000_0000 - 0x8000_0000
  }

  /** A source as BITOP sees it: the bytes its cached length admits; a missing file is empty. */
  function View(d: Desc?): seq<byte>
    reads d
  {
    if d == null then [] else Window(d.data, 0, d.length)
  }

  function Length(d: Desc?): nat
    reads d
  {
    if d == null then 0 else d.length
  }

  ghost function Views(dts: seq<Desc?>): (s: seq<seq<byte>>)
    reads dts
    ensures |s| == |dts|
    ensures forall i :: 0 <= i < |dts| ==> s[i] == View(dts[i])
  {
    seq(|dts|, i requires 0 <= i < |dts| reads dts => View(dts[i]))
  }

  ghost function Lengths(dts: seq<Desc?>): (s: seq<nat>)
    reads dts
    ensures |s| == |dts|
    ensures forall i :: 0 <= i < |dts| ==> s[i] == Length(dts[i])
  {
    seq(|dts|, i requires 0 <= i < |dts| reads dts => Length(dts[i]))
  }

  /** The longest of the lengths. */
  function MaxOf(lengths: seq<nat>): nat {
    if lengths == [] then 0 else Max(lengths[0], MaxOf(lengths[1..]))
  }

  lemma {:induction false} MaxOfBounds(lengths: seq<nat>, i: nat)
    requires i < |lengths|
    ensures lengths[i] <= MaxOf(lengths)
  {
    if i == 0 {
    } else {
      MaxOfBounds(lengths[1..], i - 1);
    }
  }

  lemma {:induction false} MaxOfIs(lengths: seq<nat>, n: nat)
    requires forall i :: 0 <= i < |lengths| ==> lengths[i] <= n
    requires n == 0 || n in lengths
    ensures MaxOf(lengths) == n
  {
    if n in lengths {
      var i :| 0 <= i < |lengths| && lengths[i] == n;
      MaxOfBounds(lengths, i);
    }
    MaxOfAtMost(lengths, n);
  }

  lemma {:induction false} MaxOfAtMost(lengths: seq<nat>, n: nat)
    requires forall i :: 0 <= i < |lengths| ==> lengths[i] <= n
    ensures MaxOf(lengths) <= n
  {
    if lengths == [] {
    } else {
      MaxOfAtMost(lengths[1..], n);
    }
  }

  /** t reads remain for `rem` bytes, all of a whole chunk but the last, which is of r bytes. */
  ghost predicate ReadsLeft(t: int, r: int, rem: int, chunk: nat) {
    || (t == 0 && rem <= 0)
    || (t >= 1 && (t - 1) * chunk + r == rem && 1 <= r <= chunk)
  }

  lemma ReadsLeftSize(t: int, r: int, rem: int, chunk: nat)
    requires chunk > 0 && ReadsLeft(t, r, rem, chunk)
    ensures t >= 0 && (t >= 1 <==> rem > 0)
    ensures t == 1 ==> r == rem <= chunk
    ensures t >= 2 ==> rem > chunk && ReadsLeft(t - 1, r, rem - chunk, chunk)
  {
    if t >= 2 {
      assert (t - 1) * chunk - chunk == (t - 1 - 1) * chunk;
      Words.ProductNonNegative(t - 1 - 1, chunk);
    }
  }

  lemma ReadsLeftInitially(length: nat, chunk: nat)
    requires chunk > 0
    ensures length % chunk != 0 ==> ReadsLeft(length / chunk + 1, length % chunk, length, chunk)
    ensures length % chunk == 0 ==> ReadsLeft(length / chunk, chunk, length, chunk)
  {
    var q := length / chunk;
    assert length == q * chunk + length % chunk;
    if q < 0 {
      Words.MulAtLeast(-q, chunk);
      assert false;
    }
    assert q >= 1 ==> (q - 1) * chunk + chunk == q * chunk;
  }

  /** The number of reads each source needs and the size of its last one, and the longest source. */
  method Plan(dts: seq<Desc?>, chunk: nat) returns (t: seq<int>, r: seq<int>, maxidx: nat, maxlen: nat)
    requires |dts| > 0 && chunk > 0
    ensures |t| == |r| == |dts|
    ensures AllReadsLeft(t, r, Lengths(dts), 0, chunk)
    ensures maxlen == MaxOf(Lengths(dts))
    ensures maxidx < |dts| && (maxlen > 0 ==> Length(dts[maxidx]) == maxlen)
    ensures forall k :: 0 <= k < |dts| ==> 0 <= t[k] <= Length(dts[k]) / chunk + 1 && 0 <= r[k] <= chunk
  {
    hide ReadsLeft;
    t, r := [], [];
    maxidx, maxlen := 0, 0;
    for i := 0 to |dts|
      invariant |t| == |r| == i
      invariant forall k :: 0 <= k < i ==> ReadsLeft(t[k], r[k], Length(dts[k]), chunk)
      invariant forall k :: 0 <= k < i ==> 0 <= t[k] <= Length(dts[k]) / chunk + 1 && 0 <= r[k] <= chunk
      invariant forall k :: 0 <= k < i ==> Length(dts[k]) <= maxlen
      invariant maxidx < |dts|
      invariant maxlen > 0 ==> Length(dts[maxidx]) == maxlen
    {
      ReadsLeftInitially(Length(dts[i]), chunk);
      NothingLeft(chunk);
      if dts[i] != null {
        var times, last := dts[i].length / chunk, dts[i].length % chunk;
        if last != 0 {
          times := times + 1;
        } else {
          last := chunk;
        }
        t, r := t + [times], r + [last];
        if dts[i].length > maxlen {
          maxidx := i;
          maxlen := dts[i].length;
        }
      } else {
        t, r := t + [0], r + [0];
      }
    }
    assert Lengths(dts)[maxidx] == Length(dts[maxidx]);
    MaxOfIs(Lengths(dts), maxlen);
  }

  lemma NothingLeft(chunk: nat)
    ensures ReadsLeft(0, 0, 0, chunk)
  {}

  /** op_malloc */
  method AllocateBuffers(count: nat, chunk: nat) returns (p: seq<array<byte>>)
    requires count > 0
    ensures |p| == count && Buffers(p, chunk)
    ensures forall i :: 0 <= i < count ==> fresh(p[i])
  {
    p := [];
    for i := 0 to count
      invariant |p| == i
      invariant forall k :: 0 <= k < i ==> fresh(p[k]) && p[k].Length == chunk
      invariant forall k, l :: 0 <= k < l < i ==> p[k] != p[l]
    {
      var b := new byte[chunk];
      p := p + [b];
    }
  }

  /** From position `done` on, the source still reads as it did at the start. */
  ghost predicate Unread(d: Desc?, view: seq<byte>, length: nat, done: nat)
    reads d
  {
    && |view| <= length
    && (d == null ==> length == 0)
    && (d != null ==> forall j: nat :: done <= j < length ==> At(d.data, j) == At(view, j))
  }

  /** What a read into a cleared buffer leaves at position j of it. */
  function Arrived(view: seq<byte>, at: nat, j: nat, error: Option<nat>): byte {
    if error.None? || j < error.value then At(view, at) else 0
  }

  /** One source's share of a chunk: the buffer is cleared and what remains of the source read into it; where
      that fails nobody takes notice. */
  method ReadSource(d: Desc?, b: array<byte>, t: int, r: int, chunk: nat, offset: nat, error: Option<nat>,
                    ghost view: seq<byte>, ghost length: nat) returns (t': int)
    requires b.Length == chunk > 0
    requires Unread(d, view, length, offset) && ReadsLeft(t, r, length - offset, chunk)
    modifies b
    ensures forall j :: 0 <= j < chunk ==> b[j] == Arrived(view, offset + j, j, error)
    ensures t' == if t == 0 then 0 else t - 1
  {
    hide ReadsLeft;
    ReadsLeftSize(t, r, length - offset, chunk);
    forall j | 0 <= j < chunk {
      b[j] := 0;
    }
    t' := t;
    if t' != 0 {
      var size := if t' == 1 then r else chunk;
      var _, got := d.ReadFrom(size, offset, error);
      t' := t' - 1;
      forall j | 0 <= j < |got| {
        b[j] := got[j];
      }
      forall j | 0 <= j < chunk
        ensures b[j] == Arrived(view, offset + j, j, error)
      {
        GotAt(d.data, offset, size, error, j);
        if j < size {
          assert At(d.data, offset + j) == At(view, offset + j);
        }
      }
    }
  }

  lemma GotAt(data: seq<byte>, offset: nat, size: nat, error: Option<nat>, j: nat)
    ensures var got := Got(data, offset, size, error);
            (if j < |got| then got[j] else 0) == if j < size then Arrived(data, offset + j, j, error) else 0
  {}

  lemma ReadsLeftAfter(t: int, r: int, rem: int, chunk: nat, most: int)
    requires chunk > 0 && ReadsLeft(t, r, rem, chunk) && rem <= most && most > 0
    ensures ReadsLeft(if t == 0 then 0 else t - 1, r, rem - Min(chunk, most), chunk)
  {
    ReadsLeftSize(t, r, rem, chunk);
  }

  ghost predicate AllReadsLeft(t: seq<int>, r: seq<int>, lengths: seq<nat>, done: int, chunk: nat)
    requires |t| == |r| == |lengths|
  {
    forall i :: 0 <= i < |t| ==> ReadsLeft(t[i], r[i], lengths[i] - done, chunk)
  }

  ghost predicate AllUnread(dts: seq<Desc?>, views: seq<seq<byte>>, lengths: seq<nat>, done: nat)
    requires |dts| == |views| == |lengths|
    reads dts
  {
    forall i :: 0 <= i < |dts| ==> Unread(dts[i], views[i], lengths[i], done)
  }

  /** Every source's share of the chunk at offset. */
  method ReadChunk(dts: seq<Desc?>, p: seq<array<byte>>, t: seq<int>, r: seq<int>, chunk: nat, offset: nat,
                   errors: nat -> Option<nat>,
                   ghost views: seq<seq<byte>>, ghost lengths: seq<nat>, ghost most: nat) returns (t': seq<int>)
    requires |dts| == |p| == |t| == |r| == |views| == |lengths|
    requires chunk > 0 && Buffers(p, chunk) && most > 0
    requires AllUnread(dts, views, lengths, offset)
    requires AllReadsLeft(t, r, lengths, offset, chunk)
    requires forall i :: 0 <= i < |lengths| ==> lengths[i] <= offset + most
    modifies p
    ensures forall i, j :: 0 <= i < |p| && 0 <= j < chunk ==> p[i][j] == Arrived(views[i], offset + j, j, errors(i))
    ensures |t'| == |t| && AllReadsLeft(t', r, lengths, offset + Min(chunk, most), chunk)
    ensures forall i :: 0 <= i < |t| ==> t'[i] == if t[i] == 0 then 0 else t[i] - 1
  {
    hide ReadsLeft, Arrived;
    t' := [];
    for i := 0 to |p|
      invariant |t'| == i
      invariant forall k, j :: 0 <= k < i && 0 <= j < chunk ==>
                  p[k][j] == Arrived(views[k], offset + j, j, errors(k))
      invariant forall k :: 0 <= k < i ==> t'[k] == if t[k] == 0 then 0 else t[k] - 1
      invariant forall k :: 0 <= k < i ==> ReadsLeft(t'[k], r[k], lengths[k] - offset - Min(chunk, most), chunk)
      invariant AllUnread(dts, views, lengths, offset)
    {
      ReadsLeftAfter(t[i], r[i], lengths[i] - offset, chunk, most);
      var left := ReadSource(dts[i], p[i], t[i], r[i], chunk, offset, errors(i), views[i], lengths[i]);
      t' := t' + [left];
    }
  }

  // ---------- Sources as they are read ----------

  /** Byte j of a source as the command sees it: what does not arrive of a chunk is zero. errors(i, c) tells
      how the read of chunk c of source i turns out. */
  ghost function SeenAt(view: seq<byte>, errors: (nat, nat) -> Option<nat>, i: nat, chunk: nat, j: nat): byte
    requires chunk > 0
  {
    Arrived(view, j, j % chunk, errors(i, j / chunk))
  }

  ghost function Seen(views: seq<seq<byte>>, errors: (nat, nat) -> Option<nat>, chunk: nat): (s: seq<seq<byte>>)
    requires chunk > 0
    ensures |s| == |views|
    ensures forall i :: 0 <= i < |s| ==> |s[i]| == |views[i]|
    ensures forall i: nat, j: nat :: i < |s| ==> At(s[i], j) == SeenAt(views[i], errors, i, chunk, j)
  {
    seq(|views|, i requires 0 <= i < |views| =>
      seq(|views[i]|, j requires 0 <= j => SeenAt(views[i], errors, i, chunk, j)))
  }

  /** Where no read fails the sources are seen as they are. */
  lemma SeenWhole(views: seq<seq<byte>>, errors: (nat, nat) -> Option<nat>, chunk: nat)
    requires chunk > 0 && forall i: nat, c: nat :: errors(i, c).None?
    ensures Seen(views, errors, chunk) == views
  {
    var seen := Seen(views, errors, chunk);
    forall i: nat | i < |views|
      ensures seen[i] == views[i]
    {
      forall j: nat | j < |views[i]|
        ensures seen[i][j] == views[i][j]
      {
        assert At(seen[i], j) == SeenAt(views[i], errors, i, chunk, j);
      }
    }
  }

  /** Byte j of chunk c of a source is zero where the read of this chunk failed before it, and is seen as it is
      otherwise. */
  lemma SeenByte(views: seq<seq<byte>>, errors: (nat, nat) -> Option<nat>, chunk: nat, i: nat, c: nat, j: nat)
    requires i < |views| && j < chunk && c * chunk + j >= 0
    ensures At(Seen(views, errors, chunk)[i], c * chunk + j)
         == if errors(i, c).Some? && errors(i, c).value <= j then 0 else At(views[i], c * chunk + j)
  {
    ArrivedIsSeen(views[i], errors, i, chunk, c, j);
  }

  lemma InChunk(c: nat, chunk: nat, j: nat)
    requires j < chunk
    ensures (c * chunk + j) / chunk == c && (c * chunk + j) % chunk == j
  {
    Words.DivUnique(c * chunk + j, chunk, c, j);
  }

  /** A chunk of the sources combines to the same chunk of the result. */
  lemma {:induction false} FoldShift(op: Op, bufs: seq<seq<byte>>, views: seq<seq<byte>>, m: nat, j: nat, offset: nat)
    requires |bufs| == |views| && 1 <= m <= |bufs|
    requires forall i :: 0 <= i < |bufs| ==> At(bufs[i], j) == At(views[i], offset + j)
    ensures FoldAt(op, bufs, m, j) == FoldAt(op, views, m, offset + j)
  {
    hide Apply;
    if m == 1 {
    } else {
      FoldShift(op, bufs, views, m - 1, j, offset);
    }
  }

  /** Chunk c up to the combined bytes in p[0]. */
  method NextChunk(cpu: Endianess, op: Op, dts: seq<Desc?>, p: seq<array<byte>>, t: seq<int>, r: seq<int>,
                   maxidx: nat, chunk: nat, offset: nat, errors: (nat, nat) -> Option<nat>, c: nat,
                   ghost views: seq<seq<byte>>, ghost lengths: seq<nat>, ghost maxlen: nat)
    returns (t': seq<int>, idx: nat)
    requires |dts| == |p| == |t| == |r| == |views| == |lengths|
    requires chunk > 0 && Buffers(p, chunk) && offset == c * chunk < maxlen
    requires AllUnread(dts, views, lengths, offset)
    requires AllReadsLeft(t, r, lengths, offset, chunk)
    requires maxidx < |lengths| && lengths[maxidx] == maxlen
    requires forall i :: 0 <= i < |lengths| ==> lengths[i] <= maxlen
    modifies p
    ensures idx == Min(chunk, maxlen - offset)
    ensures forall j :: 0 <= j < idx ==> p[0][j] == OpAt(op, Seen(views, errors, chunk), offset + j)
    ensures |t'| == |t| && AllReadsLeft(t', r, lengths, offset + idx, chunk)
    ensures forall i :: 0 <= i < |t| ==> t'[i] == if t[i] == 0 then 0 else t[i] - 1
    ensures AllUnread(dts, views, lengths, offset)
  {
    hide ReadsLeft, Apply, FoldAt, Arrived, SeenAt;
    ReadsLeftSize(t[maxidx], r[maxidx], maxlen - offset, chunk);
    t' := ReadChunk(dts, p, t, r, chunk, offset, (i: nat) => errors(i, c), views, lengths, maxlen - offset);
    idx := if t'[maxidx] != 0 then chunk else r[maxidx];
    ghost var bufs, seen := Contents(p), Seen(views, errors, chunk);
    forall i, j | 0 <= i < |p| && 0 <= j < chunk
      ensures p[i][j] == At(seen[i], offset + j)
    {
      ArrivedIsSeen(views[i], errors, i, chunk, c, j);
    }
    ChunkOfResult(op, p, bufs, seen, chunk, offset);
    CombineChunk(cpu, op, p, chunk, idx);
  }

  lemma ArrivedIsSeen(view: seq<byte>, errors: (nat, nat) -> Option<nat>, i: nat, chunk: nat, c: nat, j: nat)
    requires j < chunk
    ensures SeenAt(view, errors, i, chunk, c * chunk + j) == Arrived(view, c * chunk + j, j, errors(i, c))
  {
    InChunk(c, chunk, j);
    hide Arrived;
  }

  lemma ChunkOfResult(op: Op, p: seq<array<byte>>, bufs: seq<seq<byte>>, views: seq<seq<byte>>, chunk: nat, offset: nat)
    requires Buffers(p, chunk) && bufs == Contents(p) && |views| == |p|
    requires forall i, j :: 0 <= i < |p| && 0 <= j < chunk ==> p[i][j] == At(views[i], offset + j)
    ensures forall j :: 0 <= j < chunk ==> OpAt(op, bufs, j) == OpAt(op, views, offset + j)
  {
    hide Apply;
    forall j | 0 <= j < chunk
      ensures OpAt(op, bufs, j) == OpAt(op, views, offset + j)
    {
      assert forall i :: 0 <= i < |p| ==> At(bufs[i], j) == p[i][j];
      FoldShift(op, bufs, views, |bufs|, j, offset);
    }
  }

  /** The combined chunk is written. Where dest is itself a source, only bytes that have been read
      already are overwritten. A write that breaks returns 0 and has put part of the chunk, or none. */
  method StoreChunk(op: Op, dest: Desc, dts: seq<Desc?>, buf: seq<byte>, offset: nat, fate: Fate,
                    ghost views: seq<seq<byte>>, ghost lengths: seq<nat>, ghost seen: seq<seq<byte>>,
                    ghost before: seq<byte>) returns (n: nat)
    requires |dts| == |views| == |lengths| == |seen| > 0 && buf != []
    requires AllUnread(dts, views, lengths, offset)
    requires Replaced(op, seen, before, dest.data, offset)
    requires forall j :: 0 <= j < |buf| ==> buf[j] == OpAt(op, seen, offset + j)
    modifies dest
    ensures n == if fate.Done? then |buf| else 0
    ensures fate.Done? ==>
              && AllUnread(dts, views, lengths, offset + |buf|)
              && Replaced(op, seen, before, dest.data, offset + |buf|)
              && dest.length == Max(old(dest.length), offset + |buf|)
    ensures !fate.Done? ==>
              Replaced(op, seen, before, dest.data, offset + Part(fate, |buf|)) && dest.length == old(dest.length)
  {
    hide OpAt, Replaced, At, Written;
    ghost var now := dest.data;
    ReplaceMore(op, seen, before, now, buf, offset);
    PartReplaced(op, seen, before, now, buf, offset, fate);
    n := dest.WriteTo(buf, offset, fate);
    if fate.Done? {
      forall i | 0 <= i < |dts|
        ensures Unread(dts[i], views[i], lengths[i], offset + |buf|)
      {
        assert old(Unread(dts[i], views[i], lengths[i], offset));
        if dts[i] == dest {
          forall j: nat | offset + |buf| <= j < lengths[i]
            ensures At(dest.data, j) == At(views[i], j)
          {
            WrittenAt(now, buf, offset, j);
          }
        }
      }
    }
  }

  /** How many of n bytes a write that breaks has put. */
  function Part(fate: Fate, n: nat): nat {
    match fate
    case Done => n
    case SeekFails => 0
    case Breaks(k) => Min(k, n)
  }

  lemma PartReplaced(op: Op, views: seq<seq<byte>>, before: seq<byte>, now: seq<byte>, buf: seq<byte>, done: nat,
                     fate: Fate)
    requires |views| > 0 && Replaced(op, views, before, now, done)
    requires forall j :: 0 <= j < |buf| ==> buf[j] == OpAt(op, views, done + j)
    ensures fate.Breaks? ==>
              Replaced(op, views, before, Written(now, buf[..Min(fate.n, |buf|)], done), done + Part(fate, |buf|))
  {
    hide OpAt, Replaced;
    if fate.Breaks? {
      var part := buf[..Min(fate.n, |buf|)];
      if part != [] {
        ReplaceMore(op, views, before, now, part, done);
      }
    }
  }

  /** What has become of the first `done` bytes of the result. */
  ghost predicate Delivered(op: Op, hook: Hook, views: seq<seq<byte>>, before: seq<byte>, beforeLength: nat,
                            dest: Desc?, bits: int, done: nat)
    requires |views| > 0
    reads dest
  {
    && (hook == NONE ==>
          dest != null && Replaced(op, views, before, dest.data, done) && dest.length == Max(beforeLength, done))
    && (hook == COUNTOP ==> bits == Count(Result(op, views, done)))
  }

  /** The command has ended in the write of a chunk that begins at `done` and has n bytes: that and the chunks
      before it are in dest as far as they were put, and the length covers only the chunks before it. */
  ghost predicate Broken(op: Op, views: seq<seq<byte>>, before: seq<byte>, beforeLength: nat, dest: Desc?,
                         done: nat, n: nat, fate: Fate)
    requires |views| > 0
    reads dest
  {
    && dest != null && Replaced(op, views, before, dest.data, done + Part(fate, n))
    && dest.length == Max(beforeLength, done)
  }

  /** The hook of one chunk. */
  method Deliver(cpu: Endianess, op: Op, hook: Hook, dest: Desc?, dts: seq<Desc?>, buf: seq<byte>,
                 offset: nat, bits: nat, fate: Fate, ghost views: seq<seq<byte>>, ghost lengths: seq<nat>,
                 ghost seen: seq<seq<byte>>, ghost before: seq<byte>, ghost beforeLength: nat)
    returns (ok: bool, bits': nat)
    requires |dts| == |views| == |lengths| == |seen| > 0 && buf != []
    requires AllUnread(dts, views, lengths, offset)
    requires Delivered(op, hook, seen, before, beforeLength, dest, bits, offset)
    requires forall j :: 0 <= j < |buf| ==> buf[j] == OpAt(op, seen, offset + j)
    modifies if hook == NONE then {dest} else {}
    ensures ok <==> hook != NONE || fate.Done?
    ensures ok ==>
              && AllUnread(dts, views, lengths, offset + |buf|)
              && Delivered(op, hook, seen, before, beforeLength, dest, bits', offset + |buf|)
    ensures !ok ==> Broken(op, seen, before, beforeLength, dest, offset, |buf|, fate)
  {
    hide OpAt, Count, Replaced, Result;
    ok, bits' := true, bits;
    if hook == NONE {
      var n := StoreChunk(op, dest, dts, buf, offset, fate, views, lengths, seen, before);
      if n == 0 {
        return false, bits;
      }
    } else if hook == COUNTOP {
      var n := Popcount(cpu, buf);
      bits' := bits + n;
      ResultMore(op, seen, buf, offset);
    }
  }

  /** Where chunk c begins. */
  ghost function Start(c: nat, chunk: nat): nat {
    Words.ProductNonNegative(c, chunk);
    c * chunk
  }

  /** The first of the chunks from c on, up to the one that begins at or behind n, whose write breaks. */
  ghost function FirstBroken(fates: nat -> Fate, chunk: nat, n: nat, c: nat): (k: nat)
    requires chunk > 0
    ensures k >= c
    decreases n - c * chunk
  {
    if c * chunk >= n || !fates(c).Done? then c
    else
      NextStart(c, chunk);
      FirstBroken(fates, chunk, n, c + 1)
  }

  /** All chunks before it are written, and either it is not or there is none left. */
  lemma {:induction false} FirstBrokenIs(fates: nat -> Fate, chunk: nat, n: nat, c: nat)
    requires chunk > 0
    ensures var k := FirstBroken(fates, chunk, n, c);
            && (forall i :: c <= i < k ==> fates(i).Done? && i * chunk < n)
            && (k * chunk >= n || !fates(k).Done?)
    decreases n - c * chunk
  {
    if c * chunk >= n || !fates(c).Done? {
    } else {
      NextStart(c, chunk);
      FirstBrokenIs(fates, chunk, n, c + 1);
    }
  }

  lemma NextStart(c: nat, chunk: nat)
    ensures (c + 1) * chunk == c * chunk + chunk
  {}

  lemma {:induction false} NoneBroken(fates: nat -> Fate, chunk: nat, n: nat, c: nat)
    requires chunk > 0 && forall i: nat :: fates(i).Done?
    ensures FirstBroken(fates, chunk, n, c) * chunk >= n
    decreases n - c * chunk
  {
    if c * chunk >= n {
    } else {
      NextStart(c, chunk);
      NoneBroken(fates, chunk, n, c + 1);
    }
  }

  /** The counts and sizes that the command keeps in ints are the numbers they stand for. */
  ghost predicate IntsHold(t: seq<int>, r: seq<int>) {
    && (forall i :: 0 <= i < |t| ==> Int32(t[i]) == t[i])
    && (forall i :: 0 <= i < |r| ==> Int32(r[i]) == r[i])
  }

  ghost predicate Planned(t: seq<int>, r: seq<int>, lengths: seq<nat>, chunk: nat)
    requires chunk > 0
  {
    && |t| == |r| == |lengths|
    && forall i :: 0 <= i < |t| ==> 0 <= t[i] <= lengths[i] / chunk + 1 && 0 <= r[i] <= chunk
  }

  /** With the real chunk size and files of up to 2^31 bytes; the size of a chunk, the groups in it and the
      index into it are no larger than the chunk. */
  lemma PlannedHolds(t: seq<int>, r: seq<int>, lengths: seq<nat>)
    requires Planned(t, r, lengths, FILE_BUFFER_SIZE)
    requires forall i :: 0 <= i < |lengths| ==> lengths[i] <= 0x8000_0000
    ensures IntsHold(t, r)
    ensures forall idx: nat :: idx <= FILE_BUFFER_SIZE ==> Int32(idx) == idx
  {
    forall i | 0 <= i < |t|
      ensures Int32(t[i]) == t[i] && Int32(r[i]) == r[i]
    {
      FewReads(lengths[i]);
    }
  }

  lemma FewReads(length: nat)
    requires length <= 0x8000_0000
    ensures length / FILE_BUFFER_SIZE + 1 <= 1873
  {}

  /** What is left to read once `done` bytes have been read. */
  ghost predicate Reading(t: seq<int>, r: seq<int>, lengths: seq<nat>, done: nat, chunk: nat)
    requires chunk > 0
  {
    && |t| == |r| == |lengths|
    && Planned(t, r, lengths, chunk) && AllReadsLeft(t, r, lengths, done, chunk)
    && (chunk == FILE_BUFFER_SIZE ==> IntsHold(t, r))
  }

  lemma ReadingStarts(t: seq<int>, r: seq<int>, lengths: seq<nat>, chunk: nat)
    requires chunk > 0 && Planned(t, r, lengths, chunk) && AllReadsLeft(t, r, lengths, 0, chunk)
    requires forall i :: 0 <= i < |lengths| ==> lengths[i] <= 0x8000_0000
    ensures Reading(t, r, lengths, 0, chunk)
  {
    hide ReadsLeft, IntsHold;
    if chunk == FILE_BUFFER_SIZE {
      PlannedHolds(t, r, lengths);
    }
  }

  /** The loop goes on as long as the longest source has bytes left. */
  lemma ReadsRemain(t: seq<int>, r: seq<int>, lengths: seq<nat>, done: nat, chunk: nat, i: nat)
    requires chunk > 0 && Reading(t, r, lengths, done, chunk) && i < |lengths|
    ensures i < |t| && (t[i] != 0 <==> done < lengths[i])
  {
    ReadsLeftSize(t[i], r[i], lengths[i] - done, chunk);
  }

  /** One turn of the chunk loop, for chunk c. */
  method RunChunk(cpu: Endianess, op: Op, hook: Hook, dest: Desc?, dts: seq<Desc?>, p: seq<array<byte>>, t: seq<int>,
                  r: seq<int>, maxidx: nat, chunk: nat, offset: nat, bits: nat, errors: (nat, nat) -> Option<nat>,
                  c: nat, fate: Fate, ghost views: seq<seq<byte>>, ghost lengths: seq<nat>, ghost maxlen: nat,
                  ghost before: seq<byte>, ghost beforeLength: nat)
    returns (ok: bool, t': seq<int>, idx: nat, bits': nat)
    requires |dts| == |p| == |r| == |views| == |lengths| > 0
    requires chunk > 0 && Buffers(p, chunk)
    requires maxidx < |lengths| && lengths[maxidx] == maxlen <= 0x8000_0000
    requires forall i :: 0 <= i < |lengths| ==> lengths[i] <= maxlen
    requires offset == c * chunk < maxlen && Reading(t, r, lengths, offset, chunk)
    requires AllUnread(dts, views, lengths, offset)
    requires Delivered(op, hook, Seen(views, errors, chunk), before, beforeLength, dest, bits, offset)
    modifies p, if hook == NONE then {dest} else {}
    ensures idx == Min(chunk, maxlen - offset)
    ensures ok <==> hook != NONE || fate.Done?
    ensures ok ==>
              && Reading(t', r, lengths, offset + idx, chunk) && AllUnread(dts, views, lengths, offset + idx)
              && Delivered(op, hook, Seen(views, errors, chunk), before, beforeLength, dest, bits', offset + idx)
    ensures !ok ==> Broken(op, Seen(views, errors, chunk), before, beforeLength, dest, offset, idx, fate)
  {
    hide ReadsLeft, OpAt, Delivered, Broken, AllUnread, Seen, Planned, IntsHold;
    t', idx := NextChunk(cpu, op, dts, p, t, r, maxidx, chunk, offset, errors, c, views, lengths, maxlen);
    StillPlanned(t, t', r, lengths, chunk);
    ok, bits' := Deliver(cpu, op, hook, dest, dts, p[0][..idx], offset, bits, fate, views, lengths,
                         Seen(views, errors, chunk), before, beforeLength);
  }

  /** The chunk loop, until a write breaks. */
  method RunChunks(cpu: Endianess, op: Op, hook: Hook, dest: Desc?, dts: seq<Desc?>, t0: seq<int>, r: seq<int>,
                   maxidx: nat, chunk: nat, errors: (nat, nat) -> Option<nat>, fates: nat -> Fate,
                   ghost views: seq<seq<byte>>, ghost lengths: seq<nat>, ghost maxlen: nat,
                   ghost before: seq<byte>, ghost beforeLength: nat)
    returns (ok: bool, offset: int, bits: nat)
    requires |dts| == |r| == |views| == |lengths| > 0 && chunk > 0
    requires maxidx < |dts| && lengths[maxidx] == maxlen <= 0x8000_0000
    requires forall i :: 0 <= i < |lengths| ==> lengths[i] <= maxlen
    requires Reading(t0, r, lengths, 0, chunk) && AllUnread(dts, views, lengths, 0)
    requires Delivered(op, hook, Seen(views, errors, chunk), before, beforeLength, dest, 0, 0)
    modifies if hook == NONE then {dest} else {}
    ensures ok <==> hook != NONE || FirstBroken(fates, chunk, maxlen, 0) * chunk >= maxlen
    ensures ok ==> offset == Int32(maxlen)
                   && Delivered(op, hook, Seen(views, errors, chunk), before, beforeLength, dest, bits, maxlen)
    ensures !ok ==> var c := FirstBroken(fates, chunk, maxlen, 0);
                    Broken(op, Seen(views, errors, chunk), before, beforeLength, dest, c * chunk,
                           Min(chunk, maxlen - c * chunk), fates(c))
  {
    hide Delivered, Broken, AllUnread, Int32, Seen, Reading, FirstBroken;
    var t := t0;
    var p := AllocateBuffers(|dts|, chunk);
    ok, offset, bits := true, 0, 0;
    var c := 0;
    ghost var done := 0;
    SmallInt(0);
    ReadsRemain(t, r, lengths, done, chunk, maxidx);
    while t[maxidx] != 0
      invariant 0 <= done <= maxlen && offset == Int32(done) && c >= 0
      invariant done == if c * chunk < maxlen then c * chunk else maxlen
      invariant maxidx < |t| && (t[maxidx] != 0 <==> done < maxlen)
      invariant Reading(t, r, lengths, done, chunk) && AllUnread(dts, views, lengths, done)
      invariant Delivered(op, hook, Seen(views, errors, chunk), before, beforeLength, dest, bits, done)
      invariant hook == NONE ==> FirstBroken(fates, chunk, maxlen, 0) == FirstBroken(fates, chunk, maxlen, c)
      invariant ok
      decreases maxlen - done
    {
      SmallInt(done);
      NextStart(c, chunk);
      NextBroken(fates, chunk, maxlen, c);
      var idx;
      ok, t, idx, bits := RunChunk(cpu, op, hook, dest, dts, p, t, r, maxidx, chunk, offset, bits, errors, c, fates(c),
                                   views, lengths, maxlen, before, beforeLength);
      if !ok {
        return;
      }
      offset := Int32(offset + idx);
      done := done + idx;
      c := c + 1;
      ReadsRemain(t, r, lengths, done, chunk, maxidx);
    }
    NextBroken(fates, chunk, maxlen, c);
  }

  lemma NextBroken(fates: nat -> Fate, chunk: nat, n: nat, c: nat)
    requires chunk > 0
    ensures FirstBroken(fates, chunk, n, c)
         == if c * chunk >= n || !fates(c).Done? then c else FirstBroken(fates, chunk, n, c + 1)
  {}

  lemma StillPlanned(t: seq<int>, t': seq<int>, r: seq<int>, lengths: seq<nat>, chunk: nat)
    requires chunk > 0 && Planned(t, r, lengths, chunk) && |t'| == |t|
    requires forall i :: 0 <= i < |t| ==> t'[i] == if t[i] == 0 then 0 else t[i] - 1
    requires forall i :: 0 <= i < |lengths| ==> lengths[i] <= 0x8000_0000
    ensures Planned(t', r, lengths, chunk)
    ensures chunk == FILE_BUFFER_SIZE ==> IntsHold(t', r)
  {
    hide IntsHold;
    if chunk == FILE_BUFFER_SIZE {
      PlannedHolds(t', r, lengths);
    }
  }

  /** bitopCommand, for any sources (files may be missing, and dest may be one of them) no longer than
      the largest file SETBIT can make, through chunks of any size. errors(i, c) tells how many bytes arrive
      when the read of chunk c of source i fails, and fates(c) how the write of chunk c turns out. With hook
      NONE dest receives the operation on the contents the sources had at the call, as far as they arrive;
      with COUNTOP its set bits are counted and nothing is stored. The running offset is an int, and after a
      result of 2^31 bytes it is negative. A write that breaks ends the command. Without memory for the
      buffers nothing happens. */
  method BitOpCommand(cpu: Endianess, op: Op, hook: Hook, dest: Desc?, dts: seq<Desc?>, memory: bool,
                      errors: (nat, nat) -> Option<nat>, fates: nat -> Fate,
                      chunk: nat := FILE_BUFFER_SIZE) returns (res: int)
    requires |dts| > 0 && chunk > 0
    requires hook == NONE ==> dest != null
    requires forall i :: 0 <= i < |dts| ==> Length(dts[i]) <= 0x8000_0000
    requires forall i :: 0 <= i < |dts| && dts[i] != null ==> dts[i].Valid()
    modifies if hook == NONE then {dest} else {}
    ensures var n, c := MaxOf(old(Lengths(dts))), FirstBroken(fates, chunk, MaxOf(old(Lengths(dts))), 0);
            var done := Start(c, chunk);
            var seen := Seen(old(Views(dts)), errors, chunk);
            && (!memory && n > 0 ==>
                  res == -1 && (dest != null ==> dest.data == old(dest.data) && dest.length == old(dest.length)))
            && ((memory || n == 0) && (hook != NONE || done >= n) ==>
                  && (hook == NONE ==>
                        && Replaced(op, seen, old(dest.data), dest.data, n)
                        && dest.length == Max(old(dest.length), n))
                  && res == (if hook == COUNTOP then Count(Result(op, seen, n)) else Int32(n)))
            && (memory && hook == NONE && done < n ==>
                  && res == -1
                  && Broken(op, seen, old(dest.data), old(dest.length), dest, done, Min(chunk, n - done),
                            fates(c)))
  {
    hide ReadsLeft, OpAt, Count, Window, Replaced, AllUnread, Result, MaxOf, Int32, Seen, FirstBroken, Reading, Broken,
         View;
    ghost var views, lengths := Views(dts), Lengths(dts);
    ghost var seen := Seen(views, errors, chunk);
    ghost var before := if dest == null then [] else dest.data;
    ghost var beforeLength := if dest == null then 0 else dest.length;
    var t, r, maxidx, maxlen := Plan(dts, chunk);
    NothingDelivered(op, seen, before);
    SmallInt(0);
    if maxlen == 0 {
      NothingBroken(fates, chunk);
      return 0;
    }
    if !memory {
      return -1;
    }
    forall i | 0 <= i < |dts| {
      MaxOfBounds(lengths, i);
    }
    InitiallyUnread(dts);
    ReadingStarts(t, r, lengths, chunk);
    var ok, offset, bits := RunChunks(cpu, op, hook, dest, dts, t, r, maxidx, chunk, errors, fates,
                                      views, lengths, maxlen, before, beforeLength);
    if !ok {
      return -1;
    }
    if hook == COUNTOP {
      return bits;
    }
    return offset;
  }

  lemma NothingBroken(fates: nat -> Fate, chunk: nat)
    requires chunk > 0
    ensures FirstBroken(fates, chunk, 0, 0) == 0
  {}

  lemma NothingDelivered(op: Op, views: seq<seq<byte>>, before: seq<byte>)
    requires |views| > 0
    ensures Replaced(op, views, before, before, 0)
    ensures Count(Result(op, views, 0)) == 0
  {}

  lemma SmallInt(x: int)
    ensures 0 <= x < 0x8000_0000 ==> Int32(x) == x
  {}

  lemma InitiallyUnread(dts: seq<Desc?>)
    requires forall i :: 0 <= i < |dts| && dts[i] != null ==> dts[i].Valid()
    ensures AllUnread(dts, Views(dts), Lengths(dts), 0)
  {
    forall i | 0 <= i < |dts|
      ensures Unread(dts[i], Views(dts)[i], Lengths(dts)[i], 0)
    {}
  }

  /** dest while the command runs: the result before position done, its old bytes from there on. */
  ghost predicate Replaced(op: Op, views: seq<seq<byte>>, before: seq<byte>, now: seq<byte>, done: nat)
    requires |views| > 0
  {
    now == Result(op, views, done) + before[Min(done, |before|)..]
  }

  lemma ResultMore(op: Op, views: seq<seq<byte>>, part: seq<byte>, done: nat)
    requires |views| > 0
    requires forall j :: 0 <= j < |part| ==> part[j] == OpAt(op, views, done + j)
    ensures Result(op, views, done + |part|) == Result(op, views, done) + part
    ensures Count(Result(op, views, done + |part|)) == Count(Result(op, views, done)) + Count(part)
  {
    hide OpAt;
    CountConcat(Result(op, views, done), part);
    forall j | done <= j < done + |part|
      ensures part[j - done] == OpAt(op, views, j)
    {
      assert part[j - done] == OpAt(op, views, done + (j - done));
    }
    assert Result(op, views, done + |part|) == Result(op, views, done) + part;
  }

  /** Bytes written right behind others leave what comes after them. */
  lemma WrittenBehind(head: seq<byte>, before: seq<byte>, part: seq<byte>)
    requires part != []
    ensures Written(head + before[Min(|head|, |before|)..], part, |head|)
         == head + part + before[Min(|head| + |part|, |before|)..]
  {
    var now := head + before[Min(|head|, |before|)..];
    assert now[..|head|] == head;
    assert now[Min(|head| + |part|, |now|)..] == before[Min(|head| + |part|, |before|)..];
  }

  lemma ReplaceMore(op: Op, views: seq<seq<byte>>, before: seq<byte>, now: seq<byte>, part: seq<byte>, done: nat)
    requires |views| > 0 && part != []
    requires forall j :: 0 <= j < |part| ==> part[j] == OpAt(op, views, done + j)
    requires Replaced(op, views, before, now, done)
    ensures Replaced(op, views, before, Written(now, part, done), done + |part|)
  {
    ResultMore(op, views, part, done);
    WrittenBehind(Result(op, views, done), before, part);
    hide OpAt, Written, Result;
  }

  // ---------- What the result is, bit by bit ----------

  ghost function OnesAmong(views: seq<seq<byte>>, m: nat, k: nat): nat
    requires m <= |views|
  {
    if m == 0 then 0 else OnesAmong(views, m - 1, k) + BitCommands.BitAt(views[m - 1], k)
  }

  lemma AndBit(a: byte, b: byte, bit: nat)
    requires bit < 8
    ensures BitCommands.BitIn(Apply(AND, a, b), bit) == Min(BitCommands.BitIn(a, bit), BitCommands.BitIn(b, bit))
  {}

  lemma OrBit(a: byte, b: byte, bit: nat)
    requires bit < 8
    ensures BitCommands.BitIn(Apply(OR, a, b), bit) == Max(BitCommands.BitIn(a, bit), BitCommands.BitIn(b, bit))
  {}

  lemma XorBit(a: byte, b: byte, bit: nat)
    requires bit < 8
    ensures BitCommands.BitIn(Apply(XOR, a, b), bit) == (BitCommands.BitIn(a, bit) + BitCommands.BitIn(b, bit)) % 2
  {}

  lemma NotBit(a: byte, bit: nat)
    requires bit < 8
    ensures BitCommands.BitIn(NotByte(a), bit) == 1 - BitCommands.BitIn(a, bit)
  {}

  lemma OneBit(a: byte, bit: nat)
    requires bit < 8
    ensures BitCommands.BitIn(a, bit) <= 1
  {}

  ghost predicate Meets(op: Op, bit: nat, ones: nat, m: nat) {
    if op == AND then bit == (if ones == m then 1 else 0)
    else if op == OR then bit == (if ones > 0 then 1 else 0)
    else bit == ones % 2
  }

  lemma {:induction false} FoldBits(op: Op, views: seq<seq<byte>>, m: nat, k: nat)
    requires 1 <= m <= |views| && op != NOT
    ensures OnesAmong(views, m, k) <= m
    ensures Meets(op, BitCommands.BitIn(FoldAt(op, views, m, k / 8), 7 - k % 8), OnesAmong(views, m, k), m)
  {
    hide BitCommands.BitIn, Apply, At;
    var last := At(views[m - 1], k / 8);
    OneBit(last, 7 - k % 8);
    if m == 1 {
      assert OnesAmong(views, 0, k) == 0;
    } else {
      FoldBits(op, views, m - 1, k);
      var others := FoldAt(op, views, m - 1, k / 8);
      OneBit(others, 7 - k % 8);
      if op == AND {
        AndBit(others, last, 7 - k % 8);
      } else if op == OR {
        OrBit(others, last, 7 - k % 8);
      } else {
        XorBit(others, last, 7 - k % 8);
      }
    }
  }

  /** A bit of the stored result is set where all sources have it set (AND), where any has (OR), where
      an odd number have (XOR), or where the source has not (NOT). */
  lemma ResultBits(op: Op, views: seq<seq<byte>>, n: nat, k: nat)
    requires |views| > 0 && k < 8 * n
    ensures var b := BitCommands.BitAt(Result(op, views, n), k);
            var ones := OnesAmong(views, |views|, k);
            && ones <= |views|
            && match op
               case AND => b == 1 <==> ones == |views|
               case OR => b == 1 <==> ones > 0
               case XOR => b == ones % 2
               case NOT => b == 1 - BitCommands.BitAt(views[0], k)
  {
    hide BitCommands.BitIn, NotByte, Apply;
    var j := k / 8;
    assert At(Result(op, views, n), j) == OpAt(op, views, j);
    if op == NOT {
      FoldBits(AND, views, |views|, k);
      NotBit(At(views[0], j), 7 - k % 8);
    } else {
      FoldBits(op, views, |views|, k);
    }
  }

  /** The reply of BITOP is the length of the result exactly when that fits an int; the one result
      SETBIT can lead to that does not, 2^31 bytes, is reported as a failure although it was stored. */
  lemma ReplyIsLength(n: nat)
    requires n <= 0x8000_0000
    ensures Int32(n) == n <==> n <= 0x7FFF_FFFF
    ensures Int32(n) < 0 <==> n == 0x8000_0000
    ensures Int32(0x8000_0000) == -0x8000_0000
  {}

  /** A file of 2^31 bytes is copied, and yet the reply is negative. */
  method LargestFile(cpu: Endianess, source: Desc, fates: nat -> Fate) returns (dest: Desc, res: int)
    requires source.length == |source.data| == 0x8000_0000 && forall c: nat :: fates(c).Done?
    ensures res == -0x8000_0000 && dest.data == source.data
  {
    hide Count, OpAt, FirstBroken, Int32, MaxOf, Result;
    dest := new Desc([], 0);
    ghost var views := Views([source]);
    var errors: (nat, nat) -> Option<nat> := (i: nat, c: nat) => None;
    SeenWhole(views, errors, FILE_BUFFER_SIZE);
    assert Lengths([source])[0] == 0x8000_0000 && views[0] == source.data;
    MaxOfIs(Lengths([source]), 0x8000_0000);
    NoneBroken(fates, FILE_BUFFER_SIZE, 0x8000_0000, 0);
    ReplyIsLength(0x8000_0000);
    Copied(views);
    res := BitOpCommand(cpu, OR, NONE, dest, [source], true, errors, fates);
  }

  lemma Copied(views: seq<seq<byte>>)
    requires |views| == 1
    ensures Result(OR, views, |views[0]|) == views[0]
  {}

  /** BITCOP is BITCOUNT of BITOP: counting without storing gives what storing the result in an empty
      file and counting that file gives. */
  method CountIsCountOfStored(cpu: Endianess, op: Op, dts: seq<Desc?>, errors: (nat, nat) -> Option<nat>)
    returns (counted: int, stored: int)
    requires |dts| > 0
    requires forall i :: 0 <= i < |dts| ==> Length(dts[i]) <= 0x8000_0000
    requires forall i :: 0 <= i < |dts| && dts[i] != null ==> dts[i].Valid()
    ensures counted == stored
  {
    hide Count, OpAt, Int32, Seen, FirstBroken, MaxOf;
    var fates := (c: nat) => Done;
    var none: nat -> Option<nat> := (k: nat) => None;
    counted := BitOpCommand(cpu, op, COUNTOP, null, dts, true, errors, fates);
    var dest := new Desc([], 0);
    ghost var seen, n := Seen(Views(dts), errors, FILE_BUFFER_SIZE), MaxOf(Lengths(dts));
    NoneBroken(fates, FILE_BUFFER_SIZE, n, 0);
    var _ := BitOpCommand(cpu, op, NONE, dest, dts, true, errors, fates);
    assert dest.data == Result(op, seen, n);
    stored := BitCommands.BitCountCommand(cpu, dest, 0, -1, true, none);
    CountsWhole(dest.data, none);
  }

  lemma CountsWhole(data: seq<byte>, none: nat -> Option<nat>)
    requires forall k: nat :: none(k).None?
    ensures var (s, e) := BitCommands.Normalised(|data|, 0, -1);
            Count(Window(data, s, BitCommands.Readable(none, FILE_BUFFER_SIZE, Max(e - s + 1, 0), 0))) == Count(data)
  {
    hide Count, Window;
    var (s, e) := BitCommands.Normalised(|data|, 0, -1);
    BitCommands.AllReadable(none, FILE_BUFFER_SIZE, Max(e - s + 1, 0), 0);
    BitCommands.WholeFile(data);
  }
}
