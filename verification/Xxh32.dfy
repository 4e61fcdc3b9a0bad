/** XXH32 (src/xxhash.c:260-575): the description of the digest as a function of seed and input,
    and the one-shot and streaming code proved to compute it on processors of either byte order. */
module Xxh32 {
  import opened Words
  import opened Memory
  import Stripes

  const PRIME32_1: int := 2654435761
  const PRIME32_2: int := 2246822519
  const PRIME32_3: int := 3266489917
  const PRIME32_4: int := 668265263
  const PRIME32_5: int := 374761393

  // ---------- The algorithm, step by step ----------

  function Round(seed: nat, input: nat): nat {
    Mul(W32, Rotl(W32, Add(W32, seed, Mul(W32, input, PRIME32_2)), 13), PRIME32_1)
  }

  function Avalanche(h: nat): nat {
    var a := Mul(W32, Xor(h, Shr(h, 15)), PRIME32_2);
    var b := Mul(W32, Xor(a, Shr(a, 13)), PRIME32_3);
    Xor(b, Shr(b, 16))
  }

  function Step4(h: nat, word: nat): nat {
    Mul(W32, Rotl(W32, Add(W32, h, Mul(W32, word, PRIME32_3)), 17), PRIME32_4)
  }

  function Step1(h: nat, word: nat): nat {
    Mul(W32, Rotl(W32, Add(W32, h, Mul(W32, word, PRIME32_5)), 11), PRIME32_1)
  }

  datatype Lanes = Lanes(v1: nat, v2: nat, v3: nat, v4: nat)

  /** Step 1: the four accumulators. */
  function Init(seed: nat): Lanes {
    Lanes(Add(W32, Add(W32, seed, PRIME32_1), PRIME32_2),
          Add(W32, seed, PRIME32_2),
          Add(W32, seed, 0),
          Add(W32, seed, -PRIME32_1))
  }

  /** Step 2: one stripe of four lanes. */
  function Stripe(acc: Lanes, w: seq<byte>): Lanes
    requires |w| == 16
  {
    Lanes(Round(acc.v1, LE(w[..4])), Round(acc.v2, LE(w[4..8])),
          Round(acc.v3, LE(w[8..12])), Round(acc.v4, LE(w[12..])))
  }

  /** Step 3: the accumulators converge. */
  function Converge(acc: Lanes): nat {
    Add(W32, Add(W32, Add(W32, Rotl(W32, acc.v1, 1), Rotl(W32, acc.v2, 7)), Rotl(W32, acc.v3, 12)),
        Rotl(W32, acc.v4, 18))
  }

  /** Step 5: four bytes while there are four, then single bytes. */
  function Tail(h: nat, s: seq<byte>): nat
    decreases |s|
  {
    if |s| >= 4 then Tail(Step4(h, LE(s[..4])), s[4..])
    else if |s| >= 1 then Tail(Step1(h, s[0] as nat), s[1..])
    else h
  }

  function Consumed(seed: nat, s: seq<byte>): Lanes {
    Stripes.Fold(Stripe, 16, Init(seed), s)
  }

  /** Steps 1 to 6; the length counts modulo 2^32. */
  function Hash(seed: nat, s: seq<byte>): nat {
    var h := if |s| >= 16 then Converge(Consumed(seed, s)) else Add(W32, seed, PRIME32_5);
    Avalanche(Tail(Add(W32, h, |s|), Stripes.Rest(16, s)))
  }

  // ---------- XXH32_finalize ----------

  // The three macros advance the cursor i over p and the running hash h; what they leave for the
  // greedy tail to do is unchanged.

  ghost function TailFrom(h: nat, p: seq<byte>, i: nat): nat
    requires i <= |p|
  {
    Tail(h, p[i..])
  }

  method Process4(cpu: Endianess, h: nat, p: seq<byte>, i: nat) returns (h': nat, i': nat)
    requires i + 4 <= |p|
    ensures i' == i + 4 && TailFrom(h', p, i') == TailFrom(h, p, i)
  {
    hide Step4, Step1, LE;
    ReadLEPortable(cpu, p[i..i + 4]);
    h' := Step4(h, ReadLE(cpu, p[i..i + 4]));
    i' := i + 4;
    assert p[i..][..4] == p[i..i + 4] && p[i..][4..] == p[i'..];
  }

  method Process1(h: nat, p: seq<byte>, i: nat) returns (h': nat, i': nat)
    requires i + 1 <= |p| < i + 4
    ensures i' == i + 1 && TailFrom(h', p, i') == TailFrom(h, p, i)
  {
    hide Step4, Step1, LE;
    h' := Step1(h, p[i] as nat);
    i' := i + 1;
    assert p[i..][0] == p[i] && p[i..][1..] == p[i'..];
  }

  /** The fall-through switch over len & 15; each `if` below is a label that control may fall past. */
  method Finalize(cpu: Endianess, h32: nat, p: seq<byte>, len: nat) returns (r: nat)
    requires |p| == len % 16
    ensures r == Avalanche(Tail(h32, p))
  {
    hide *;
    var h, i := h32, 0;
    var n := len % 16;
    assert TailFrom(h, p, i) == Tail(h32, p) by {
      TailFromStart(h, p);
    }
    if n == 12 || n == 8 || n == 4 {
      if n >= 12 { h, i := Process4(cpu, h, p, i); }
      if n >= 8 { h, i := Process4(cpu, h, p, i); }
      h, i := Process4(cpu, h, p, i);
    } else if n == 13 || n == 9 || n == 5 {
      if n >= 13 { h, i := Process4(cpu, h, p, i); }
      if n >= 9 { h, i := Process4(cpu, h, p, i); }
      h, i := Process4(cpu, h, p, i);
      h, i := Process1(h, p, i);
    } else if n == 14 || n == 10 || n == 6 {
      if n >= 14 { h, i := Process4(cpu, h, p, i); }
      if n >= 10 { h, i := Process4(cpu, h, p, i); }
      h, i := Process4(cpu, h, p, i);
      h, i := Process1(h, p, i);
      h, i := Process1(h, p, i);
    } else {
      if n >= 15 { h, i := Process4(cpu, h, p, i); }
      if n >= 11 { h, i := Process4(cpu, h, p, i); }
      if n >= 7 { h, i := Process4(cpu, h, p, i); }
      if n >= 3 { h, i := Process1(h, p, i); }
      if n >= 2 { h, i := Process1(h, p, i); }
      if n >= 1 { h, i := Process1(h, p, i); }
    }
    TailFromEnd(h, p);
    r := Avalanche(h);
  }

  lemma TailFromStart(h: nat, p: seq<byte>)
    ensures TailFrom(h, p, 0) == Tail(h, p)
  {
    assert p[0..] == p;
  }

  lemma TailFromEnd(h: nat, p: seq<byte>)
    ensures TailFrom(h, p, |p|) == h
  {}

  // ---------- One-shot ----------

  /** The do-while loop over whole stripes, which the one-shot and the streaming code share; its
      condition already holds on entry. */
  method StripeLoop(cpu: Endianess, input: seq<byte>, start: nat, acc: Lanes) returns (acc': Lanes, p: nat)
    requires start + 16 <= |input|
    ensures start <= p <= |input|
    ensures acc' == Stripes.Fold(Stripe, 16, acc, input[start..])
    ensures input[p..] == Stripes.Rest(16, input[start..])
  {
    hide Round, LE;
    var v1, v2, v3, v4 := acc.v1, acc.v2, acc.v3, acc.v4;
    var limit := |input| - 16;
    p := start;
    while p <= limit
      invariant start <= p <= |input|
      invariant Stripes.Fold(Stripe, 16, Lanes(v1, v2, v3, v4), input[p..])
             == Stripes.Fold(Stripe, 16, acc, input[start..])
      invariant Stripes.Rest(16, input[p..]) == Stripes.Rest(16, input[start..])
    {
      ghost var before, w := Lanes(v1, v2, v3, v4), input[p..p + 16];
      assert input[p..][..16] == w && input[p..][16..] == input[p + 16..];
      assert w[..4] == input[p..p + 4] && w[4..8] == input[p + 4..p + 8];
      assert w[8..12] == input[p + 8..p + 12] && w[12..] == input[p + 12..p + 16];
      v1, p := ReadRound(cpu, v1, input, p);
      v2, p := ReadRound(cpu, v2, input, p);
      v3, p := ReadRound(cpu, v3, input, p);
      v4, p := ReadRound(cpu, v4, input, p);
      assert Lanes(v1, v2, v3, v4) == Stripe(before, w);
    }
    acc' := Lanes(v1, v2, v3, v4);
  }

  method ReadRound(cpu: Endianess, v: nat, s: seq<byte>, p: nat) returns (v': nat, p': nat)
    requires p + 4 <= |s|
    ensures v' == Round(v, LE(s[p..p + 4])) && p' == p + 4
  {
    hide Round, LE;
    ReadLEPortable(cpu, s[p..p + 4]);
    v', p' := Round(v, ReadLE(cpu, s[p..p + 4])), p + 4;
  }

  /** XXH32_endian_align. */
  method OneShot(cpu: Endianess, input: seq<byte>, seed: nat) returns (h: nat)
    ensures h == Hash(seed, input)
  {
    hide Round, Avalanche, Tail, Add, Rotl, LE;
    var p := 0;
    var len := |input|;
    assert input[0..] == input;
    if len >= 16 {
      var acc;
      acc, p := StripeLoop(cpu, input, p, Init(seed));
      h := Converge(acc);
    } else {
      h := Add(W32, seed, PRIME32_5);
    }
    h := Add(W32, h, len);
    Stripes.RestLength(16, input);
    h := Finalize(cpu, h, input[p..], len % 16);
  }

  // ---------- Streaming ----------

  /** A total as the 32-bit counter has it. */
  function Wrapped(n: nat): nat {
    n % W32.Modulus()
  }

  /** The streaming state of XXH32: bytes is everything fed since the last reset. */
  class State {
    var totalLen: nat
    var largeLen: bool
    var v1: nat
    var v2: nat
    var v3: nat
    var v4: nat
    const mem: array<byte>
    var memsize: nat
    ghost var seed: nat
    ghost var bytes: seq<byte>

    ghost predicate Valid()
      reads this, mem
    {
      && mem.Length == 16
      && seed < W32.Modulus()
      && totalLen == Wrapped(|bytes|)
      && (largeLen <==> |bytes| >= 16)
      && memsize < 16
      && mem[..memsize] == Stripes.Rest(16, bytes)
      && Lanes(v1, v2, v3, v4) == Consumed(seed, bytes)
    }

    constructor (seed: nat)
      requires seed < W32.Modulus()
      ensures Valid() && fresh(mem) && this.seed == seed && bytes == []
    {
      mem := new byte[16];
      new;
      Reset(seed);
    }

    method Reset(seed: nat)
      requires seed < W32.Modulus() && mem.Length == 16
      modifies this, mem
      ensures Valid() && this.seed == seed && bytes == []
    {
      hide Add;
      forall i | 0 <= i < 16 {
        mem[i] := 0;
      }
      totalLen, largeLen, memsize := 0, false, 0;
      v1 := Add(W32, Add(W32, seed, PRIME32_1), PRIME32_2);
      v2 := Add(W32, seed, PRIME32_2);
      v3 := Add(W32, seed, 0);
      v4 := Add(W32, seed, -PRIME32_1);
      this.seed, bytes := seed, [];
    }

    /** XXH_memcpy into the buffer. */
    method Memcpy(at: nat, src: seq<byte>)
      requires at + |src| <= mem.Length
      modifies mem
      ensures mem[..] == old(mem[..at]) + src + old(mem[at + |src|..])
    {
      forall i | 0 <= i < |src| {
        mem[at + i] := src[i];
      }
    }

    /** The wrapping total, and whether the true total has reached a whole stripe. */
    method Count(len: nat)
      requires Valid()
      modifies this`totalLen, this`largeLen
      ensures totalLen == Wrapped(|bytes| + len)
      ensures largeLen <==> |bytes| + len >= 16
    {
      TotalAppend(|bytes|, len);
      LargeLen(|bytes|, len);
      totalLen := Add(W32, totalLen, len);
      largeLen := largeLen || len >= 16 || totalLen >= 16;
    }

    /** Consuming `rest` from the present lanes accounts for all of bytes. */
    ghost predicate Owes(rest: seq<byte>)
      reads this
    {
      && Stripes.Fold(Stripe, 16, Lanes(v1, v2, v3, v4), rest) == Consumed(seed, bytes)
      && Stripes.Rest(16, rest) == Stripes.Rest(16, bytes)
    }

    /** The stripe begun by earlier calls is completed from data and consumed. */
    method FinishStripe(cpu: Endianess, data: seq<byte>) returns (p: nat)
      requires mem.Length == 16 && 0 < memsize < 16 <= memsize + |data|
      requires Owes(mem[..memsize] + data)
      modifies this`v1, this`v2, this`v3, this`v4, this`memsize, mem
      ensures p <= |data| && memsize == 0
      ensures Owes(data[p..])
    {
      hide Round, Consumed, LE;
      ghost var all, acc := mem[..memsize] + data, Lanes(v1, v2, v3, v4);
      Memcpy(memsize, data[..16 - memsize]);
      ghost var w := mem[..];
      assert w == all[..16];
      ReadLEPortable(cpu, mem[0..4]);
      ReadLEPortable(cpu, mem[4..8]);
      ReadLEPortable(cpu, mem[8..12]);
      ReadLEPortable(cpu, mem[12..16]);
      v1 := Round(v1, ReadLE(cpu, mem[0..4]));
      v2 := Round(v2, ReadLE(cpu, mem[4..8]));
      v3 := Round(v3, ReadLE(cpu, mem[8..12]));
      v4 := Round(v4, ReadLE(cpu, mem[12..16]));
      p := 16 - memsize;
      memsize := 0;
      assert w[..4] == mem[0..4] && w[4..8] == mem[4..8] && w[8..12] == mem[8..12] && w[12..] == mem[12..16];
      assert Lanes(v1, v2, v3, v4) == Stripe(acc, w);
      assert all[16..] == data[p..];
    }

    /** The whole stripes left in data are consumed and the remainder is kept. */
    method Absorb(cpu: Endianess, data: seq<byte>, start: nat)
      requires start <= |data| && mem.Length == 16 && memsize == 0
      requires Owes(data[start..])
      modifies this`v1, this`v2, this`v3, this`v4, this`memsize, mem
      ensures memsize < 16 && mem[..memsize] == Stripes.Rest(16, bytes)
      ensures Lanes(v1, v2, v3, v4) == Consumed(seed, bytes)
    {
      hide Stripe, Consumed;
      var p, len := start, |data|;
      if p + 16 <= len {
        var lanes;
        lanes, p := StripeLoop(cpu, data, p, Lanes(v1, v2, v3, v4));
        v1, v2, v3, v4 := lanes.v1, lanes.v2, lanes.v3, lanes.v4;
      }
      if p < len {
        Memcpy(0, data[p..]);
        memsize := len - p;
      }
      assert mem[..memsize] == data[p..];
    }

    /** XXH32_update, wherever memsize + len does not wrap at 2^64. */
    method Update(cpu: Endianess, input: Stripes.Buffer) returns (code: Stripes.Errorcode)
      requires Valid()
      requires input.Bytes? ==> memsize + |input.data| < W64.Modulus()
      modifies this, mem
      ensures Valid() && seed == old(seed)
      ensures code == if input.Null? then Stripes.ERROR else Stripes.OK
      ensures bytes == old(bytes) + (if input.Null? then [] else input.data)
    {
      hide Stripe, Init, Add, Consumed, Stripes.Fold, Stripes.Rest, Wrapped;
      if input.Null? {
        assert bytes == bytes + [];
        return Stripes.ERROR;
      }
      var data := input.data;
      var len := |data|;
      code := Stripes.OK;
      var p := 0;
      ghost var held := mem[..memsize];
      MoreInput(seed, bytes, data);
      Count(len);
      bytes := bytes + data;
      assert Owes(held + data);
      if memsize + len < 16 {
        Memcpy(memsize, data);
        memsize := memsize + len;
        assert mem[..memsize] == held + data;
        NoStripe(Lanes(v1, v2, v3, v4), held + data);
        return;
      }
      hide Owes;
      if memsize > 0 {
        p := FinishStripe(cpu, data);
      } else {
        assert held + data == data[p..];
      }
      Absorb(cpu, data, p);
    }

    /** XXH32_digest: right for every total, although the running count wraps at 2^32. */
    method Digest(cpu: Endianess) returns (h: nat)
      requires Valid()
      ensures h == Hash(seed, bytes)
    {
      hide Add, Converge, Avalanche, Tail;
      if largeLen {
        h := Converge(Lanes(v1, v2, v3, v4));
      } else {
        h := Add(W32, v3, PRIME32_5);
        AddZero(seed);
      }
      h := Add(W32, h, totalLen);
      h := Finalize(cpu, h, mem[..memsize], memsize);
      AddTotal(if largeLen then Converge(Consumed(seed, bytes)) else Add(W32, seed, PRIME32_5), |bytes|);
    }
  }

  /** The accumulators and the remainder are all that more input needs. */
  lemma MoreInput(seed: nat, bytes: seq<byte>, data: seq<byte>)
    ensures Stripes.Fold(Stripe, 16, Consumed(seed, bytes), Stripes.Rest(16, bytes) + data)
         == Consumed(seed, bytes + data)
    ensures Stripes.Rest(16, Stripes.Rest(16, bytes) + data) == Stripes.Rest(16, bytes + data)
  {
    hide Stripe, Init, Stripes.Fold;
    Stripes.FoldAppend(Stripe, 16, Init(seed), bytes, data);
  }

  lemma NoStripe(acc: Lanes, s: seq<byte>)
    requires |s| < 16
    ensures Stripes.Fold(Stripe, 16, acc, s) == acc && Stripes.Rest(16, s) == s
  {}

  /** The simple version of XXH32 (src/xxhash.c:395-399), fed any list of pieces: after every piece the
      digest is the one-shot digest of the bytes so far. */
  method DigestPieces(cpu: Endianess, pieces: seq<seq<byte>>, seed: nat) returns (digests: seq<nat>)
    requires seed < W32.Modulus()
    requires forall i :: 0 <= i < |pieces| ==> |Stripes.Concat(pieces[..i])| % 16 + |pieces[i]| < W64.Modulus()
    ensures |digests| == |pieces|
    ensures forall k :: 0 <= k < |pieces| ==> digests[k] == Hash(seed, Stripes.Concat(pieces[..k + 1]))
  {
    hide Hash, Add, Consumed, Stripes.Rest;
    var state := new State(seed);
    digests := [];
    for i := 0 to |pieces|
      invariant state.Valid() && fresh(state) && fresh(state.mem) && state.seed == seed
      invariant state.bytes == Stripes.Concat(pieces[..i])
      invariant |digests| == i
      invariant forall k :: 0 <= k < i ==> digests[k] == Hash(seed, Stripes.Concat(pieces[..k + 1]))
    {
      Stripes.ConcatPrefix(pieces, i);
      Stripes.RestLength(16, state.bytes);
      var _ := state.Update(cpu, Stripes.Bytes(pieces[i]));
      var h := state.Digest(cpu);
      digests := digests + [h];
    }
  }

  /** The wrapped count is consulted only while it has not wrapped yet. */
  lemma LargeLen(n: nat, len: nat)
    ensures n + len >= 16 <==> n >= 16 || len >= 16 || Add(W32, n % W32.Modulus(), len) >= 16
  {}

  lemma AddZero(seed: nat)
    requires seed < W32.Modulus()
    ensures Add(W32, seed, 0) == seed
  {}

  lemma AddTotal(h: nat, n: nat)
    ensures Add(W32, h, n % W32.Modulus()) == Add(W32, h, n)
  {
    var m := W32.Modulus();
    assert n == n / m * m + n % m;
  }

  lemma TotalAppend(n: nat, len: nat)
    ensures Add(W32, n % W32.Modulus(), len) == (n + len) % W32.Modulus()
  {}
}
