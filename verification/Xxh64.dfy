/** XXH64 (src/xxhash.c:664-1013): the description of the digest as a function of seed and input,
    and the one-shot and streaming code proved to compute it on processors of either byte order. */
module Xxh64 {
  import opened Words
  import opened Memory
  import Stripes

  const PRIME64_1: int := 11400714785074694791
  const PRIME64_2: nat := 14029467366897019727
  const PRIME64_3: nat := 1609587929392839161
  const PRIME64_4: nat := 9650029242287828579
  const PRIME64_5: nat := 2870177450012600261

  // ---------- The algorithm, step by step ----------

  function Round(acc: nat, input: nat): nat {
    Mul(W64, Rotl(W64, Add(W64, acc, Mul(W64, input, PRIME64_2)), 31), PRIME64_1)
  }

  function MergeRound(acc: nat, val: nat): nat {
    Add(W64, Mul(W64, Xor(acc, Round(0, val)), PRIME64_1), PRIME64_4)
  }

  function Avalanche(h: nat): nat {
    var a := Mul(W64, Xor(h, Shr(h, 33)), PRIME64_2);
    var b := Mul(W64, Xor(a, Shr(a, 29)), PRIME64_3);
    Xor(b, Shr(b, 32))
  }

  function Step8(h: nat, word: nat): nat {
    Add(W64, Mul(W64, Rotl(W64, Xor(h, Round(0, word)), 27), PRIME64_1), PRIME64_4)
  }

  function Step4(h: nat, word: nat): nat {
    Add(W64, Mul(W64, Rotl(W64, Xor(h, Mul(W64, word, PRIME64_1)), 23), PRIME64_2), PRIME64_3)
  }

  function Step1(h: nat, word: nat): nat {
    Mul(W64, Rotl(W64, Xor(h, Mul(W64, word, PRIME64_5)), 11), PRIME64_1)
  }

  datatype Lanes = Lanes(v1: nat, v2: nat, v3: nat, v4: nat)

  /** Step 1: the four accumulators. */
  function Init(seed: nat): Lanes {
    Lanes(Add(W64, Add(W64, seed, PRIME64_1), PRIME64_2),
          Add(W64, seed, PRIME64_2),
          Add(W64, seed, 0),
          Add(W64, seed, -PRIME64_1))
  }

  /** Step 2: one stripe of four lanes. */
  function Stripe(acc: Lanes, w: seq<byte>): Lanes
    requires |w| == 32
  {
    Lanes(Round(acc.v1, LE(w[..8])), Round(acc.v2, LE(w[8..16])),
          Round(acc.v3, LE(w[16..24])), Round(acc.v4, LE(w[24..])))
  }

  /** Step 3: the accumulators converge. */
  function Converge(acc: Lanes): nat {
    var h := Add(W64, Add(W64, Add(W64, Rotl(W64, acc.v1, 1), Rotl(W64, acc.v2, 7)), Rotl(W64, acc.v3, 12)),
                 Rotl(W64, acc.v4, 18));
    MergeRound(MergeRound(MergeRound(MergeRound(h, acc.v1), acc.v2), acc.v3), acc.v4)
  }

  /** Step 5: eight bytes while there are eight, then at most one group of four, then single bytes. */
  function Tail(h: nat, s: seq<byte>): nat
    decreases |s|
  {
    if |s| >= 8 then Tail(Step8(h, LE(s[..8])), s[8..])
    else if |s| >= 4 then Tail(Step4(h, LE(s[..4])), s[4..])
    else if |s| >= 1 then Tail(Step1(h, s[0] as nat), s[1..])
    else h
  }

  function Consumed(seed: nat, s: seq<byte>): Lanes {
    Stripes.Fold(Stripe, 32, Init(seed), s)
  }

  /** Steps 1 to 6. */
  function Hash(seed: nat, s: seq<byte>): nat {
    var h := if |s| >= 32 then Converge(Consumed(seed, s)) else Add(W64, seed, PRIME64_5);
    Avalanche(Tail(Add(W64, h, |s|), Stripes.Rest(32, s)))
  }

  // ---------- XXH64_finalize ----------

  // The three macros advance the cursor i over p and the running hash h; what they leave for the
  // greedy tail to do is unchanged.

  ghost function TailFrom(h: nat, p: seq<byte>, i: nat): nat
    requires i <= |p|
  {
    Tail(h, p[i..])
  }

  method Process8(cpu: Endianess, h: nat, p: seq<byte>, i: nat) returns (h': nat, i': nat)
    requires i + 8 <= |p|
    ensures i' == i + 8 && TailFrom(h', p, i') == TailFrom(h, p, i)
  {
    hide Step8, Step4, Step1, LE;
    ReadLEPortable(cpu, p[i..i + 8]);
    h' := Step8(h, ReadLE(cpu, p[i..i + 8]));
    i' := i + 8;
    assert p[i..][..8] == p[i..i + 8] && p[i..][8..] == p[i'..];
  }

  method Process4(cpu: Endianess, h: nat, p: seq<byte>, i: nat) returns (h': nat, i': nat)
    requires i + 4 <= |p| < i + 8
    ensures i' == i + 4 && TailFrom(h', p, i') == TailFrom(h, p, i)
  {
    hide Step8, Step4, Step1, LE;
    ReadLEPortable(cpu, p[i..i + 4]);
    h' := Step4(h, ReadLE(cpu, p[i..i + 4]));
    i' := i + 4;
    assert p[i..][..4] == p[i..i + 4] && p[i..][4..] == p[i'..];
  }

  method Process1(h: nat, p: seq<byte>, i: nat) returns (h': nat, i': nat)
    requires i + 1 <= |p| < i + 4
    ensures i' == i + 1 && TailFrom(h', p, i') == TailFrom(h, p, i)
  {
    hide Step8, Step4, Step1, LE;
    h' := Step1(h, p[i] as nat);
    i' := i + 1;
    assert p[i..][0] == p[i] && p[i..][1..] == p[i'..];
  }

  /** The fall-through switch over len & 31; each `if` below is a label that control may fall past. */
  method Finalize(cpu: Endianess, h64: nat, p: seq<byte>, len: nat) returns (r: nat)
    requires |p| == len % 32
    ensures r == Avalanche(Tail(h64, p))
  {
    hide *;
    var h, i := h64, 0;
    var n := len % 32;
    assert TailFrom(h, p, i) == Tail(h64, p) by {
      TailFromStart(h, p);
    }
    if n == 24 || n == 16 || n == 8 {
      if n >= 24 { h, i := Process8(cpu, h, p, i); }
      if n >= 16 { h, i := Process8(cpu, h, p, i); }
      h, i := Process8(cpu, h, p, i);
    } else if n == 28 || n == 20 || n == 12 || n == 4 {
      if n >= 28 { h, i := Process8(cpu, h, p, i); }
      if n >= 20 { h, i := Process8(cpu, h, p, i); }
      if n >= 12 { h, i := Process8(cpu, h, p, i); }
      h, i := Process4(cpu, h, p, i);
    } else if n == 25 || n == 17 || n == 9 {
      if n >= 25 { h, i := Process8(cpu, h, p, i); }
      if n >= 17 { h, i := Process8(cpu, h, p, i); }
      h, i := Process8(cpu, h, p, i);
      h, i := Process1(h, p, i);
    } else if n == 29 || n == 21 || n == 13 || n == 5 {
      if n >= 29 { h, i := Process8(cpu, h, p, i); }
      if n >= 21 { h, i := Process8(cpu, h, p, i); }
      if n >= 13 { h, i := Process8(cpu, h, p, i); }
      h, i := Process4(cpu, h, p, i);
      h, i := Process1(h, p, i);
    } else if n == 26 || n == 18 || n == 10 {
      if n >= 26 { h, i := Process8(cpu, h, p, i); }
      if n >= 18 { h, i := Process8(cpu, h, p, i); }
      h, i := Process8(cpu, h, p, i);
      h, i := Process1(h, p, i);
      h, i := Process1(h, p, i);
    } else if n == 30 || n == 22 || n == 14 || n == 6 {
      if n >= 30 { h, i := Process8(cpu, h, p, i); }
      if n >= 22 { h, i := Process8(cpu, h, p, i); }
      if n >= 14 { h, i := Process8(cpu, h, p, i); }
      h, i := Process4(cpu, h, p, i);
      h, i := Process1(h, p, i);
      h, i := Process1(h, p, i);
    } else if n == 27 || n == 19 || n == 11 {
      if n >= 27 { h, i := Process8(cpu, h, p, i); }
      if n >= 19 { h, i := Process8(cpu, h, p, i); }
      h, i := Process8(cpu, h, p, i);
      h, i := Process1(h, p, i);
      h, i := Process1(h, p, i);
      h, i := Process1(h, p, i);
    } else {
      if n >= 31 { h, i := Process8(cpu, h, p, i); }
      if n >= 23 { h, i := Process8(cpu, h, p, i); }
      if n >= 15 { h, i := Process8(cpu, h, p, i); }
      if n >= 7 { h, i := Process4(cpu, h, p, i); }
      if n >= 3 { h, i := Process1(h, p, i); }
      if n >= 2 { h, i := Process1(h, p, i); }
      if n >= 1 { h, i := Process1(h, p, i); }
    }
    TailFromEnd(h, p);
    r := Avalanche(h);
  }

  lemma TailFromStart(h: nat, p: seq<byte>)
    ensures TailFrom(h, p, 0) == Tail(h, p)
  {
    assert p[0..] == p;
  }

  lemma TailFromEnd(h: nat, p: seq<byte>)
    ensures TailFrom(h, p, |p|) == h
  {}

  // ---------- One-shot ----------

  /** The do-while loop over whole stripes, which the one-shot and the streaming code share; its
      condition already holds on entry. */
  method StripeLoop(cpu: Endianess, input: seq<byte>, start: nat, acc: Lanes) returns (acc': Lanes, p: nat)
    requires start + 32 <= |input|
    ensures start <= p <= |input|
    ensures acc' == Stripes.Fold(Stripe, 32, acc, input[start..])
    ensures input[p..] == Stripes.Rest(32, input[start..])
  {
    hide Round, LE;
    var v1, v2, v3, v4 := acc.v1, acc.v2, acc.v3, acc.v4;
    var limit := |input| - 32;
    p := start;
    while p <= limit
      invariant start <= p <= |input|
      invariant Stripes.Fold(Stripe, 32, Lanes(v1, v2, v3, v4), input[p..])
             == Stripes.Fold(Stripe, 32, acc, input[start..])
      invariant Stripes.Rest(32, input[p..]) == Stripes.Rest(32, input[start..])
    {
      ghost var before, w := Lanes(v1, v2, v3, v4), input[p..p + 32];
      assert input[p..][..32] == w && input[p..][32..] == input[p + 32..];
      assert w[..8] == input[p..p + 8] && w[8..16] == input[p + 8..p + 16];
      assert w[16..24] == input[p + 16..p + 24] && w[24..] == input[p + 24..p + 32];
      v1, p := ReadRound(cpu, v1, input, p);
      v2, p := ReadRound(cpu, v2, input, p);
      v3, p := ReadRound(cpu, v3, input, p);
      v4, p := ReadRound(cpu, v4, input, p);
      assert Lanes(v1, v2, v3, v4) == Stripe(before, w);
    }
    acc' := Lanes(v1, v2, v3, v4);
  }

  method ReadRound(cpu: Endianess, v: nat, s: seq<byte>, p: nat) returns (v': nat, p': nat)
    requires p + 8 <= |s|
    ensures v' == Round(v, LE(s[p..p + 8])) && p' == p + 8
  {
    hide Round, LE;
    ReadLEPortable(cpu, s[p..p + 8]);
    v', p' := Round(v, ReadLE(cpu, s[p..p + 8])), p + 8;
  }

  /** XXH64_endian_align. */
  method OneShot(cpu: Endianess, input: seq<byte>, seed: nat) returns (h: nat)
    ensures h == Hash(seed, input)
  {
    hide Round, MergeRound, Avalanche, Tail, Add, Rotl, LE;
    var p := 0;
    var len := |input|;
    assert input[0..] == input;
    if len >= 32 {
      var acc;
      acc, p := StripeLoop(cpu, input, p, Init(seed));
      h := Converge(acc);
    } else {
      h := Add(W64, seed, PRIME64_5);
    }
    h := Add(W64, h, len);
    Stripes.RestLength(32, input);
    h := Finalize(cpu, h, input[p..], len);
  }

  // ---------- Streaming ----------

  /** Where the total is judged rightly the digest is the one-shot digest. */
  lemma DigestIsHash(seed: nat, s: seq<byte>)
    requires seed < W64.Modulus()
    ensures |s| < 32 || |s| % W64.Modulus() >= 32 ==> DigestOf(seed, s) == Hash(seed, s)
  {
    hide Add, Converge, Avalanche, Tail, Stripe;
    AddZero(seed);
    TotalRemainder(|s|);
    if |s| < 32 {
      assert Consumed(seed, s) == Init(seed);
    } else {
      Words.DivUnique(|s|, W64.Modulus(), |s| / W64.Modulus(), |s| % W64.Modulus());
    }
  }

  /** What is digested for any total: the test against a whole stripe sees the total modulo 2^64. */
  function DigestOf(seed: nat, s: seq<byte>): nat {
    var acc := Consumed(seed, s);
    var h := if |s| % W64.Modulus() >= 32 then Converge(acc) else Add(W64, acc.v3, PRIME64_5);
    Avalanche(Tail(Add(W64, h, |s|), Stripes.Rest(32, s)))
  }

  /** The streaming state of XXH64: bytes is everything fed since the last reset. */
  class State {
    var totalLen: nat
    var v1: nat
    var v2: nat
    var v3: nat
    var v4: nat
    const mem: array<byte>
    var memsize: nat
    ghost var seed: nat
    ghost var bytes: seq<byte>

    ghost predicate Valid()
      reads this, mem
    {
      && mem.Length == 32
      && seed < W64.Modulus()
      && totalLen == |bytes| % W64.Modulus()
      && memsize < 32
      && mem[..memsize] == Stripes.Rest(32, bytes)
      && Lanes(v1, v2, v3, v4) == Consumed(seed, bytes)
    }

    constructor (seed: nat)
      requires seed < W64.Modulus()
      ensures Valid() && fresh(mem) && this.seed == seed && bytes == []
    {
      mem := new byte[32];
      new;
      Reset(seed);
    }

    method Reset(seed: nat)
      requires seed < W64.Modulus() && mem.Length == 32
      modifies this, mem
      ensures Valid() && this.seed == seed && bytes == []
    {
      hide Add;
      forall i | 0 <= i < 32 {
        mem[i] := 0;
      }
      totalLen, memsize := 0, 0;
      v1 := Add(W64, Add(W64, seed, PRIME64_1), PRIME64_2);
      v2 := Add(W64, seed, PRIME64_2);
      v3 := Add(W64, seed, 0);
      v4 := Add(W64, seed, -PRIME64_1);
      this.seed, bytes := seed, [];
    }

    /** XXH_memcpy into the buffer. */
    method Memcpy(at: nat, src: seq<byte>)
      requires at + |src| <= mem.Length
      modifies mem
      ensures mem[..] == old(mem[..at]) + src + old(mem[at + |src|..])
    {
      forall i | 0 <= i < |src| {
        mem[at + i] := src[i];
      }
    }

    /** Consuming `rest` from the present lanes accounts for all of bytes. */
    ghost predicate Owes(rest: seq<byte>)
      reads this
    {
      && Stripes.Fold(Stripe, 32, Lanes(v1, v2, v3, v4), rest) == Consumed(seed, bytes)
      && Stripes.Rest(32, rest) == Stripes.Rest(32, bytes)
    }

    /** The stripe begun by earlier calls is completed from data and consumed. */
    method FinishStripe(cpu: Endianess, data: seq<byte>) returns (p: nat)
      requires mem.Length == 32 && 0 < memsize < 32 <= memsize + |data|
      requires Owes(mem[..memsize] + data)
      modifies this`v1, this`v2, this`v3, this`v4, this`memsize, mem
      ensures p <= |data| && memsize == 0
      ensures Owes(data[p..])
    {
      hide Round, Consumed, LE;
      ghost var all, acc := mem[..memsize] + data, Lanes(v1, v2, v3, v4);
      Memcpy(memsize, data[..32 - memsize]);
      ghost var w := mem[..];
      assert w == all[..32];
      ReadLEPortable(cpu, mem[0..8]);
      ReadLEPortable(cpu, mem[8..16]);
      ReadLEPortable(cpu, mem[16..24]);
      ReadLEPortable(cpu, mem[24..32]);
      v1 := Round(v1, ReadLE(cpu, mem[0..8]));
      v2 := Round(v2, ReadLE(cpu, mem[8..16]));
      v3 := Round(v3, ReadLE(cpu, mem[16..24]));
      v4 := Round(v4, ReadLE(cpu, mem[24..32]));
      p := 32 - memsize;
      memsize := 0;
      assert w[..8] == mem[0..8] && w[8..16] == mem[8..16] && w[16..24] == mem[16..24] && w[24..] == mem[24..32];
      assert Lanes(v1, v2, v3, v4) == Stripe(acc, w);
      assert all[32..] == data[p..];
    }

    /** The whole stripes left in data are consumed and the remainder is kept. */
    method Absorb(cpu: Endianess, data: seq<byte>, start: nat)
      requires start <= |data| && mem.Length == 32 && memsize == 0
      requires Owes(data[start..])
      modifies this`v1, this`v2, this`v3, this`v4, this`memsize, mem
      ensures memsize < 32 && mem[..memsize] == Stripes.Rest(32, bytes)
      ensures Lanes(v1, v2, v3, v4) == Consumed(seed, bytes)
    {
      hide Stripe, Consumed;
      var p, len := start, |data|;
      if p + 32 <= len {
        var lanes;
        lanes, p := StripeLoop(cpu, data, p, Lanes(v1, v2, v3, v4));
        v1, v2, v3, v4 := lanes.v1, lanes.v2, lanes.v3, lanes.v4;
      }
      if p < len {
        Memcpy(0, data[p..]);
        memsize := len - p;
      }
      assert mem[..memsize] == data[p..];
    }

    /** XXH64_update, wherever memsize + len does not wrap at 2^64. */
    method Update(cpu: Endianess, input: Stripes.Buffer) returns (code: Stripes.Errorcode)
      requires Valid()
      requires input.Bytes? ==> memsize + |input.data| < W64.Modulus()
      modifies this, mem
      ensures Valid() && seed == old(seed)
      ensures code == if input.Null? then Stripes.ERROR else Stripes.OK
      ensures bytes == old(bytes) + (if input.Null? then [] else input.data)
    {
      hide Stripe, Init, Add, Consumed, Stripes.Fold, Stripes.Rest;
      if input.Null? {
        assert bytes == bytes + [];
        return Stripes.ERROR;
      }
      var data := input.data;
      var len := |data|;
      code := Stripes.OK;
      var p := 0;
      ghost var held := mem[..memsize];
      MoreInput(seed, bytes, data);
      totalLen := Add(W64, totalLen, len);
      TotalAppend(|bytes|, len);
      bytes := bytes + data;
      assert Owes(held + data);
      if memsize + len < 32 {
        Memcpy(memsize, data);
        memsize := memsize + len;
        assert mem[..memsize] == held + data;
        NoStripe(Lanes(v1, v2, v3, v4), held + data);
        return;
      }
      if memsize > 0 {
        p := FinishStripe(cpu, data);
      } else {
        assert held + data == data[p..];
      }
      Absorb(cpu, data, p);
    }

    /** XXH64_digest. The only totals for which the running count misleads the test against 32 are
        those that have wrapped around to less than a stripe. */
    method Digest(cpu: Endianess) returns (h: nat)
      requires Valid()
      ensures h == DigestOf(seed, bytes)
      ensures |bytes| < 32 || |bytes| % W64.Modulus() >= 32 ==> h == Hash(seed, bytes)
    {
      hide Add, Converge, Avalanche, Tail, Stripe, Stripes.Fold;
      if totalLen >= 32 {
        h := Converge(Lanes(v1, v2, v3, v4));
      } else {
        h := Add(W64, v3, PRIME64_5);
      }
      AddTotal(h, |bytes|);
      h := Add(W64, h, totalLen);
      Stripes.RestLength(32, bytes);
      TotalRemainder(|bytes|);
      h := Finalize(cpu, h, mem[..memsize], totalLen);
      DigestIsHash(seed, bytes);
    }
  }

  /** The accumulators and the remainder are all that more input needs. */
  lemma MoreInput(seed: nat, bytes: seq<byte>, data: seq<byte>)
    ensures Stripes.Fold(Stripe, 32, Consumed(seed, bytes), Stripes.Rest(32, bytes) + data)
         == Consumed(seed, bytes + data)
    ensures Stripes.Rest(32, Stripes.Rest(32, bytes) + data) == Stripes.Rest(32, bytes + data)
  {
    hide Stripe, Init, Stripes.Fold;
    Stripes.FoldAppend(Stripe, 32, Init(seed), bytes, data);
  }

  lemma NoStripe(acc: Lanes, s: seq<byte>)
    requires |s| < 32
    ensures Stripes.Fold(Stripe, 32, acc, s) == acc && Stripes.Rest(32, s) == s
  {}

  /** The simple version of XXH64 (src/xxhash.c:857-862), fed any list of pieces: after every piece the
      digest is the one-shot digest of the bytes so far. */
  method DigestPieces(cpu: Endianess, pieces: seq<seq<byte>>, seed: nat) returns (digests: seq<nat>)
    requires seed < W64.Modulus()
    requires |Stripes.Concat(pieces)| < W64.Modulus()
    ensures |digests| == |pieces|
    ensures forall k :: 0 <= k < |pieces| ==> digests[k] == Hash(seed, Stripes.Concat(pieces[..k + 1]))
  {
    hide Hash, Add, DigestOf, Consumed, Stripes.Rest;
    var state := new State(seed);
    digests := [];
    for i := 0 to |pieces|
      invariant state.Valid() && fresh(state) && fresh(state.mem) && state.seed == seed
      invariant state.bytes == Stripes.Concat(pieces[..i])
      invariant |digests| == i
      invariant forall k :: 0 <= k < i ==> digests[k] == Hash(seed, Stripes.Concat(pieces[..k + 1]))
    {
      Stripes.ConcatPrefix(pieces, i);
      Stripes.RestShorter(32, state.bytes);
      var _ := state.Update(cpu, Stripes.Bytes(pieces[i]));
      var h := state.Digest(cpu);
      Words.DivUnique(|state.bytes|, W64.Modulus(), 0, |state.bytes|);
      digests := digests + [h];
    }
  }

  lemma AddZero(seed: nat)
    requires seed < W64.Modulus()
    ensures Add(W64, seed, 0) == seed
  {}

  lemma TotalRemainder(n: nat)
    ensures n % W64.Modulus() % 32 == n % 32
    ensures n < W64.Modulus() ==> n % W64.Modulus() == n
  {
    var m := W64.Modulus();
    assert n == n / m * m + n % m;
  }

  lemma AddTotal(h: nat, n: nat)
    ensures Add(W64, h, n % W64.Modulus()) == Add(W64, h, n)
  {
    var m := W64.Modulus();
    assert n == n / m * m + n % m;
  }

  lemma TotalAppend(n: nat, len: nat)
    ensures Add(W64, n % W64.Modulus(), len) == (n + len) % W64.Modulus()
  {}
}
