/** An open file as its stream sees it (src/file.c:155-195): its bytes, written or not, and the length cached
    in its descriptor. */
module FileView {
  import opened Memory
  import opened Wrappers

  const FILE_BUFFER_SIZE: nat := 1146880

  function Max(a: int, b: int): int {
    if a > b then a else b
  }

  function Min(a: int, b: int): int {
    if a < b then a else b
  }

  /** Byte j of a file that reads as zero past its end. */
  function At(data: seq<byte>, j: nat): byte {
    if j < |data| then data[j] else 0
  }

  /** What is read of `size` bytes at an offset: fewer at the end of the file, none past it. */
  function Window(data: seq<byte>, offset: nat, size: nat): seq<byte> {
    data[Min(offset, |data|)..Min(offset + size, |data|)]
  }

  /** What of that reaches the buffer when the stream has an error after some bytes. */
  function Got(data: seq<byte>, offset: nat, size: nat, error: Option<nat>): seq<byte> {
    var all := Window(data, offset, size);
    if error.Some? then all[..Min(error.value, |all|)] else all
  }

  function Zeros(n: nat): (s: seq<byte>)
    ensures |s| == n
  {
    seq(n, _ => 0)
  }

  /** The file after `buf` is written at an offset; a gap before the offset is filled with zeros. */
  function Written(data: seq<byte>, buf: seq<byte>, offset: nat): seq<byte> {
    if buf == [] then data
    else data[..Min(offset, |data|)] + Zeros(Max(offset - |data|, 0)) + buf + data[Min(offset + |buf|, |data|)..]
  }

  /** A write changes its own bytes and, read with zeros past the end, nothing else. */
  lemma WrittenAt(data: seq<byte>, buf: seq<byte>, offset: nat, j: nat)
    ensures At(Written(data, buf, offset), j)
         == if offset <= j < offset + |buf| then buf[j - offset] else At(data, j)
    ensures buf != [] ==> |Written(data, buf, offset)| == Max(|data|, offset + |buf|)
  {}

  /** How a write turns out: done, or failed at the seek, or after n of its bytes. */
  datatype Fate = Done | SeekFails | Breaks(n: nat)

  /** struct desc_table, as far as reading and writing go. */
  class Desc {
    var data: seq<byte>
    var length: nat

    /** The cached length never falls short of the file. It exceeds the file when an existing file
        was truncated as it was opened. */
    ghost predicate Valid()
      reads this
    {
      |data| <= length
    }

    constructor (data: seq<byte>, length: nat)
      ensures this.data == data && this.length == length
    {
      this.data, this.length := data, length;
    }

    /** The bytes that reach the buffer, and their number; where the stream has an error after some bytes,
        the number is 0 nevertheless. */
    method ReadFrom(size: nat, offset: nat, error: Option<nat>) returns (r: nat, buf: seq<byte>)
      ensures buf == Got(data, offset, size, error)
      ensures |buf| == Min(if error.Some? then error.value else size, Max(Min(size, |data| - offset), 0))
      ensures forall j :: 0 <= j < |buf| ==> buf[j] == data[offset + j]
      ensures r == if error.Some? then 0 else |buf|
    {
      var from := Min(offset, |data|);
      buf := data[from..Min(offset + size, |data|)];
      if error.Some? {
        buf := buf[..Min(error.value, |buf|)];
      }
      r := if error.Some? then 0 else |buf|;
    }

    /** A write that fails returns 0 and leaves the length as it was, although some of its bytes may have
        reached the file. */
    method WriteTo(buf: seq<byte>, offset: nat, fate: Fate := Done) returns (r: nat)
      modifies this
      ensures fate.Done? ==>
                && data == Written(old(data), buf, offset) && length == Max(old(length), offset + |buf|)
                && r == |buf| && (old(Valid()) ==> Valid())
      ensures fate.SeekFails? ==> r == 0 && data == old(data) && length == old(length)
      ensures fate.Breaks? ==>
                r == 0 && data == Written(old(data), buf[..Min(fate.n, |buf|)], offset) && length == old(length)
    {
      if fate.SeekFails? {
        return 0;
      }
      Put(if fate.Breaks? then buf[..Min(fate.n, |buf|)] else buf, offset);
      if fate.Breaks? {
        return 0;
      }
      var tell := offset + |buf|;
      if tell > length {
        length := tell;
      }
      r := |buf|;
    }

    /** fwrite after the seek. */
    method Put(buf: seq<byte>, offset: nat)
      modifies this`data
      ensures data == Written(old(data), buf, offset)
    {
      if |buf| > 0 {
        if offset > |data| {
          data := data + Zeros(offset - |data|);
        }
        data := data[..offset] + buf + data[Min(offset + |buf|, |data|)..];
      }
    }
  }
}
