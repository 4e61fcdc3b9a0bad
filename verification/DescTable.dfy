/** The table of open files as src/file.c updates it: the loops and branches of get_avalible_slot,
    open_file, prepare_file and release_desc do what TableSpec says. */
module DescTable {
  import opened Memory
  import opened TableSpec
  import opened Wrappers
  import Keys
  import Xxh64

  class FileTable {
    var descs: seq<Slot>
    var xxtable: map<nat, nat>
    var idx: nat
    var streams: seq<nat>

    ghost function State(): Table
      reads this
    {
      Table(descs, xxtable, idx, streams)
    }

    ghost predicate Valid()
      reads this
    {
      Unlinked(State())
    }

    /** init_file */
    constructor (size: nat := DESC_TABLE_SIZE)
      ensures Valid() && State() == Initial(size)
    {
      descs := seq(size, _ => FREE);
      xxtable := map[];
      idx, streams := 0, [];
    }

    /** get_avalible_slot: the slot, or -1. It leaves idx at a free slot it found, and otherwise at 0. */
    method GetAvailableSlot(clock: nat) returns (slot: int)
      requires Valid()
      modifies this
      ensures Valid() && |descs| == old(|descs|)
      ensures (State(), slot != -1) == Room(old(State()), clock)
      ensures slot != -1 ==> 0 <= slot < |descs| && descs[slot].hash == 0
    {
      hide Bucket;
      var lowest: int, tmp: nat := -1, clock;
      ghost var t := State();
      while idx < |descs|
        invariant idx <= |descs| && descs == t.descs && xxtable == t.xxtable && streams == t.streams
        invariant FirstFree(descs, idx) == FirstFree(t.descs, t.idx)
        invariant -1 <= lowest < |descs|
        invariant Victim(descs, idx, tmp, if lowest == -1 then None else Some(lowest))
               == Victim(t.descs, t.idx, clock, None)
      {
        if descs[idx].hash == 0 {
          return idx;
        }
        if descs[idx].refs == 0 && tmp > descs[idx].lastAccess {
          tmp := descs[idx].lastAccess;
          lowest := idx;
        }
        idx := idx + 1;
      }
      idx := 0;
      if lowest == -1 {
        return -1;
      }
      Evict(lowest);
      return lowest;
    }

    /** The slot is taken out of its bucket, closed and cleared. */
    method Evict(lowest: nat)
      requires Valid() && lowest < |descs|
      modifies this`descs, this`xxtable
      ensures Valid() && State() == Evicted(old(State()), lowest)
    {
      var id := descs[lowest].hash % DESC_HASH_TABLE_SIZE;
      assert id == Bucket(descs[lowest].hash);
      hide Bucket;
      if descs[lowest].prev == None {
        if descs[lowest].next == None {
          xxtable := xxtable - {id};
        } else {
          assert false;
        }
      } else {
        assert false;
      }
      descs := descs[lowest := FREE];
    }

    /** open_file: the slot, or an error code. It works on the slot at idx, not on the one it was given, and
        leaves that without a stream when fopen fails. */
    method OpenFile(hash: nat, mode: nat, disk: Disk, clock: nat) returns (r: int)
      requires Valid()
      modifies this
      ensures Valid() && |descs| == old(|descs|)
      ensures var (u, ok) := Room(old(State()), clock);
              var len := OpenLength(mode, disk);
              if !ok then r == -1 && State() == u
              else if len < 0 then r == len && State() == if FopenFails(mode, disk) then NoStream(u) else u
              else && r == idx == u.idx < |u.descs| && xxtable == u.xxtable && streams == u.streams + [hash]
                   && descs == u.descs[u.idx := u.descs[u.idx].(length := len, fd := Some(|u.streams|))]
    {
      hide Room, Victim, FirstFree;
      var slot := GetAvailableSlot(clock);
      if slot == -1 {
        return -1;
      }
      if !disk.pathOk {
        return -1;
      }
      match disk.stat {
        case Regular(size) =>
          var stream := Fopen(hash, disk.fopenOk);
          if !stream {
            return -1;
          }
          descs := descs[idx := descs[idx].(length := size)];
        case Absent =>
          if mode == 1 {
            return -2;
          }
          var stream := Fopen(hash, disk.fopenOk);
          if !stream {
            return -1;
          }
          descs := descs[idx := descs[idx].(length := 0)];
      }
      return idx;
    }

    /** descs[idx].fd.glibc = fopen(...) */
    method Fopen(hash: nat, ok: bool) returns (r: bool)
      requires idx < |descs|
      modifies this`descs, this`streams
      ensures r == ok
      ensures streams == if ok then old(streams) + [hash] else old(streams)
      ensures descs == old(descs)[idx := old(descs)[idx].(fd := if ok then Some(|old(streams)|) else None)]
    {
      if ok {
        descs := descs[idx := descs[idx].(fd := Some(|streams|))];
        streams := streams + [hash];
      } else {
        descs := descs[idx := descs[idx].(fd := None)];
      }
      return ok;
    }

    /** The walk along a bucket. */
    method Walk(hash: nat) returns (found: Option<nat>, depth: nat)
      requires LinksForward(descs) && (Head(State(), hash).Some? ==> Head(State(), hash).value < |descs|)
      ensures (found, depth) == Walked(descs, Head(State(), hash), hash, 0)
    {
      var id := hash % DESC_HASH_TABLE_SIZE;
      var tmp := if id in xxtable then Some(xxtable[id]) else None;
      depth := 0;
      while tmp.Some?
        invariant tmp.Some? ==> tmp.value < |descs|
        invariant Walked(descs, tmp, hash, depth) == Walked(descs, Head(State(), hash), hash, 0)
        decreases if tmp.Some? then |descs| - tmp.value else 0
      {
        var slot := descs[tmp.value];
        if slot.hash == hash {
          return tmp, depth;
        } else if slot.next.Some? {
          depth := depth + 1;
          tmp := slot.next;
        } else {
          break;
        }
      }
      return None, depth;
    }

    /** prepare_file: 0 and the slot of the key, or an error code. */
    method PrepareFile(cpu: Endianess, key: seq<byte>, mode: nat, disk: Disk, clock: nat, now: nat)
      returns (ret: int, slot: nat)
      requires Valid()
      modifies this
      ensures var e := Prepare(Keys.KeyHash(key), mode, disk, clock, now);
              && Valid() && State() == Step(old(State()), e)
              && (var o := Outcome(old(State()), e);
                  if o >= 0 then ret == 0 && slot == o else ret == o)
    {
      hide Step, Outcome, Unlinked, Xxh64.Hash;
      var hash := Xxh64.OneShot(cpu, CString(key), 0);
      ret, slot := PrepareHash(hash, mode, disk, clock, now);
    }

    /** prepare_file, once the key has been hashed. */
    method PrepareHash(hash: nat, mode: nat, disk: Disk, clock: nat, now: nat) returns (ret: int, slot: nat)
      requires Valid()
      modifies this
      ensures var e := Prepare(hash, mode, disk, clock, now);
              && Valid() && State() == Step(old(State()), e)
              && (var o := Outcome(old(State()), e);
                  if o >= 0 then ret == 0 && slot == o else ret == o)
    {
      hide Room, Victim, FirstFree, Walked, LinksForward, Bucket;
      StepUnlinked(State(), Prepare(hash, mode, disk, clock, now));
      BucketsAreShort(State(), hash);
      var found, depth := Walk(hash);
      if found.Some? {
        slot := found.value;
        var s := descs[slot];
        descs := descs[slot := s.(refs := s.refs + 1, accessTimes := s.accessTimes + 1, lastAccess := now)];
        return 0, slot;
      }
      var r := OpenFile(hash, mode, disk, clock);
      if r < 0 {
        return r, 0;
      }
      slot := r;
      descs := descs[slot := descs[slot].(hash := hash, lastAccess := now, accessTimes := 1, refs := 1)];
      ghost var u := Room(old(State()), clock).0;
      ghost var length, fd := OpenLength(mode, disk), Some(|u.streams|);
      ghost var s := u.descs[slot].(hash := hash, length := length, accessTimes := 1, lastAccess := now, refs := 1,
                                    fd := fd);
      assert descs == u.descs[slot := s];
      if depth > 0 {
        // Linking the slot behind the last one of its bucket is never reached.
        assert false;
      } else {
        Index(hash, slot);
      }
      ret := 0;
    }

    method Index(hash: nat, slot: nat)
      modifies this`xxtable
      ensures xxtable == old(xxtable)[Bucket(hash) := slot]
    {
      xxtable := xxtable[hash % DESC_HASH_TABLE_SIZE := slot];
    }

    /** release_desc */
    method ReleaseDesc(slot: nat)
      requires Valid() && slot < |descs|
      modifies this`descs
      ensures Valid() && State() == Step(old(State()), Release(slot))
    {
      descs := descs[slot := descs[slot].(refs := descs[slot].refs - 1)];
    }
  }
}
