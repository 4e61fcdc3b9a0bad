/** The table of open files (src/file.c:16-77, 102-153, 197-255, 277-283): slots filled in order, an index
    from hash buckets to slots, and the eviction of a slot when none is free. */
module TableSpec {
  import opened Wrappers

  const DESC_TABLE_SIZE: nat := 8192
  const DESC_HASH_TABLE_SIZE: nat := 65537

  /** struct desc_table; a slot is free when its hash is 0. next and prev are slots, and fd is a stream. */
  datatype Slot = Slot(hash: nat, length: nat, accessTimes: nat, lastAccess: nat, refs: int,
                       next: Option<nat>, prev: Option<nat>, fd: Option<nat>)

  const FREE := Slot(0, 0, 0, 0, 0, None, None, None)

  /** descs[], XXTABLE[] (from the bucket to the slot at its head), the static idx, and the streams that
      fopen has yielded so far, with the hashes of their files. */
  datatype Table = Table(descs: seq<Slot>, xxtable: map<nat, nat>, idx: nat, streams: seq<nat>)

  /** What the file system has under the path of a hash. */
  datatype Stat = Absent | Regular(size: nat)

  /** How gen_path, stat and fopen turn out. */
  datatype Disk = Disk(pathOk: bool, stat: Stat, fopenOk: bool)

  function Bucket(hash: nat): nat {
    hash % DESC_HASH_TABLE_SIZE
  }

  /** The first free slot from idx on; the size of the table if there is none. */
  function FirstFree(descs: seq<Slot>, idx: nat): (i: nat)
    requires idx <= |descs|
    ensures idx <= i <= |descs|
    ensures i < |descs| ==> descs[i].hash == 0
    ensures forall k :: idx <= k < i ==> descs[k].hash != 0
    decreases |descs| - idx
  {
    if idx == |descs| || descs[idx].hash == 0 then idx else FirstFree(descs, idx + 1)
  }

  /** The slot that is evicted when none is free: of those from i on that nobody refers to, the one accessed
      least recently before `clock`, and the first of several. */
  function Victim(descs: seq<Slot>, i: nat, clock: nat, lowest: Option<nat>): Option<nat>
    requires i <= |descs|
    decreases |descs| - i
  {
    if i == |descs| then lowest
    else if descs[i].refs == 0 && clock > descs[i].lastAccess then
      Victim(descs, i + 1, descs[i].lastAccess, Some(i))
    else Victim(descs, i + 1, clock, lowest)
  }

  /** The length open_file caches, or its error code. Mode 0 opens or creates, mode 1 only opens, mode 2
      truncates; a truncated file keeps the size it had before. */
  function OpenLength(mode: nat, disk: Disk): (r: int)
    ensures r >= -2
  {
    if !disk.pathOk then -1
    else
      match disk.stat
      case Regular(size) => if disk.fopenOk then size else -1
      case Absent => if mode == 1 then -2 else if disk.fopenOk then 0 else -1
  }

  /** fopen is called and fails. */
  predicate FopenFails(mode: nat, disk: Disk) {
    disk.pathOk && !disk.fopenOk && (disk.stat.Regular? || mode != 1)
  }

  /** The size of the file once it is open. */
  function OpenSize(mode: nat, disk: Disk): nat {
    if disk.stat.Regular? && mode != 2 then disk.stat.size else 0
  }

  /** The cached length is the size of the file exactly unless a non-empty file was truncated. */
  lemma LengthIsSize(mode: nat, disk: Disk)
    requires mode <= 2 && OpenLength(mode, disk) >= 0
    ensures OpenLength(mode, disk) == OpenSize(mode, disk)
       <==> !(mode == 2 && disk.stat.Regular? && disk.stat.size > 0)
  {}

  /** The slot a lookup finds, when no slot is linked to another. */
  function Lookup(t: Table, hash: nat): Option<nat> {
    if Bucket(hash) in t.xxtable && t.xxtable[Bucket(hash)] < |t.descs| && t.descs[t.xxtable[Bucket(hash)]].hash == hash
    then Some(t.xxtable[Bucket(hash)])
    else None
  }

  /** A prepare that finds the hash takes another reference, whatever its mode. */
  function Hit(t: Table, k: nat, now: nat): Table
    requires k < |t.descs|
  {
    var s := t.descs[k];
    t.(descs := t.descs[k := s.(refs := s.refs + 1, accessTimes := s.accessTimes + 1, lastAccess := now)])
  }

  /** Closing the file of a slot that is linked to no other empties its bucket. */
  function Evicted(t: Table, v: nat): Table
    requires v < |t.descs|
  {
    t.(descs := t.descs[v := FREE], xxtable := t.xxtable - {Bucket(t.descs[v].hash)})
  }

  /** get_avalible_slot: the table afterwards, and whether there is a slot. When it had to evict, idx is
      not the slot that became free but 0. */
  function Room(t: Table, clock: nat): (r: (Table, bool))
    requires t.idx <= |t.descs|
    ensures |r.0.descs| == |t.descs| && r.0.idx <= |t.descs|
    ensures r.1 ==> r.0.idx < |t.descs|
  {
    var free := FirstFree(t.descs, t.idx);
    if free < |t.descs| then (t.(idx := free), true)
    else
      VictimInRange(t.descs, t.idx, clock, None);
      match Victim(t.descs, t.idx, clock, None)
      case None => (t.(idx := 0), false)
      case Some(v) => (Evicted(t, v).(idx := 0), true)
  }

  lemma {:induction false} VictimInRange(descs: seq<Slot>, i: nat, clock: nat, lowest: Option<nat>)
    requires i <= |descs| && (lowest.Some? ==> lowest.value < i)
    ensures Victim(descs, i, clock, lowest).Some? ==> Victim(descs, i, clock, lowest).value < |descs|
    ensures lowest.Some? ==> Victim(descs, i, clock, lowest).Some?
    decreases |descs| - i
  {
    if i == |descs| {
    } else if descs[i].refs == 0 && clock > descs[i].lastAccess {
      VictimInRange(descs, i + 1, descs[i].lastAccess, Some(i));
    } else {
      VictimInRange(descs, i + 1, clock, lowest);
    }
  }

  /** A prepare that opens a file puts it in the slot at idx and at the head of its bucket, replacing
      whatever was in either. */
  function Miss(t: Table, hash: nat, length: nat, now: nat): Table
    requires t.idx < |t.descs|
  {
    var s := t.descs[t.idx].(hash := hash, length := length, accessTimes := 1, lastAccess := now, refs := 1,
                             fd := Some(|t.streams|));
    t.(descs := t.descs[t.idx := s], xxtable := t.xxtable[Bucket(hash) := t.idx], streams := t.streams + [hash])
  }

  /** The slot at idx has lost its stream to an fopen that failed. */
  function NoStream(t: Table): Table
    requires t.idx < |t.descs|
  {
    t.(descs := t.descs[t.idx := t.descs[t.idx].(fd := None)])
  }

  /** A prepare reads the clock when it looks for a slot and when it notes the access. */
  datatype Event = Prepare(hash: nat, mode: nat, disk: Disk, clock: nat, now: nat) | Release(slot: nat)

  /** The slot a prepare yields, or its error code. */
  function Outcome(t: Table, e: Event): int
    requires e.Prepare? && t.idx <= |t.descs|
  {
    match Lookup(t, e.hash)
    case Some(k) => k
    case None =>
      var (u, ok) := Room(t, e.clock);
      var r := OpenLength(e.mode, e.disk);
      if !ok then -1 else if r < 0 then r else u.idx
  }

  predicate Enabled(t: Table, e: Event) {
    t.idx <= |t.descs| && (e.Release? ==> e.slot < |t.descs|)
  }

  function Step(t: Table, e: Event): Table
    requires Enabled(t, e)
  {
    match e
    case Prepare(hash, mode, disk, clock, now) =>
      (match Lookup(t, hash)
       case Some(k) => Hit(t, k, now)
       case None =>
         var (u, ok) := Room(t, clock);
         var r := OpenLength(mode, disk);
         if !ok then u
         else if r >= 0 then Miss(u, hash, r, now)
         else if FopenFails(mode, disk) then NoStream(u) else u)
    case Release(slot) =>
      var s := t.descs[slot];
      t.(descs := t.descs[slot := s.(refs := s.refs - 1)])
  }

  /** The hash is not 0, no slot has to be evicted, and descriptors are released by who holds them. */
  predicate Ordinary(t: Table, e: Event)
    requires Enabled(t, e)
  {
    match e
    case Prepare(hash, _, _, _, _) => hash != 0 && (Lookup(t, hash).None? ==> FirstFree(t.descs, t.idx) < |t.descs|)
    case Release(slot) => t.descs[slot].refs > 0
  }

  /** init_file */
  function Initial(size: nat): Table {
    Table(seq(size, _ => FREE), map[], 0, [])
  }

  // ---------- What every run keeps ----------

  /** No slot is linked to another. */
  ghost predicate Unlinked(t: Table) {
    && t.idx <= |t.descs|
    && (forall k :: 0 <= k < |t.descs| ==> t.descs[k].next == None && t.descs[k].prev == None)
    && (forall b :: b in t.xxtable ==> t.xxtable[b] < |t.descs|)
  }

  /** Nothing ever links slots, with evictions and any hashes, so buckets never become chains. */
  lemma StepUnlinked(t: Table, e: Event)
    requires Unlinked(t) && Enabled(t, e)
    ensures Unlinked(Step(t, e)) && |Step(t, e).descs| == |t.descs|
  {
    hide Bucket, Victim, FirstFree;
    if e.Prepare? {
      VictimInRange(t.descs, t.idx, e.clock, None);
    }
  }

  /** n slots are in use, without gaps, and every bucket in use has its latest slot at its head. */
  ghost predicate Inv(t: Table, n: nat) {
    && n <= |t.descs| && t.idx <= n <= t.idx + 1
    && (forall k :: 0 <= k < n ==> t.descs[k].hash != 0)
    && (forall k :: n <= k < |t.descs| ==> t.descs[k] == FREE)
    && (forall k :: 0 <= k < |t.descs| ==> t.descs[k].next == None && t.descs[k].prev == None)
    && (forall b :: b in t.xxtable ==> t.xxtable[b] < n && Bucket(t.descs[t.xxtable[b]].hash) == b)
    && (forall k :: 0 <= k < n ==>
          Bucket(t.descs[k].hash) in t.xxtable && k <= t.xxtable[Bucket(t.descs[k].hash)])
  }

  ghost function Used(t: Table, e: Event, n: nat): nat {
    if e.Prepare? && Lookup(t, e.hash).None? && OpenLength(e.mode, e.disk) >= 0 then n + 1 else n
  }

  /** As long as no slot is evicted and no hash is 0. */
  lemma StepKeeps(t: Table, e: Event, n: nat)
    requires Inv(t, n) && Enabled(t, e) && Ordinary(t, e)
    ensures Inv(Step(t, e), Used(t, e, n))
  {
    hide Inv, Bucket, Victim, FirstFree, Lookup;
    match e
    case Prepare(hash, mode, disk, clock, now) =>
      InUse(t, n, hash);
      if Lookup(t, hash).None? {
        assert Room(t, clock) == (t.(idx := n), true);
        if OpenLength(mode, disk) >= 0 {
          MissKeeps(t, hash, OpenLength(mode, disk), now, n);
        } else {
          FailKeeps(t, n);
        }
      } else {
        var k := Lookup(t, hash).value;
        var s := t.descs[k];
        SlotKeeps(t, k, s.(refs := s.refs + 1, accessTimes := s.accessTimes + 1, lastAccess := now), n);
      }
    case Release(k) =>
      InUse(t, n, 0);
      SlotKeeps(t, k, t.descs[k].(refs := t.descs[k].refs - 1), n);
  }

  /** The first free slot is the n-th; slots that are found or referred to are before it. */
  lemma InUse(t: Table, n: nat, hash: nat)
    requires Inv(t, n)
    ensures t.idx <= |t.descs| && FirstFree(t.descs, t.idx) == n <= |t.descs|
    ensures Lookup(t, hash).Some? ==> Lookup(t, hash).value < n
    ensures forall k :: 0 <= k < |t.descs| ==> t.descs[k].next == t.descs[k].prev == None
    ensures forall k :: 0 <= k < |t.descs| && t.descs[k].refs > 0 ==> k < n
  {
    hide Bucket;
  }

  lemma FailKeeps(t: Table, n: nat)
    requires Inv(t, n) && n < |t.descs|
    ensures Inv(t.(idx := n), n) && Inv(NoStream(t.(idx := n)), n)
  {
    hide Bucket;
    assert FREE.(fd := None) == FREE;
  }

  /** A slot in use may change everything but its hash and its links. */
  lemma SlotKeeps(t: Table, k: nat, s: Slot, n: nat)
    requires Inv(t, n) && k < n
    requires s.hash == t.descs[k].hash && s.next == s.prev == None
    ensures Inv(t.(descs := t.descs[k := s]), n)
  {
    hide Bucket;
  }

  lemma MissKeeps(t: Table, hash: nat, length: nat, now: nat, n: nat)
    requires Inv(t, n) && n < |t.descs| && hash != 0
    ensures Inv(Miss(t.(idx := n), hash, length, now), n + 1)
  {
    hide Bucket;
  }

  // ---------- Walking a bucket ----------

  /** A slot is only ever linked to a later one. */
  ghost predicate LinksForward(descs: seq<Slot>) {
    forall k :: 0 <= k < |descs| && descs[k].next.Some? ==> k < descs[k].next.value < |descs|
  }

  function Head(t: Table, hash: nat): Option<nat> {
    if Bucket(hash) in t.xxtable then Some(t.xxtable[Bucket(hash)]) else None
  }

  /** The slot with the hash at or behind a slot, and the number of links followed. */
  ghost function Walked(descs: seq<Slot>, at: Option<nat>, hash: nat, depth: nat): (Option<nat>, nat)
    requires LinksForward(descs) && (at.Some? ==> at.value < |descs|)
    decreases if at.Some? then |descs| - at.value else 0
  {
    if at.None? then (None, depth)
    else if descs[at.value].hash == hash then (at, depth)
    else if descs[at.value].next.Some? then Walked(descs, descs[at.value].next, hash, depth + 1)
    else (None, depth)
  }

  /** In every reachable table a bucket is a single slot, so no walk follows a link. */
  lemma BucketsAreShort(t: Table, hash: nat)
    requires Unlinked(t)
    ensures LinksForward(t.descs)
    ensures Head(t, hash).Some? ==> Head(t, hash).value < |t.descs|
    ensures Walked(t.descs, Head(t, hash), hash, 0) == (Lookup(t, hash), 0)
  {
    hide Bucket;
  }

  // ---------- When lookups are right ----------

  /** A prepare of the slot's hash finds this slot. */
  predicate Findable(t: Table, k: nat)
    requires k < |t.descs|
  {
    Lookup(t, t.descs[k].hash) == Some(k)
  }

  ghost predicate AllFindable(t: Table, n: nat)
    requires n <= |t.descs|
  {
    forall k :: 0 <= k < n ==> Findable(t, k)
  }

  ghost predicate BucketsDistinct(t: Table, n: nat)
    requires n <= |t.descs|
  {
    forall i, j :: 0 <= i < j < n ==> Bucket(t.descs[i].hash) != Bucket(t.descs[j].hash)
  }

  /** Every open file can be found exactly when no two slots share a bucket. */
  lemma FindableExactly(t: Table, n: nat)
    requires Inv(t, n)
    ensures AllFindable(t, n) <==> BucketsDistinct(t, n)
  {
    hide Bucket;
    if AllFindable(t, n) {
      forall i, j | 0 <= i < j < n
        ensures Bucket(t.descs[i].hash) != Bucket(t.descs[j].hash)
      {
        assert Findable(t, i) && Findable(t, j);
      }
    }
    if BucketsDistinct(t, n) {
      forall k | 0 <= k < n
        ensures Findable(t, k)
      {
        var head := t.xxtable[Bucket(t.descs[k].hash)];
        assert k <= head < n && Bucket(t.descs[head].hash) == Bucket(t.descs[k].hash);
      }
    }
  }

  // ---------- Whole runs ----------

  predicate AllEnabled(t: Table, events: seq<Event>)
    decreases |events|
  {
    events != [] ==> Enabled(t, events[0]) && AllEnabled(Step(t, events[0]), events[1..])
  }

  /** No hash is 0 and no slot is evicted in the whole run. */
  predicate AllOrdinary(t: Table, events: seq<Event>)
    requires AllEnabled(t, events)
    decreases |events|
  {
    events != [] ==> Ordinary(t, events[0]) && AllOrdinary(Step(t, events[0]), events[1..])
  }

  function After(t: Table, events: seq<Event>): Table
    requires AllEnabled(t, events)
    decreases |events|
  {
    if events == [] then t else After(Step(t, events[0]), events[1..])
  }

  /** The number of slots in use after a run. */
  ghost function UsedAfter(t: Table, events: seq<Event>, n: nat): nat
    requires AllEnabled(t, events)
    decreases |events|
  {
    if events == [] then n else UsedAfter(Step(t, events[0]), events[1..], Used(t, events[0], n))
  }

  predicate Opens(t: Table, e: Event) {
    e.Prepare? && t.idx <= |t.descs| && Outcome(t, e) >= 0
  }

  /** The hashes that prepares of a run opened or found. */
  ghost function Opened(t: Table, events: seq<Event>): set<nat>
    requires AllEnabled(t, events)
    decreases |events|
  {
    if events == [] then {}
    else (if Opens(t, events[0]) then {events[0].hash} else {}) + Opened(Step(t, events[0]), events[1..])
  }

  ghost predicate NoCollisions(hashes: set<nat>) {
    forall g, h :: g in hashes && h in hashes && g != h ==> Bucket(g) != Bucket(h)
  }

  ghost function HashesIn(t: Table, n: nat): set<nat>
    requires n <= |t.descs|
  {
    set k | 0 <= k < n :: t.descs[k].hash
  }

  lemma {:induction false} RunKeeps(t: Table, events: seq<Event>, n: nat)
    requires Inv(t, n) && AllEnabled(t, events) && AllOrdinary(t, events)
    ensures Inv(After(t, events), UsedAfter(t, events, n))
    decreases |events|
  {
    hide Step, Inv, Enabled, Ordinary, Used;
    if events == [] {
    } else {
      StepKeeps(t, events[0], n);
      RunKeeps(Step(t, events[0]), events[1..], Used(t, events[0], n));
    }
  }

  lemma SameHashes(t: Table, u: Table, n: nat)
    requires n <= |t.descs| && n <= |u.descs|
    requires forall k :: 0 <= k < n ==> u.descs[k].hash == t.descs[k].hash
    ensures HashesIn(u, n) == HashesIn(t, n)
  {}

  lemma MoreHashes(t: Table, n: nat)
    requires n < |t.descs|
    ensures HashesIn(t, n + 1) == HashesIn(t, n) + {t.descs[n].hash}
  {}

  /** One event adds to the hashes in the table what it opened. */
  lemma StepHashes(t: Table, e: Event, n: nat)
    requires Inv(t, n) && Enabled(t, e) && Ordinary(t, e)
    ensures Used(t, e, n) <= |Step(t, e).descs|
    ensures HashesIn(Step(t, e), Used(t, e, n)) == HashesIn(t, n) + if Opens(t, e) then {e.hash} else {}
  {
    hide Bucket, HashesIn;
    var u, m := Step(t, e), Used(t, e, n);
    if m == n + 1 {
      assert FirstFree(t.descs, t.idx) == n;
      SameHashes(t, u, n);
      MoreHashes(u, n);
    } else {
      SameHashes(t, u, n);
      if Opens(t, e) {
        InTable(t, n, Lookup(t, e.hash).value);
      }
    }
  }

  lemma InTable(t: Table, n: nat, k: nat)
    requires k < n <= |t.descs|
    ensures t.descs[k].hash in HashesIn(t, n)
  {}

  /** What an event does to the hashes of the slots in use. */
  lemma StepSlots(t: Table, e: Event, n: nat)
    requires Inv(t, n) && Enabled(t, e) && Ordinary(t, e)
    ensures Used(t, e, n) <= |Step(t, e).descs|
    ensures forall k :: 0 <= k < n ==> Step(t, e).descs[k].hash == t.descs[k].hash
    ensures Used(t, e, n) == n + 1 ==>
              e.Prepare? && Step(t, e).descs[n].hash == e.hash && Opens(t, e) && Lookup(t, e.hash) == None
  {
    hide Bucket, Victim;
    if e.Prepare? && Lookup(t, e.hash).None? {
      assert FirstFree(t.descs, t.idx) == n;
      assert Room(t, e.clock) == (t.(idx := n), true);
      hide FirstFree, Room;
    }
  }

  /** Starting without collisions, every slot keeps a bucket of its own while no collision is opened. */
  lemma StepDistinct(t: Table, e: Event, n: nat)
    requires Inv(t, n) && Enabled(t, e) && Ordinary(t, e) && BucketsDistinct(t, n)
    requires NoCollisions(HashesIn(t, n) + if Opens(t, e) then {e.hash} else {})
    ensures Used(t, e, n) <= |Step(t, e).descs|
    ensures BucketsDistinct(Step(t, e), Used(t, e, n))
  {
    StepSlots(t, e, n);
    FindableExactly(t, n);
    hide Bucket, Step, Inv, Enabled, Ordinary, Opens;
    if Used(t, e, n) == n + 1 {
      forall i | 0 <= i < n
        ensures Bucket(t.descs[i].hash) != Bucket(e.hash)
      {
        InTable(t, n, i);
        assert Findable(t, i);
      }
    }
  }

  lemma {:induction false} RunHashes(t: Table, events: seq<Event>, n: nat)
    requires Inv(t, n) && AllEnabled(t, events) && AllOrdinary(t, events)
    ensures UsedAfter(t, events, n) <= |After(t, events).descs|
    ensures HashesIn(After(t, events), UsedAfter(t, events, n)) == HashesIn(t, n) + Opened(t, events)
    decreases |events|
  {
    hide Step, Inv, Enabled, Ordinary, Used, Opens, HashesIn;
    if events != [] {
      StepKeeps(t, events[0], n);
      StepHashes(t, events[0], n);
      RunHashes(Step(t, events[0]), events[1..], Used(t, events[0], n));
    } else {
      InvSize(t, n);
    }
  }

  lemma InvSize(t: Table, n: nat)
    requires Inv(t, n)
    ensures n <= |t.descs|
  {}

  lemma {:induction false} RunDistinct(t: Table, events: seq<Event>, n: nat)
    requires Inv(t, n) && AllEnabled(t, events) && AllOrdinary(t, events)
    requires n <= |t.descs| && BucketsDistinct(t, n) && NoCollisions(HashesIn(t, n) + Opened(t, events))
    ensures UsedAfter(t, events, n) <= |After(t, events).descs|
    ensures BucketsDistinct(After(t, events), UsedAfter(t, events, n))
    decreases |events|
  {
    hide Step, Inv, Enabled, Ordinary, Used, Opens, HashesIn, BucketsDistinct, Bucket;
    if events == [] {
    } else {
      StepKeeps(t, events[0], n);
      StepHashes(t, events[0], n);
      StepDistinct(t, events[0], n);
      RunDistinct(Step(t, events[0]), events[1..], Used(t, events[0], n));
    }
  }

  /** In a run from an empty table, every open file can be found in the end exactly when no two
      different hashes that were opened share a bucket. */
  lemma RunFindableExactly(size: nat, events: seq<Event>)
    requires AllEnabled(Initial(size), events) && AllOrdinary(Initial(size), events)
    ensures var t, n := After(Initial(size), events), UsedAfter(Initial(size), events, 0);
            && Inv(t, n)
            && (AllFindable(t, n) <==> NoCollisions(Opened(Initial(size), events)))
  {
    hide Step, Used, Opens, Bucket, After, UsedAfter, Opened;
    var t0 := Initial(size);
    assert Inv(t0, 0) && HashesIn(t0, 0) == {} && BucketsDistinct(t0, 0);
    RunKeeps(t0, events, 0);
    RunHashes(t0, events, 0);
    var t, n := After(t0, events), UsedAfter(t0, events, 0);
    FindableExactly(t, n);
    var seen := Opened(t0, events);
    assert HashesIn(t, n) == seen;
    if NoCollisions(seen) {
      assert {} + seen == seen;
      RunDistinct(t0, events, 0);
    }
    if BucketsDistinct(t, n) {
      forall g, h | g in seen && h in seen && g != h
        ensures Bucket(g) != Bucket(h)
      {
        var i :| 0 <= i < n && t.descs[i].hash == g;
        var j :| 0 <= j < n && t.descs[j].hash == h;
        if i < j {
          assert Bucket(t.descs[i].hash) != Bucket(t.descs[j].hash);
        } else {
          assert Bucket(t.descs[j].hash) != Bucket(t.descs[i].hash);
        }
      }
    }
  }

  // ---------- Reference counts ----------

  predicate Full(t: Table)
    requires t.idx <= |t.descs|
  {
    FirstFree(t.descs, t.idx) == |t.descs|
  }

  /** What an event adds to the count of slot k by rights. */
  function Change(t: Table, e: Event, k: nat): int
    requires Enabled(t, e)
  {
    match e
    case Prepare(_, _, _, _, _) => if Outcome(t, e) == k then 1 else 0
    case Release(slot) => if slot == k then -1 else 0
  }

  /** Prepares that yielded a slot minus releases of it. */
  ghost function Balance(t: Table, events: seq<Event>, k: nat): int
    requires AllEnabled(t, events)
    decreases |events|
  {
    if events == [] then 0 else Change(t, events[0], k) + Balance(Step(t, events[0]), events[1..], k)
  }

  /** A file is going to be opened into slot k although that slot is referred to: it is not found, it can be
      opened, and k is the first free slot or, when none is free, slot 0 with something to evict. */
  predicate Reuses(t: Table, e: Event, k: nat)
    requires Enabled(t, e) && k < |t.descs|
  {
    && e.Prepare? && Lookup(t, e.hash).None? && OpenLength(e.mode, e.disk) >= 0 && t.descs[k].refs != 0
    && (if Full(t) then k == 0 && Victim(t.descs, t.idx, e.clock, None).Some?
        else k == FirstFree(t.descs, t.idx))
  }

  /** The count of a slot changes as it should if and only if no file is opened over a slot in use. */
  lemma StepRefsExactly(t: Table, e: Event, k: nat)
    requires Unlinked(t) && Enabled(t, e) && k < |t.descs|
    ensures |Step(t, e).descs| == |t.descs|
    ensures Step(t, e).descs[k].refs == t.descs[k].refs + Change(t, e, k) <==> !Reuses(t, e, k)
  {
    hide Bucket, Victim, FirstFree;
    if e.Prepare? && Lookup(t, e.hash).None? {
      VictimInRange(t.descs, t.idx, e.clock, None);
      VictimFree(t.descs, t.idx, e.clock, None);
    }
  }

  /** Only slots that nobody refers to are evicted. */
  lemma {:induction false} VictimFree(descs: seq<Slot>, i: nat, clock: nat, lowest: Option<nat>)
    requires i <= |descs| && (lowest.Some? ==> lowest.value < i && descs[lowest.value].refs == 0)
    ensures var v := Victim(descs, i, clock, lowest);
            v.Some? ==> v.value < |descs| && descs[v.value].refs == 0
    decreases |descs| - i
  {
    if i == |descs| {
    } else if descs[i].refs == 0 && clock > descs[i].lastAccess {
      VictimFree(descs, i + 1, descs[i].lastAccess, Some(i));
    } else {
      VictimFree(descs, i + 1, clock, lowest);
    }
  }

  predicate NeverReuses(t: Table, events: seq<Event>, k: nat)
    requires AllEnabled(t, events)
    decreases |events|
  {
    events != [] ==>
      && k < |t.descs|
      && !Reuses(t, events[0], k)
      && NeverReuses(Step(t, events[0]), events[1..], k)
  }

  /** In every run that opens no file over slot k while it is in use, with evictions and colliding hashes
      or not, the count of the slot is its prepares minus its releases. */
  lemma {:induction false} RefsBalance(t: Table, events: seq<Event>, k: nat)
    requires Unlinked(t) && AllEnabled(t, events) && k < |t.descs| && NeverReuses(t, events, k)
    ensures |After(t, events).descs| == |t.descs|
    ensures After(t, events).descs[k].refs == t.descs[k].refs + Balance(t, events, k)
    decreases |events|
  {
    hide Step, Unlinked, Enabled, Reuses, Change;
    if events == [] {
    } else {
      StepUnlinked(t, events[0]);
      StepRefsExactly(t, events[0], k);
      RefsBalance(Step(t, events[0]), events[1..], k);
    }
  }

  /** Without evictions and hashes of 0 no slot in use is ever opened over. */
  lemma {:induction false} OrdinaryNeverReuses(t: Table, events: seq<Event>, n: nat, k: nat)
    requires Inv(t, n) && AllEnabled(t, events) && AllOrdinary(t, events) && k < |t.descs|
    ensures NeverReuses(t, events, k)
    decreases |events|
  {
    hide Step, Inv, Enabled, Ordinary, Used, Reuses;
    if events == [] {
    } else {
      StepKeeps(t, events[0], n);
      StepOrdinary(t, events[0], n, k);
      OrdinaryNeverReuses(Step(t, events[0]), events[1..], Used(t, events[0], n), k);
    }
  }

  lemma StepOrdinary(t: Table, e: Event, n: nat, k: nat)
    requires Inv(t, n) && Enabled(t, e) && Ordinary(t, e) && k < |t.descs|
    ensures |Step(t, e).descs| == |t.descs| && !Reuses(t, e, k)
  {
    hide Bucket, Victim;
    if e.Prepare? && Lookup(t, e.hash).None? {
      assert FirstFree(t.descs, t.idx) >= n;
    }
  }

  /** A file stays in its slot: once found there it is found there after any run without collisions. */
  lemma {:induction false} SlotStable(t: Table, events: seq<Event>, n: nat, k: nat)
    requires Inv(t, n) && AllEnabled(t, events) && AllOrdinary(t, events) && k < n <= |t.descs| && BucketsDistinct(t, n)
    requires NoCollisions(HashesIn(t, n) + Opened(t, events))
    ensures Lookup(After(t, events), t.descs[k].hash) == Some(k)
    decreases |events|
  {
    hide Bucket, HashesIn, Opens, Opened;
    if events == [] {
      FindableExactly(t, n);
      assert Findable(t, k);
    } else {
      StepKeeps(t, events[0], n);
      StepHashes(t, events[0], n);
      RunOpened(t, events);
      assert HashesIn(t, n) + Opened(t, events)
          == HashesIn(Step(t, events[0]), Used(t, events[0], n)) + Opened(Step(t, events[0]), events[1..]);
      StepDistinct(t, events[0], n);
      StepSlots(t, events[0], n);
      SlotStable(Step(t, events[0]), events[1..], Used(t, events[0], n), k);
    }
  }

  lemma RunOpened(t: Table, events: seq<Event>)
    requires AllEnabled(t, events) && events != []
    ensures Opened(t, events)
         == (if Opens(t, events[0]) then {events[0].hash} else {}) + Opened(Step(t, events[0]), events[1..])
  {}

  // ---------- Where the hypotheses are needed ----------

  /** Two hashes in one bucket: opening the second file hides the first, and when that is asked for again
      it is opened again in a third slot. */
  lemma CollisionExample(g: nat, h: nat, d: Disk, size: nat)
    requires g != h && g != 0 && h != 0 && Bucket(g) == Bucket(h)
    requires d.pathOk && d.fopenOk && size >= 3
    ensures var e, f := Prepare(g, 0, d, 0, 0), Prepare(h, 0, d, 0, 0);
            && AllEnabled(Initial(size), [e, f, e])
            && (var t := After(Initial(size), [e, f, e]);
                && |t.descs| == size && t.descs[0].hash == t.descs[2].hash == g && t.descs[1].hash == h
                && Lookup(t, g) == Some(2) && Lookup(t, h) == None)
  {
    hide Bucket, Victim;
    var e, f := Prepare(g, 0, d, 0, 0), Prepare(h, 0, d, 0, 0);
    var t0 := Initial(size);
    var t1 := Step(t0, e);
    assert t1.descs[0].hash == g && t1.idx == 0 && t1.xxtable == map[Bucket(g) := 0];
    var t2 := Step(t1, f);
    assert FirstFree(t1.descs, 0) == FirstFree(t1.descs, 1) == 1;
    assert t2.descs[0].hash == g && t2.descs[1].hash == h && t2.idx == 1 && t2.xxtable[Bucket(h)] == 1;
    assert FirstFree(t2.descs, 1) == FirstFree(t2.descs, 2) == 2;
    var t3 := Step(t2, e);
    hide Step;
    assert [e, f, e][1..] == [f, e] && [f, e][1..] == [e] && [e][1..] == [];
    assert AllEnabled(t3, []) && After(t3, []) == t3;
    assert AllEnabled(t2, [e]) && After(t2, [e]) == t3;
    assert AllEnabled(t1, [f, e]) && After(t1, [f, e]) == t3;
  }

  /** The slot that a file was opened in is taken for free again if and only if its hash is 0. */
  lemma ZeroHashExactly(t: Table, e: Event)
    requires Unlinked(t) && Enabled(t, e) && e.Prepare? && Lookup(t, e.hash).None? && Outcome(t, e) >= 0
    ensures var u := Step(t, e);
            && u.idx == Outcome(t, e) < |u.descs| && Lookup(u, e.hash) == Some(u.idx)
            && (FirstFree(u.descs, u.idx) == u.idx <==> e.hash == 0)
  {
    hide Bucket, Victim;
    VictimInRange(t.descs, t.idx, e.clock, None);
  }

  /** So the next file that is opened is put over it, and it cannot be found any more. */
  lemma ZeroHashOverwritten(t: Table, e: Event, f: Event)
    requires Unlinked(t) && Enabled(t, e) && e.Prepare? && e.hash == 0
    requires Lookup(t, 0).None? && Outcome(t, e) >= 0
    requires Enabled(Step(t, e), f) && f.Prepare? && f.hash != 0
    requires Lookup(Step(t, e), f.hash).None? && Outcome(Step(t, e), f) >= 0
    ensures Outcome(Step(t, e), f) == Outcome(t, e)
    ensures Lookup(Step(Step(t, e), f), 0).None?
  {
    hide Bucket, Victim;
    ZeroHashExactly(t, e);
    StepUnlinked(t, e);
    ZeroHashExactly(Step(t, e), f);
  }

  /** In a table with a free slot: a file of hash 0 and then another are opened in the same slot. */
  lemma ZeroHashNext(t: Table, d: Disk, hash: nat, clock: nat, now: nat)
    requires Unlinked(t) && !Full(t) && d.pathOk && d.fopenOk && Lookup(t, 0).None? && hash != 0
    ensures var e, f := Prepare(0, 0, d, clock, now), Prepare(hash, 0, d, clock, now);
            && Outcome(t, e) >= 0
            && (var u := Step(t, e);
                && Enabled(u, f)
                && (Lookup(u, hash).None? ==> Outcome(u, f) == Outcome(t, e) && Lookup(Step(u, f), 0).None?))
  {
    hide Bucket, Victim;
    var e, f := Prepare(0, 0, d, clock, now), Prepare(hash, 0, d, clock, now);
    StepUnlinked(t, e);
    ZeroHashExactly(t, e);
    var u := Step(t, e);
    if Lookup(u, hash).None? {
      assert Room(u, clock) == (u, true);
      ZeroHashOverwritten(t, e, f);
    }
  }

  // ---------- When the table is full ----------

  /** The victim is unreferenced, was last accessed before the clock, and no such slot from i on was accessed
      earlier; there is none if and only if there is no such slot. */
  lemma VictimIs(descs: seq<Slot>, i: nat, clock: nat)
    requires i <= |descs|
    ensures match Victim(descs, i, clock, None)
            case None => forall k :: i <= k < |descs| ==> descs[k].refs != 0 || descs[k].lastAccess >= clock
            case Some(v) =>
              && i <= v < |descs| && descs[v].refs == 0 && descs[v].lastAccess < clock
              && (forall k :: i <= k < |descs| && descs[k].refs == 0 ==> descs[k].lastAccess >= descs[v].lastAccess)
  {
    VictimFrom(descs, i, clock, None);
  }

  lemma {:induction false} VictimFrom(descs: seq<Slot>, i: nat, clock: nat, lowest: Option<nat>)
    requires i <= |descs|
    ensures match Victim(descs, i, clock, lowest)
            case None =>
              && lowest == None
              && forall k :: i <= k < |descs| ==> descs[k].refs != 0 || descs[k].lastAccess >= clock
            case Some(v) =>
              && (|| (lowest == Some(v)
                      && forall k :: i <= k < |descs| ==> descs[k].refs != 0 || descs[k].lastAccess >= clock)
                  || (i <= v < |descs| && descs[v].refs == 0 && descs[v].lastAccess < clock
                      && forall k :: i <= k < |descs| && descs[k].refs == 0 ==>
                           descs[k].lastAccess >= descs[v].lastAccess))
    decreases |descs| - i
  {
    if i == |descs| {
    } else if descs[i].refs == 0 && clock > descs[i].lastAccess {
      VictimFrom(descs, i + 1, descs[i].lastAccess, Some(i));
    } else {
      VictimFrom(descs, i + 1, clock, lowest);
    }
  }

  /** A prepare that yields a slot leaves it as accessed at its own time, whether the file was open or not. */
  lemma AccessNoted(t: Table, e: Event)
    requires Unlinked(t) && Enabled(t, e) && e.Prepare? && Outcome(t, e) >= 0
    ensures Outcome(t, e) < |Step(t, e).descs|
    ensures var d := Step(t, e).descs[Outcome(t, e)];
            && d.lastAccess == e.now && d.hash == e.hash && d.refs == match Lookup(t, e.hash)
                                                                      case Some(k) => t.descs[k].refs + 1
                                                                      case None => 1
  {
    hide Bucket, Victim, FirstFree;
    VictimInRange(t.descs, t.idx, e.clock, None);
  }

  /** So a file that has been asked for is not evicted while another one among those looked at is idle and has been
      left alone for longer. */
  lemma RecentlyUsedSpared(t: Table, e: Event, clock: nat, j: nat)
    requires Unlinked(t) && Enabled(t, e) && e.Prepare? && Outcome(t, e) >= 0
    requires var u := Step(t, e);
             && Enabled(u, Release(Outcome(t, e)))
             && j < |u.descs| && u.idx <= j && j != Outcome(t, e) && u.descs[j].refs == 0
             && u.descs[j].lastAccess < e.now
    ensures var u := Step(Step(t, e), Release(Outcome(t, e)));
            u.idx <= |u.descs| && Victim(u.descs, u.idx, clock, None) != Some(Outcome(t, e))
  {
    AccessNoted(t, e);
    StepUnlinked(t, e);
    var k := Outcome(t, e);
    var u := Step(t, e);
    assert u.idx <= |u.descs| && k < |u.descs|;
    hide Outcome, Step, Unlinked, Victim;
    var w := u.(descs := u.descs[k := u.descs[k].(refs := u.descs[k].refs - 1)]);
    assert Step(u, Release(k)) == w by {
      ReleaseIs(u, k);
    }
    assert w.descs[j] == u.descs[j] && w.descs[k].lastAccess == e.now;
    VictimIs(w.descs, w.idx, clock);
  }

  lemma ReleaseIs(t: Table, k: nat)
    requires Enabled(t, Release(k))
    ensures Step(t, Release(k)) == t.(descs := t.descs[k := t.descs[k].(refs := t.descs[k].refs - 1)])
  {}

  /** A search that has found no slot to evict lets the next one look at all of them: the file is then opened if and
      only if some slot is idle, wherever it is. */
  lemma RetryFinds(t: Table, e: Event, f: Event)
    requires Unlinked(t) && Enabled(t, e) && e.Prepare? && f.Prepare? && Lookup(t, e.hash).None?
    requires Full(t) && Victim(t.descs, t.idx, e.clock, None).None?
    requires (forall k :: 0 <= k < |t.descs| ==> t.descs[k].hash != 0) && Lookup(t, f.hash).None?
    requires OpenLength(f.mode, f.disk) >= 0
    ensures var u := Step(t, e);
            && u == t.(idx := 0) && Outcome(t, e) == -1
            && (Outcome(u, f) >= 0
                <==> exists k :: 0 <= k < |t.descs| && t.descs[k].refs == 0 && t.descs[k].lastAccess < f.clock)
  {
    hide Bucket, Victim;
    var u := t.(idx := 0);
    NoneFree(u.descs, 0);
    VictimIs(u.descs, 0, f.clock);
    hide FirstFree;
  }

  lemma {:induction false} NoneFree(descs: seq<Slot>, i: nat)
    requires i <= |descs| && forall k :: i <= k < |descs| ==> descs[k].hash != 0
    ensures FirstFree(descs, i) == |descs|
    decreases |descs| - i
  {
    if i < |descs| {
      NoneFree(descs, i + 1);
    } else {
      assert FirstFree(descs, i) == i;
    }
  }

  /** An fopen that fails takes the stream of the slot it was meant for: the first free one or, when none is free,
      slot 0, whether that is in use or not. */
  lemma StreamTaken(t: Table, e: Event)
    requires Unlinked(t) && Enabled(t, e) && e.Prepare? && Lookup(t, e.hash).None? && FopenFails(e.mode, e.disk)
    requires Full(t) ==> Victim(t.descs, t.idx, e.clock, None).Some?
    ensures var u, k := Step(t, e), if Full(t) then 0 else FirstFree(t.descs, t.idx);
            && k < |u.descs| == |t.descs| && u.descs[k].fd == None
            && (Victim(t.descs, t.idx, e.clock, None) != Some(k) || !Full(t) ==> u.descs[k] == t.descs[k].(fd := None))
  {
    hide Bucket, Victim, FirstFree;
    VictimInRange(t.descs, t.idx, e.clock, None);
  }

  /** What a prepare that opens no file answers: the code of a missing file exactly where the file is absent and
      may not be created, and the other one where there is no slot, no path or no stream. */
  lemma FailsExactly(t: Table, e: Event)
    requires Unlinked(t) && Enabled(t, e) && e.Prepare? && Lookup(t, e.hash).None?
    ensures var room := !Full(t) || Victim(t.descs, t.idx, e.clock, None).Some?;
            var absent := e.disk.stat == Absent && e.mode == 1;
            && (Outcome(t, e) == -2 <==> room && e.disk.pathOk && absent)
            && (Outcome(t, e) == -1 <==> !room || !e.disk.pathOk || (!absent && !e.disk.fopenOk))
  {
    hide Bucket, Victim, FirstFree;
    VictimInRange(t.descs, t.idx, e.clock, None);
  }

  /** A file opened after an eviction takes slot 0 whatever is there, and the evicted slot stays empty: the
      file gets the slot that was freed for it if and only if that is slot 0. */
  lemma EvictionExactly(t: Table, e: Event)
    requires Unlinked(t) && Enabled(t, e) && e.Prepare?
    requires Full(t) && Lookup(t, e.hash).None? && Outcome(t, e) >= 0
    ensures var v := Victim(t.descs, t.idx, e.clock, None);
            var u := Step(t, e);
            && v.Some? && v.value < |t.descs| == |u.descs|
            && Outcome(t, e) == 0 && u.descs[0].hash == e.hash && u.descs[0].refs == 1
            && u.descs[0].fd == Some(|t.streams|)
            && (u.descs[v.value].refs == 1 <==> v.value == 0)
            && (v.value != 0 ==> u.descs[v.value] == FREE)
            && (forall k :: 0 < k < |t.descs| && k != v.value ==> u.descs[k] == t.descs[k])
  {
    hide Bucket, Victim, FirstFree;
    VictimInRange(t.descs, t.idx, e.clock, None);
  }

  /** When the table has been filled in order, the search starts at its last slot: the next file is opened if
      and only if nobody refers to that one slot, however many others are idle. */
  lemma FirstEviction(t: Table, e: Event, n: nat)
    requires Inv(t, n) && n == |t.descs| && n == t.idx + 1
    requires Enabled(t, e) && e.Prepare? && Lookup(t, e.hash).None?
    ensures Full(t)
    ensures Outcome(t, e) >= 0
       <==> && t.descs[n - 1].refs == 0 && t.descs[n - 1].lastAccess < e.clock
            && OpenLength(e.mode, e.disk) >= 0
  {
    hide Bucket;
    var last := t.descs[n - 1];
    assert FirstFree(t.descs, n) == n;
    assert Victim(t.descs, n, last.lastAccess, Some(n - 1)) == Some(n - 1);
    assert Victim(t.descs, n, e.clock, None) == None;
  }

  /** On a table filled in order whose last slot is idle, a new file evicts that slot and is put over the
      first file, which cannot be found any more. */
  lemma EvictionStep(t: Table, e: Event, n: nat)
    requires Inv(t, n) && n == |t.descs| == t.idx + 1 && n >= 2
    requires Enabled(t, e) && e.Prepare? && e.hash != 0 && Lookup(t, e.hash).None?
    requires t.descs[n - 1].refs == 0 && t.descs[n - 1].lastAccess < e.clock && OpenLength(e.mode, e.disk) >= 0
    requires t.descs[0].hash != e.hash && Lookup(t, t.descs[0].hash) == Some(0)
    ensures var u := Step(t, e);
            && Outcome(t, e) == 0 && |u.descs| == n && u.descs[0].hash == e.hash && u.descs[0].refs == 1
            && u.descs[n - 1] == FREE && Lookup(u, t.descs[0].hash) == None
            && Lookup(u, t.descs[n - 1].hash) == None && Lookup(u, e.hash) == Some(0)
  {
    FirstEviction(t, e, n);
    VictimIs(t.descs, t.idx, e.clock);
    var v := Victim(t.descs, t.idx, e.clock, None);
    assert v == Some(n - 1);
    hide Bucket, Victim, FirstFree;
    EvictionExactly(t, e);
  }

  lemma {:induction false} RunAppend(t: Table, events: seq<Event>, e: Event, k: nat)
    requires AllEnabled(t, events) && Enabled(After(t, events), e)
    ensures AllEnabled(t, events + [e]) && After(t, events + [e]) == Step(After(t, events), e)
    ensures Balance(t, events + [e], k) == Balance(t, events, k) + Change(After(t, events), e, k)
    decreases |events|
  {
    hide Step, Enabled, Change;
    if events == [] {
      assert [] + [e] == [e] && [e][1..] == [];
    } else {
      assert (events + [e])[1..] == events[1..] + [e];
      RunAppend(Step(t, events[0]), events[1..], e, k);
    }
  }

  /** Files are asked for one after the other, at times 0, 1, 2 and so on. */
  function Filling(hashes: seq<nat>, d: Disk): (events: seq<Event>)
    ensures |events| == |hashes|
    ensures forall i :: 0 <= i < |events| ==> events[i] == Prepare(hashes[i], 0, d, i, i)
  {
    seq(|hashes|, i requires 0 <= i < |hashes| => Prepare(hashes[i], 0, d, i, i))
  }

  /** The first n hashes are in the first n slots, each referred to once and accessed in order. */
  ghost predicate InOrder(t: Table, hashes: seq<nat>, n: nat) {
    && |t.descs| == |hashes| && Inv(t, n) && n <= |hashes| && (n > 0 ==> t.idx + 1 == n)
    && forall k :: 0 <= k < n ==>
         t.descs[k].hash == hashes[k] && t.descs[k].refs == 1 && t.descs[k].lastAccess == k
  }

  ghost predicate DistinctBuckets(hashes: seq<nat>) {
    && (forall i :: 0 <= i < |hashes| ==> hashes[i] != 0)
    && (forall i, j :: 0 <= i < j < |hashes| ==> Bucket(hashes[i]) != Bucket(hashes[j]))
  }

  lemma OneMore(t: Table, hashes: seq<nat>, n: nat, d: Disk)
    requires InOrder(t, hashes, n) && n < |hashes| && DistinctBuckets(hashes) && d.pathOk && d.fopenOk
    ensures var e := Prepare(hashes[n], 0, d, n, n);
            && Enabled(t, e) && InOrder(Step(t, e), hashes, n + 1) && Outcome(t, e) == n
  {
    var e := Prepare(hashes[n], 0, d, n, n);
    assert FirstFree(t.descs, t.idx) == n;
    hide Bucket, Victim;
    assert Lookup(t, hashes[n]) == None by {
      assert forall k :: 0 <= k < n ==> Bucket(t.descs[k].hash) != Bucket(hashes[n]);
    }
    assert Room(t, n) == (t.(idx := n), true);
    MissKeeps(t, hashes[n], OpenLength(0, d), n, n);
    hide FirstFree, Room, Lookup, Inv;
  }

  /** The first n files of the filling have been opened in order. */
  ghost predicate FilledUpTo(hashes: seq<nat>, d: Disk, n: nat)
    requires n <= |hashes|
  {
    var t, events := Initial(|hashes|), Filling(hashes, d)[..n];
    && AllEnabled(t, events) && InOrder(After(t, events), hashes, n)
    && Balance(t, events, 0) == if n == 0 then 0 else 1
  }

  lemma {:induction false} Fills(hashes: seq<nat>, d: Disk, n: nat)
    requires n <= |hashes| && DistinctBuckets(hashes) && d.pathOk && d.fopenOk
    ensures FilledUpTo(hashes, d, n)
  {
    hide *;
    if n == 0 {
      NothingFilled(hashes, d);
    } else {
      Fills(hashes, d, n - 1);
      FillsNext(hashes, d, n - 1);
    }
  }

  lemma NothingFilled(hashes: seq<nat>, d: Disk)
    ensures FilledUpTo(hashes, d, 0)
  {
    assert Filling(hashes, d)[..0] == [];
  }

  lemma FillsNext(hashes: seq<nat>, d: Disk, n: nat)
    requires n < |hashes| && DistinctBuckets(hashes) && d.pathOk && d.fopenOk && FilledUpTo(hashes, d, n)
    ensures FilledUpTo(hashes, d, n + 1)
  {
    hide AllEnabled, InOrder, After, Balance, DistinctBuckets, Step, Enabled, Change, Outcome;
    var t, events := Initial(|hashes|), Filling(hashes, d);
    var u := After(t, events[..n]);
    assert events[..n + 1] == events[..n] + [events[n]];
    hide Filling, Initial;
    OneMore(u, hashes, n, d);
    RunAppend(t, events[..n], events[n], 0);
    FillsSlot(u, events[n], n);
  }

  lemma FillsSlot(t: Table, e: Event, n: nat)
    requires Enabled(t, e) && e.Prepare? && Outcome(t, e) == n
    ensures Change(t, e, 0) == if n == 0 then 1 else 0
  {
    hide Outcome;
  }

  /** A table of any size from 2 on is filled, the last file is released, and another one evicts it. That is
      put over the first file, which is still in use: its reference is lost, and neither of the two old
      files can be found. */
  lemma EvictionExample(hashes: seq<nat>, h: nat, d: Disk)
    requires |hashes| >= 2 && DistinctBuckets(hashes + [h]) && d.pathOk && d.fopenOk
    ensures var n := |hashes|;
            var events := Filling(hashes, d) + [Release(n - 1)] + [Prepare(h, 0, d, n, n)];
            && AllEnabled(Initial(n), events)
            && (var t := After(Initial(n), events);
                && |t.descs| == n && t.descs[0].hash == h && t.descs[0].refs == 1 && t.descs[n - 1] == FREE
                && Balance(Initial(n), events, 0) == 2
                && Lookup(t, hashes[0]) == None && Lookup(t, hashes[n - 1]) == None && Lookup(t, h) == Some(0))
  {
    hide *;
    AllButTheLast(hashes, h);
    Fills(hashes, d, |hashes|);
    FullAndReleased(hashes, h, d);
    EvictedAfter(After(Initial(|hashes|), Filling(hashes, d) + [Release(|hashes| - 1)]), hashes, h, d);
    RunAppend(Initial(|hashes|), Filling(hashes, d) + [Release(|hashes| - 1)],
              Prepare(h, 0, d, |hashes|, |hashes|), 0);
  }

  /** The full table once its last slot has been released. */
  ghost predicate LastReleased(u: Table, hashes: seq<nat>, h: nat)
    requires |hashes| >= 2
  {
    var n := |hashes|;
    && Inv(u, n) && |u.descs| == n == u.idx + 1
    && u.descs[n - 1].refs == 0 && u.descs[n - 1].lastAccess == n - 1
    && u.descs[0].hash == hashes[0] && u.descs[n - 1].hash == hashes[n - 1]
    && hashes[0] != h && Lookup(u, h).None? && Lookup(u, hashes[0]) == Some(0)
  }

  lemma FullAndReleased(hashes: seq<nat>, h: nat, d: Disk)
    requires |hashes| >= 2 && DistinctBuckets(hashes) && FilledUpTo(hashes, d, |hashes|)
    requires forall k :: 0 <= k < |hashes| ==> Bucket(hashes[k]) != Bucket(h)
    ensures var t, events := Initial(|hashes|), Filling(hashes, d) + [Release(|hashes| - 1)];
            && AllEnabled(t, events) && LastReleased(After(t, events), hashes, h) && Balance(t, events, 0) == 1
  {
    hide AllEnabled, InOrder, After, Balance, DistinctBuckets, Step, Enabled, LastReleased, Bucket;
    var t, events := Initial(|hashes|), Filling(hashes, d);
    assert events[..|hashes|] == events;
    hide Filling, Initial;
    var e := Release(|hashes| - 1);
    Released(After(t, events), hashes, h);
    RunAppend(t, events, e, 0);
    assert Change(After(t, events), e, 0) == 0;
  }

  lemma EvictedAfter(u: Table, hashes: seq<nat>, h: nat, d: Disk)
    requires |hashes| >= 2 && LastReleased(u, hashes, h) && h != 0 && d.pathOk && d.fopenOk
    ensures var n := |hashes|;
            var f := Prepare(h, 0, d, n, n);
            && Enabled(u, f) && Change(u, f, 0) == 1
            && (var t := Step(u, f);
                && |t.descs| == n && t.descs[0].hash == h && t.descs[0].refs == 1 && t.descs[n - 1] == FREE
                && Lookup(t, hashes[0]) == None && Lookup(t, hashes[n - 1]) == None && Lookup(t, h) == Some(0))
  {
    hide Step, Lookup, Outcome, Inv;
    assert u.idx <= |u.descs|;
    EvictionStep(u, Prepare(h, 0, d, |hashes|, |hashes|), |hashes|);
  }

  lemma AllButTheLast(hashes: seq<nat>, h: nat)
    requires DistinctBuckets(hashes + [h])
    ensures DistinctBuckets(hashes) && h != 0
    ensures forall k :: 0 <= k < |hashes| ==> Bucket(hashes[k]) != Bucket(h)
  {
    hide Bucket;
    var all := hashes + [h];
    assert forall k :: 0 <= k < |hashes| ==> all[k] == hashes[k];
    assert all[|hashes|] == h;
  }

  lemma Released(t: Table, hashes: seq<nat>, h: nat)
    requires InOrder(t, hashes, |hashes|) && |hashes| >= 2 && DistinctBuckets(hashes)
    requires forall k :: 0 <= k < |hashes| ==> Bucket(hashes[k]) != Bucket(h)
    ensures var e := Release(|hashes| - 1);
            Enabled(t, e) && LastReleased(Step(t, e), hashes, h)
  {
    hide Bucket, Victim, FirstFree;
    var head := t.xxtable[Bucket(hashes[0])];
    assert Bucket(t.descs[head].hash) == Bucket(hashes[0]) && t.descs[head].hash == hashes[head];
    StepKeeps(t, Release(|hashes| - 1), |hashes|);
  }
}
