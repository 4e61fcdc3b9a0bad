/** The server with its files: SETBIT, GETBIT and BITCOUNT, from the descriptor table (src/file.c:16-283) and
    the streams of stdio to the bytes on disk (src/bitops.c:35-97, 152-210), as parse_and_execute runs them
    (src/parser.c:103-194, 286-346), against a bitmap for every key. */
module Server {
  import opened Memory
  import opened Wrappers
  import opened TableSpec
  import opened FileView
  import opened ParserSpec
  import BitCommands
  import BitCount
  import Keys

  /** One byte that fwrite has put into the buffer of a stream. */
  datatype Unwritten = Unwritten(offset: nat, value: byte)

  /** The descriptor table, the files on disk, which are named by the hashes of the keys, and what is still in
      the buffers of streams. Before every read and write of a stream it is positioned, which writes its buffer
      to the file (fseek in POSIX.1), so that never more than one byte waits. */
  datatype Server = Server(table: Table, disk: map<nat, seq<byte>>, unwritten: map<nat, Unwritten>)

  function Content(disk: map<nat, seq<byte>>, hash: nat): seq<byte> {
    if hash in disk then disk[hash] else []
  }

  function WithByte(data: seq<byte>, u: Unwritten): seq<byte> {
    Written(data, [u.value], u.offset)
  }

  /** The file as a stream sees it: as on disk, but for its own unwritten byte. */
  function SeenBy(s: Server, stream: nat): seq<byte>
    requires stream < |s.table.streams|
  {
    var data := Content(s.disk, s.table.streams[stream]);
    if stream in s.unwritten then WithByte(data, s.unwritten[stream]) else data
  }

  /** The buffer of a stream is written. */
  function Flushed(s: Server, stream: nat): Server
    requires stream < |s.table.streams|
  {
    if stream in s.unwritten
    then s.(disk := s.disk[s.table.streams[stream] := SeenBy(s, stream)], unwritten := s.unwritten - {stream})
    else s
  }

  /** The stream that is closed to make room for another file. */
  function Closing(s: Server, hash: nat, clock: nat): Option<nat>
    requires s.table.idx <= |s.table.descs|
  {
    if Lookup(s.table, hash).None? && Full(s.table) then
      match Victim(s.table.descs, s.table.idx, clock, None)
      case Some(v) => if v < |s.table.descs| then s.table.descs[v].fd else None
      case None => None
    else None
  }

  function Closed(s: Server, hash: nat, clock: nat): Server
    requires s.table.idx <= |s.table.descs|
  {
    match Closing(s, hash, clock)
    case Some(stream) => if stream < |s.table.streams| then Flushed(s, stream) else s
    case None => s
  }

  /** What stat and fopen find when nothing fails. */
  function DiskOf(disk: map<nat, seq<byte>>, hash: nat): Disk {
    Disk(true, if hash in disk then Regular(|disk[hash]|) else Absent, true)
  }

  /** prepare_file for a key with this hash; `now` are the readings of the clock on the way. */
  function Asking(s: Server, hash: nat, mode: nat, now: (nat, nat)): Event
    requires s.table.idx <= |s.table.descs|
  {
    Prepare(hash, mode, DiskOf(Closed(s, hash, now.0).disk, hash), now.0, now.1)
  }

  /** A victim's stream is closed first; opening a file that is not there creates it empty. */
  function AfterPrepare(s: Server, hash: nat, mode: nat, now: (nat, nat)): Server
    requires s.table.idx <= |s.table.descs|
  {
    var e, c := Asking(s, hash, mode, now), Closed(s, hash, now.0);
    Server(Step(s.table, e),
           if Outcome(s.table, e) >= 0 && hash !in c.disk then c.disk[hash := []] else c.disk, c.unwritten)
  }

  /** What a command does with its stream: whether it positions it, what it writes to it afterwards, and what
      it leaves as the cached length. */
  datatype Effect = Effect(result: int, seeks: bool, write: Option<Unwritten>, length: nat)

  function Applied(s: Server, stream: nat, effect: Effect): Server
    requires stream < |s.table.streams|
  {
    var f := if effect.seeks then Flushed(s, stream) else s;
    if effect.write.Some? then f.(unwritten := f.unwritten[stream := effect.write.value]) else f
  }

  /** The cached length is stored and the descriptor released. */
  function Finish(s: Server, slot: nat, length: nat): Server
    requires slot < |s.table.descs| && s.table.idx <= |s.table.descs|
  {
    s.(table := Step(s.table.(descs := s.table.descs[slot := s.table.descs[slot].(length := length)]), Release(slot)))
  }

  /** What the calls made for a request yield. */
  function Calls(outcome: int, length: nat, result: int): World {
    World((_: nat) => if outcome >= 0 then Got(outcome) else if outcome == -2 then NoFile else Failed,
          (_: nat) => length, result)
  }

  type Command = (seq<byte>, nat) -> Effect

  /** A request that opens one file. A slot without a stream, which no request meets, is left alone. */
  function Run(s: Server, hash: nat, mode: nat, now: (nat, nat), command: Command): (Server, World)
    requires Unlinked(s.table)
  {
    var outcome := Outcome(s.table, Asking(s, hash, mode, now));
    var p := AfterPrepare(s, hash, mode, now);
    OutcomeInTable(s.table, Asking(s, hash, mode, now));
    if outcome < 0 then (p, Calls(outcome, 0, 0))
    else
      var d := p.table.descs[outcome];
      if d.fd.Some? && d.fd.value < |p.table.streams| then
        var effect := command(SeenBy(p, d.fd.value), d.length);
        (Finish(Applied(p, d.fd.value, effect), outcome, effect.length), Calls(outcome, d.length, effect.result))
      else (p, Calls(outcome, d.length, -1))
  }

  /** setbitCommand: nothing is touched where a 0 is set past the end. */
  function SetCommand(offset: nat, value: nat): Command
    requires value <= 1
  {
    (data: seq<byte>, length: nat) =>
      Effect(BitCommands.BitReply(data, length, offset), offset / 8 < length || value != 0,
             if BitCommands.Stores(data, length, offset, value)
             then Some(Unwritten(offset / 8, BitCommands.PutBit(At(data, offset / 8), 7 - offset % 8, value)))
             else None,
             BitCommands.SetLength(data, length, offset, value))
  }

  /** getbitCommand */
  function GetCommand(offset: nat): Command {
    (data: seq<byte>, length: nat) =>
      Effect(BitCommands.BitReply(data, length, offset), offset / 8 < length, None, length)
  }

  /** The first and the last byte that are counted. */
  function Bounds(range: seq<int>, length: nat): (int, int) {
    BitCommands.Normalised(length, Filled(range, length)[0], Filled(range, length)[1])
  }

  /** bitcountCommand with the range that parse_and_execute fills in. */
  function CountCommand(range: seq<int>): Command {
    (data: seq<byte>, length: nat) =>
      var (first, last) := Bounds(range, length);
      Effect(BitCount.Count(Window(data, first, Max(last - first + 1, 0))), first <= last, None, length)
  }

  /** The requests that are followed through here. */
  predicate Followed(r: Request) {
    match r
    case SetBit(key, offset, value) => offset >= 0 && 0 <= value <= 1 && Keys.KeyHash(key) != 0
    case GetBit(key, offset) => offset >= 0 && Keys.KeyHash(key) != 0
    case BitCount(key, _) => Keys.KeyHash(key) != 0
    case _ => false
  }

  function HashOf(r: Request): nat
    requires Followed(r)
  {
    Keys.KeyHash(r.key)
  }

  /** SETBIT creates its file. */
  function Mode(r: Request): nat {
    if r.SetBit? then 0 else 1
  }

  function CommandOf(r: Request): Command
    requires Followed(r)
  {
    match r
    case SetBit(_, offset, value) => SetCommand(offset, value)
    case GetBit(_, offset) => GetCommand(offset)
    case BitCount(_, range) => CountCommand(range)
  }

  function Serve(s: Server, r: Request, now: (nat, nat)): (Server, World)
    requires Unlinked(s.table) && Followed(r)
  {
    Run(s, HashOf(r), Mode(r), now, CommandOf(r))
  }

  lemma OutcomeInTable(t: Table, e: Event)
    requires Unlinked(t) && e.Prepare?
    ensures Enabled(t, e) && |Step(t, e).descs| == |t.descs| && Step(t, e).idx <= |t.descs|
    ensures Outcome(t, e) < |t.descs|
  {
    StepUnlinked(t, e);
    hide Victim, FirstFree, Bucket;
  }

  // ---------- The specification ----------

  /** What a key stands for: the offsets of its set bits, and the size of its file. */
  datatype Bitmap = Bitmap(ones: set<nat>, size: nat)

  const EMPTY := Bitmap({}, 0)

  function BitmapOf(m: map<nat, Bitmap>, hash: nat): Bitmap {
    if hash in m then m[hash] else EMPTY
  }

  /** The set bits in the bytes of a range. */
  function OnesIn(b: Bitmap, range: seq<int>): set<nat> {
    set k | k in b.ones && Bounds(range, b.size).0 <= k / 8 <= Bounds(range, b.size).1
  }

  /** The number a request is answered with. */
  function SpecResult(b: Bitmap, r: Request): nat {
    match r
    case SetBit(_, offset, _) => if offset in b.ones then 1 else 0
    case GetBit(_, offset) => if offset in b.ones then 1 else 0
    case BitCount(_, range) => |OnesIn(b, range)|
    case _ => 0
  }

  /** The bitmap after it. */
  function SpecBitmap(b: Bitmap, r: Request): Bitmap
    requires Followed(r)
  {
    match r
    case SetBit(_, offset, value) =>
      if value == 1 then Bitmap(b.ones + {offset}, Max(b.size, offset / 8 + 1))
      else Bitmap(b.ones - {offset}, b.size)
    case _ => b
  }

  function SpecReply(m: map<nat, Bitmap>, r: Request): string
    requires Followed(r)
  {
    Digits(SpecResult(BitmapOf(m, HashOf(r)), r)) + "\n"
  }

  function SpecStep(m: map<nat, Bitmap>, r: Request): map<nat, Bitmap>
    requires Followed(r)
  {
    m[HashOf(r) := SpecBitmap(BitmapOf(m, HashOf(r)), r)]
  }

  // ---------- What every request keeps ----------

  /** No stream has an unwritten byte of this file. */
  ghost predicate Quiet(s: Server, hash: nat) {
    forall i :: i in s.unwritten && i < |s.table.streams| ==> s.table.streams[i] != hash
  }

  /** Streams that wait are streams, and of one file at most one waits. */
  ghost predicate OneWaits(s: Server) {
    && (forall i :: i in s.unwritten ==> i < |s.table.streams|)
    && (forall i, j :: i in s.unwritten && j in s.unwritten && s.table.streams[i] == s.table.streams[j] ==> i == j)
  }

  /** The slot has a stream of this file, which alone may have an unwritten byte of it, and has cached the size
      of the file as that stream sees it. */
  ghost predicate Live(s: Server, hash: nat, slot: nat)
    requires slot < |s.table.descs|
  {
    var d := s.table.descs[slot];
    && d.fd.Some? && d.fd.value < |s.table.streams| && s.table.streams[d.fd.value] == hash
    && hash in s.disk && d.length == |SeenBy(s, d.fd.value)|
    && (forall j :: j in s.unwritten && j < |s.table.streams| && s.table.streams[j] == hash ==> j == d.fd.value)
  }

  ghost predicate AllLive(s: Server) {
    forall hash {:trigger Lookup(s.table, hash)} :: hash != 0 && Lookup(s.table, hash).Some? ==>
      Live(s, hash, Lookup(s.table, hash).value)
  }

  ghost predicate Consistent(s: Server) {
    Unlinked(s.table) && OneWaits(s) && AllLive(s)
  }

  ghost predicate StandsFor(data: seq<byte>, b: Bitmap) {
    BitCommands.Represents(data, b.ones) && |data| == b.size
  }

  /** Every file, with the byte that waits for it, stands for the bitmap of its key. */
  ghost predicate Refines(s: Server, m: map<nat, Bitmap>) {
    && (forall h: nat :: Quiet(s, h) ==> StandsFor(Content(s.disk, h), BitmapOf(m, h)))
    && (forall i :: i in s.unwritten && i < |s.table.streams| ==>
          StandsFor(SeenBy(s, i), BitmapOf(m, s.table.streams[i])))
  }

  /** Writing a buffer changes the file on disk, and not as any stream with an unwritten byte of it or none
      sees it. */
  lemma Flush(s: Server, stream: nat)
    requires OneWaits(s) && stream < |s.table.streams|
    ensures var f := Flushed(s, stream);
            && f.table == s.table && OneWaits(f) && stream !in f.unwritten
            && Content(f.disk, s.table.streams[stream]) == SeenBy(f, stream) == SeenBy(s, stream)
            && (forall i :: i in f.unwritten ==> i in s.unwritten && SeenBy(f, i) == SeenBy(s, i))
            && (forall h :: h != s.table.streams[stream] || Quiet(s, h) ==> Content(f.disk, h) == Content(s.disk, h))
            && (forall h :: h in s.disk ==> h in f.disk)
  {
    hide WithByte;
  }

  lemma RefinesAfterFlush(s: Server, stream: nat, m: map<nat, Bitmap>)
    requires OneWaits(s) && stream < |s.table.streams| && Refines(s, m)
    ensures Refines(Flushed(s, stream), m)
  {
    hide StandsFor;
    var f := Flushed(s, stream);
    Flush(s, stream);
    hide SeenBy, Content, Flushed;
    forall h: nat | Quiet(f, h)
      ensures StandsFor(Content(f.disk, h), BitmapOf(m, h))
    {
      if h == s.table.streams[stream] && stream in s.unwritten {
        assert Content(f.disk, h) == SeenBy(s, stream);
      } else {
        StillQuiet(s, stream, h);
      }
    }
  }

  /** Only the stream that was written may have waited. */
  lemma StillQuiet(s: Server, stream: nat, h: nat)
    requires OneWaits(s) && stream < |s.table.streams|
    ensures Quiet(s, h) ==> Quiet(Flushed(s, stream), h)
    ensures Quiet(Flushed(s, stream), h) && (s.table.streams[stream] != h || stream !in s.unwritten) ==> Quiet(s, h)
    ensures s.table.streams[stream] == h && stream in s.unwritten ==> Quiet(Flushed(s, stream), h)
  {
    hide SeenBy;
  }

  lemma LiveAfterFlush(s: Server, stream: nat)
    requires OneWaits(s) && AllLive(s) && stream < |s.table.streams|
    ensures AllLive(Flushed(s, stream))
  {
    hide WithByte, Lookup, Quiet;
    var f := Flushed(s, stream);
    forall h | h != 0 && Lookup(f.table, h).Some? && Lookup(f.table, h).value < |f.table.descs|
      ensures Live(f, h, Lookup(f.table, h).value)
    {
      assert Live(s, h, Lookup(s.table, h).value);
    }
  }

  // ---------- One request ----------

  /** Making room leaves every file that can still be found alone. */
  lemma LookupAfterRoom(t: Table, clock: nat, hash: nat)
    requires Unlinked(t) && hash != 0
    ensures var u := Room(t, clock).0;
            && |u.descs| == |t.descs| && u.streams == t.streams
            && (Lookup(u, hash).Some? ==>
                  && Lookup(t, hash) == Lookup(u, hash)
                  && u.descs[Lookup(t, hash).value] == t.descs[Lookup(t, hash).value])
  {
    hide Bucket, Victim, FirstFree;
    VictimInRange(t.descs, t.idx, clock, None);
  }

  lemma LookupAfterMiss(t: Table, own: nat, length: nat, now: nat, hash: nat)
    requires t.idx < |t.descs|
    ensures var u := Miss(t, own, length, now);
            && Lookup(u, own) == Some(t.idx)
            && (hash != own && Lookup(u, hash).Some? ==>
                  && Lookup(t, hash) == Lookup(u, hash)
                  && u.descs[Lookup(t, hash).value] == t.descs[Lookup(t, hash).value])
  {
    hide Bucket;
  }

  /** A prepare makes its own hash findable and leaves every other file that can still be found alone, but that
      an fopen that fails may take its stream. */
  lemma LookupAfter(t: Table, e: Event, hash: nat)
    requires Unlinked(t) && e.Prepare? && e.hash != 0 && hash != 0
    ensures Enabled(t, e) && |Step(t, e).descs| == |t.descs|
    ensures Outcome(t, e) >= 0 && hash == e.hash ==> Lookup(Step(t, e), hash) == Some(Outcome(t, e))
    ensures hash != e.hash && Lookup(Step(t, e), hash).Some? ==>
              && Lookup(t, hash) == Lookup(Step(t, e), hash)
              && var s, s' := t.descs[Lookup(t, hash).value], Step(t, e).descs[Lookup(t, hash).value];
                 s' == s || (FopenFails(e.mode, e.disk) && s' == s.(fd := None))
    ensures Outcome(t, e) < 0 && hash == e.hash ==> Lookup(Step(t, e), hash) == None
  {
    OutcomeInTable(t, e);
    LookupAfterRoom(t, e.clock, hash);
    var u := Room(t, e.clock).0;
    hide Room;
    if u.idx < |u.descs| {
      LookupAfterMiss(u, e.hash, Max(OpenLength(e.mode, e.disk), 0), e.now, hash);
    }
    hide Bucket, Miss;
  }

  lemma CloseKeeps(s: Server, hash: nat, clock: nat, m: map<nat, Bitmap>)
    requires Consistent(s)
    ensures var c := Closed(s, hash, clock);
            && c.table == s.table && Consistent(c) && (Refines(s, m) ==> Refines(c, m))
            && (Lookup(s.table, hash).Some? ==> c == s)
            && (forall h :: h in s.disk ==> h in c.disk)
  {
    var stream := Closing(s, hash, clock);
    hide Closing, AllLive, Refines, SeenBy, Unlinked;
    if stream.Some? && stream.value < |s.table.streams| {
      Flush(s, stream.value);
      LiveAfterFlush(s, stream.value);
      if Refines(s, m) {
        RefinesAfterFlush(s, stream.value, m);
      }
    }
    hide Flushed;
    NothingClosed(s, hash, clock);
  }

  lemma NothingClosed(s: Server, hash: nat, clock: nat)
    requires s.table.idx <= |s.table.descs|
    ensures Lookup(s.table, hash).Some? ==> Closing(s, hash, clock).None?
  {}

  /** A file that has to be opened has no byte waiting in a stream that cannot be found any more. */
  ghost predicate Settled(s: Server, hash: nat, clock: nat)
    requires s.table.idx <= |s.table.descs|
  {
    Lookup(s.table, hash).None? ==> Quiet(Closed(s, hash, clock), hash)
  }

  /** The streams after a prepare, and the slot it yields. */
  lemma StreamsAfter(t: Table, e: Event)
    requires Unlinked(t) && e.Prepare? && e.mode <= 1 && e.disk.pathOk && e.disk.fopenOk
    ensures Enabled(t, e) && Outcome(t, e) < |Step(t, e).descs| && -2 <= Outcome(t, e)
    ensures var u := Step(t, e);
            match Lookup(t, e.hash)
            case Some(k) =>
              && k < |t.descs| == |u.descs| && Outcome(t, e) == k && u.streams == t.streams
              && u.descs[k].fd == t.descs[k].fd && u.descs[k].length == t.descs[k].length
            case None =>
              && u.streams == t.streams + (if Outcome(t, e) >= 0 then [e.hash] else [])
              && (Outcome(t, e) >= 0 ==>
                    && u.descs[Outcome(t, e)].fd == Some(|t.streams|)
                    && u.descs[Outcome(t, e)].length == OpenSize(0, e.disk))
              && (Outcome(t, e) == -2 ==> e.disk.stat.Absent? && e.mode == 1)
  {
    OutcomeInTable(t, e);
    hide Bucket, Victim, FirstFree, Lookup;
    VictimInRange(t.descs, t.idx, e.clock, None);
  }

  /** An empty file and a new stream change nothing that streams see. */
  lemma SameFiles(c: Server, p: Server, hash: nat)
    requires OneWaits(c) && p.unwritten == c.unwritten && c.table.streams <= p.table.streams
    requires p.disk == c.disk || (hash !in c.disk && p.disk == c.disk[hash := []])
    ensures forall h: nat :: Content(p.disk, h) == Content(c.disk, h)
    ensures forall h: nat :: Quiet(p, h) <==> Quiet(c, h)
    ensures forall h :: h in c.disk ==> h in p.disk
    ensures forall i: nat :: i < |c.table.streams| ==> SeenBy(p, i) == SeenBy(c, i)
  {
    hide WithByte;
  }

  /** What is unchanged by a prepare once a victim's stream is closed: what streams see, and who waits. */
  lemma FilesAfter(s: Server, hash: nat, mode: nat, now: (nat, nat))
    requires Consistent(s) && mode <= 1
    ensures var c, p := Closed(s, hash, now.0), AfterPrepare(s, hash, mode, now);
            && Consistent(c) && c.table == s.table
            && p.unwritten == c.unwritten && c.table.streams <= p.table.streams
            && (forall h: nat :: Content(p.disk, h) == Content(c.disk, h) && (Quiet(p, h) <==> Quiet(c, h)))
            && (forall h :: h in c.disk ==> h in p.disk)
            && (forall i: nat :: i < |c.table.streams| ==> SeenBy(p, i) == SeenBy(c, i))
            && (Outcome(s.table, Asking(s, hash, mode, now)) >= 0 ==> hash in p.disk)
  {
    CloseKeeps(s, hash, now.0, map[]);
    StreamsAfter(s.table, Asking(s, hash, mode, now));
    hide Closed, Step, Outcome, SeenBy, Content, Quiet, AllLive, Unlinked, Lookup, Refines;
    SameFiles(Closed(s, hash, now.0), AfterPrepare(s, hash, mode, now), hash);
  }

  /** The slot that a prepare yields is the file's. */
  lemma PrepareLive(s: Server, hash: nat, mode: nat, now: (nat, nat))
    requires Consistent(s) && hash != 0 && mode <= 1 && Settled(s, hash, now.0)
    requires Outcome(s.table, Asking(s, hash, mode, now)) >= 0
    ensures var k, p := Outcome(s.table, Asking(s, hash, mode, now)), AfterPrepare(s, hash, mode, now);
            k < |p.table.descs| && Live(p, hash, k)
  {
    var e := Asking(s, hash, mode, now);
    var c, p := Closed(s, hash, now.0), AfterPrepare(s, hash, mode, now);
    FilesAfter(s, hash, mode, now);
    StreamsAfter(s.table, e);
    if Lookup(s.table, hash).Some? {
      assert Live(c, hash, Lookup(s.table, hash).value);
    } else {
      assert Quiet(p, hash);
    }
    hide Closed, Step, Outcome, WithByte, AllLive, Unlinked, Lookup;
  }

  /** So is that of any other file that is found. */
  lemma OthersLive(s: Server, hash: nat, mode: nat, now: (nat, nat), h: nat)
    requires Consistent(s) && hash != 0 && mode <= 1 && h != 0 && h != hash
    requires Lookup(AfterPrepare(s, hash, mode, now).table, h).Some?
    ensures Live(AfterPrepare(s, hash, mode, now), h, Lookup(AfterPrepare(s, hash, mode, now).table, h).value)
  {
    var e := Asking(s, hash, mode, now);
    var c, p := Closed(s, hash, now.0), AfterPrepare(s, hash, mode, now);
    FilesAfter(s, hash, mode, now);
    LookupAfter(s.table, e, h);
    assert Live(c, h, Lookup(s.table, h).value);
    hide Closed, Step, Outcome, WithByte, AllLive, Unlinked, Lookup;
  }

  lemma PrepareConsistent(s: Server, hash: nat, mode: nat, now: (nat, nat))
    requires Consistent(s) && hash != 0 && mode <= 1 && Settled(s, hash, now.0)
    ensures Consistent(AfterPrepare(s, hash, mode, now))
  {
    var e, p := Asking(s, hash, mode, now), AfterPrepare(s, hash, mode, now);
    FilesAfter(s, hash, mode, now);
    LookupAfter(s.table, e, hash);
    StepUnlinked(s.table, e);
    hide Step, Outcome, SeenBy, Lookup, Closed, Asking, Unlinked, Quiet;
    forall h | h != 0 && Lookup(p.table, h).Some?
      ensures Live(p, h, Lookup(p.table, h).value)
    {
      if h == hash {
        PrepareLive(s, hash, mode, now);
      } else {
        OthersLive(s, hash, mode, now, h);
      }
    }
  }

  lemma PrepareRefines(s: Server, hash: nat, mode: nat, now: (nat, nat), m: map<nat, Bitmap>)
    requires Consistent(s) && Refines(s, m) && mode <= 1
    ensures Refines(AfterPrepare(s, hash, mode, now), m)
  {
    CloseKeeps(s, hash, now.0, m);
    FilesAfter(s, hash, mode, now);
    hide Closed, AfterPrepare, SeenBy, Quiet, Content, StandsFor, AllLive, Unlinked, Lookup;
  }

  /** A file that is not there stands for nothing. */
  lemma Missing(s: Server, hash: nat, mode: nat, now: (nat, nat), m: map<nat, Bitmap>)
    requires Consistent(s) && Refines(s, m) && mode <= 1 && Settled(s, hash, now.0)
    requires Outcome(s.table, Asking(s, hash, mode, now)) == -2
    ensures mode == 1 && StandsFor([], BitmapOf(m, hash))
  {
    var e, c := Asking(s, hash, mode, now), Closed(s, hash, now.0);
    CloseKeeps(s, hash, now.0, m);
    StreamsAfter(s.table, e);
    hide Closed, Step, Outcome, StandsFor, AllLive, Unlinked;
    assert Content(c.disk, hash) == [];
  }

  /** The file as the stream sees it after a command. */
  function DataAfter(data: seq<byte>, effect: Effect): seq<byte> {
    if effect.write.Some? then WithByte(data, effect.write.value) else data
  }

  /** No other stream of the same file waits. */
  ghost predicate Alone(s: Server, stream: nat)
    requires stream < |s.table.streams|
  {
    forall j :: j in s.unwritten && j < |s.table.streams| && s.table.streams[j] == s.table.streams[stream] ==>
      j == stream
  }

  /** A command on the only stream of a file that may wait changes what this stream sees. */
  lemma AppliedIs(s: Server, stream: nat, effect: Effect)
    requires OneWaits(s) && stream < |s.table.streams| && (effect.write.Some? ==> effect.seeks) && Alone(s, stream)
    ensures var a := Applied(s, stream, effect);
            && a.table == s.table && OneWaits(a) && Alone(a, stream)
            && SeenBy(a, stream) == DataAfter(SeenBy(s, stream), effect)
            && (forall h :: h in s.disk ==> h in a.disk)
  {
    hide WithByte;
  }

  /** Other files are as they were. */
  lemma AppliedFile(s: Server, stream: nat, effect: Effect, h: nat)
    requires OneWaits(s) && stream < |s.table.streams| && (effect.write.Some? ==> effect.seeks) && Alone(s, stream)
    ensures var a := Applied(s, stream, effect);
            && a.table == s.table
            && (h != s.table.streams[stream] ==>
                  Content(a.disk, h) == Content(s.disk, h) && (Quiet(a, h) <==> Quiet(s, h)))
            && (Quiet(a, s.table.streams[stream]) ==> Content(a.disk, s.table.streams[stream]) == SeenBy(a, stream))
  {
    hide WithByte;
  }

  /** Other streams wait and see as before. */
  lemma AppliedStream(s: Server, stream: nat, effect: Effect, j: nat)
    requires OneWaits(s) && stream < |s.table.streams| && j < |s.table.streams|
    ensures var a := Applied(s, stream, effect);
            && a.table == s.table && (j != stream ==> (j in a.unwritten <==> j in s.unwritten))
            && (s.table.streams[j] != s.table.streams[stream] ==> SeenBy(a, j) == SeenBy(s, j))
  {
    hide WithByte;
  }

  lemma AppliedContent(s: Server, stream: nat, effect: Effect, m: map<nat, Bitmap>, b: Bitmap, h: nat)
    requires OneWaits(s) && stream < |s.table.streams| && (effect.write.Some? ==> effect.seeks) && Alone(s, stream)
    requires Refines(s, m) && StandsFor(DataAfter(SeenBy(s, stream), effect), b)
    requires Quiet(Applied(s, stream, effect), h)
    ensures StandsFor(Content(Applied(s, stream, effect).disk, h), BitmapOf(m[s.table.streams[stream] := b], h))
  {
    AppliedIs(s, stream, effect);
    AppliedFile(s, stream, effect, h);
    hide Applied, SeenBy, Content, DataAfter, StandsFor, OneWaits, Quiet;
    if h != s.table.streams[stream] {
      assert BitmapOf(m[s.table.streams[stream] := b], h) == BitmapOf(m, h);
    }
  }

  lemma AppliedSeen(s: Server, stream: nat, effect: Effect, m: map<nat, Bitmap>, b: Bitmap, j: nat)
    requires OneWaits(s) && stream < |s.table.streams| && (effect.write.Some? ==> effect.seeks) && Alone(s, stream)
    requires Refines(s, m) && StandsFor(DataAfter(SeenBy(s, stream), effect), b)
    requires j in Applied(s, stream, effect).unwritten && j < |s.table.streams|
    ensures var a := Applied(s, stream, effect);
            && a.table == s.table
            && StandsFor(SeenBy(a, j), BitmapOf(m[s.table.streams[stream] := b], s.table.streams[j]))
  {
    AppliedIs(s, stream, effect);
    AppliedStream(s, stream, effect, j);
    hide Applied, SeenBy, Content, DataAfter, StandsFor, OneWaits, Quiet;
    if s.table.streams[j] != s.table.streams[stream] {
      assert BitmapOf(m[s.table.streams[stream] := b], s.table.streams[j]) == BitmapOf(m, s.table.streams[j]);
    }
  }

  lemma AppliedRefines(s: Server, stream: nat, effect: Effect, m: map<nat, Bitmap>, b: Bitmap)
    requires OneWaits(s) && stream < |s.table.streams| && (effect.write.Some? ==> effect.seeks) && Alone(s, stream)
    requires Refines(s, m) && StandsFor(DataAfter(SeenBy(s, stream), effect), b)
    ensures Refines(Applied(s, stream, effect), m[s.table.streams[stream] := b])
  {
    var a, hash := Applied(s, stream, effect), s.table.streams[stream];
    AppliedIs(s, stream, effect);
    hide Applied, SeenBy, Content, DataAfter, StandsFor, OneWaits, Quiet, BitmapOf, Alone;
    forall h: nat | Quiet(a, h)
      ensures StandsFor(Content(a.disk, h), BitmapOf(m[hash := b], h))
    {
      AppliedContent(s, stream, effect, m, b, h);
    }
    forall i: nat | i in a.unwritten && i < |a.table.streams|
      ensures StandsFor(SeenBy(a, i), BitmapOf(m[hash := b], a.table.streams[i]))
    {
      AppliedSeen(s, stream, effect, m, b, i);
    }
  }

  lemma LiveStays(s: Server, stream: nat, effect: Effect, h: nat, slot: nat)
    requires OneWaits(s) && stream < |s.table.streams| && slot < |s.table.descs| && Live(s, h, slot)
    requires (effect.write.Some? ==> effect.seeks) && Alone(s, stream) && h != s.table.streams[stream]
    ensures Applied(s, stream, effect).table == s.table && Live(Applied(s, stream, effect), h, slot)
  {
    var a := Applied(s, stream, effect);
    AppliedIs(s, stream, effect);
    AppliedStream(s, stream, effect, s.table.descs[slot].fd.value);
    hide Applied, SeenBy, DataAfter;
    forall j: nat | j in a.unwritten && j < |a.table.streams| && a.table.streams[j] == h
      ensures j == a.table.descs[slot].fd.value
    {
      AppliedStream(s, stream, effect, j);
    }
  }

  /** The slot of the file, once the new length is stored. */
  lemma LiveAgain(s: Server, hash: nat, slot: nat, effect: Effect)
    requires OneWaits(s) && s.table.idx <= |s.table.descs| && slot < |s.table.descs| && Live(s, hash, slot)
    requires effect.write.Some? ==> effect.seeks
    requires effect.length == |DataAfter(SeenBy(s, s.table.descs[slot].fd.value), effect)|
    ensures Live(Finish(Applied(s, s.table.descs[slot].fd.value, effect), slot, effect.length), hash, slot)
  {
    var stream := s.table.descs[slot].fd.value;
    AppliedIs(s, stream, effect);
    var a := Applied(s, stream, effect);
    hide Applied, DataAfter;
    SameStreams(a, Finish(a, slot, effect.length));
    hide SeenBy, Quiet;
  }

  lemma LiveFinished(s: Server, slot: nat, length: nat, h: nat, k: nat)
    requires Unlinked(s.table) && slot < |s.table.descs| && k < |s.table.descs| && k != slot && Live(s, h, k)
    ensures k < |Finish(s, slot, length).table.descs| && Live(Finish(s, slot, length), h, k)
  {
    SameStreams(s, Finish(s, slot, length));
    hide SeenBy, Quiet;
  }

  /** Every file that is live stays so, the one the command is applied to with the new length. */
  lemma AppliedLive(s: Server, hash: nat, slot: nat, effect: Effect)
    requires Consistent(s) && hash != 0 && Lookup(s.table, hash) == Some(slot) && slot < |s.table.descs|
    requires Live(s, hash, slot) && (effect.write.Some? ==> effect.seeks)
    requires effect.length == |DataAfter(SeenBy(s, s.table.descs[slot].fd.value), effect)|
    ensures Consistent(Finish(Applied(s, s.table.descs[slot].fd.value, effect), slot, effect.length))
  {
    var stream := s.table.descs[slot].fd.value;
    AppliedIs(s, stream, effect);
    var a := Applied(s, stream, effect);
    var f := Finish(a, slot, effect.length);
    SameStreams(a, f);
    SameLookup(a, slot, effect.length, hash);
    LiveAgain(s, hash, slot, effect);
    hide Applied, Finish, DataAfter, SeenBy, Quiet;
    forall h | h != 0 && Lookup(f.table, h).Some?
      ensures Live(f, h, Lookup(f.table, h).value)
    {
      SameLookup(a, slot, effect.length, h);
      if h != hash {
        LiveElsewhere(s, hash, slot, effect, h);
      }
    }
  }

  lemma LiveElsewhere(s: Server, hash: nat, slot: nat, effect: Effect, h: nat)
    requires Consistent(s) && Lookup(s.table, hash) == Some(slot) && slot < |s.table.descs| && Live(s, hash, slot)
    requires (effect.write.Some? ==> effect.seeks) && h != 0 && h != hash && Lookup(s.table, h).Some?
    ensures var f := Finish(Applied(s, s.table.descs[slot].fd.value, effect), slot, effect.length);
            Lookup(s.table, h).value < |f.table.descs| && Live(f, h, Lookup(s.table, h).value)
  {
    var stream, k := s.table.descs[slot].fd.value, Lookup(s.table, h).value;
    assert Live(s, h, k) && k != slot;
    hide Applied, Finish, SeenBy, Quiet, Lookup;
    LiveStays(s, stream, effect, h, k);
    LiveFinished(Applied(s, stream, effect), slot, effect.length, h, k);
  }

  lemma SameStreams(s: Server, t: Server)
    requires s.disk == t.disk && s.unwritten == t.unwritten && s.table.streams == t.table.streams
    ensures forall i: nat :: i < |s.table.streams| ==> SeenBy(s, i) == SeenBy(t, i)
    ensures OneWaits(s) <==> OneWaits(t)
    ensures forall h: nat :: Quiet(s, h) <==> Quiet(t, h)
  {
    hide WithByte;
  }

  lemma SameLookup(s: Server, slot: nat, length: nat, hash: nat)
    requires Unlinked(s.table) && slot < |s.table.descs|
    ensures var f := Finish(s, slot, length);
            && Unlinked(f.table) && Lookup(f.table, hash) == Lookup(s.table, hash)
            && |f.table.descs| == |s.table.descs| && f.table.streams == s.table.streams
            && forall k :: 0 <= k < |f.table.descs| ==>
                 && f.table.descs[k].fd == s.table.descs[k].fd
                 && f.table.descs[k].length == if k == slot then length else s.table.descs[k].length
  {
    hide Bucket;
  }

  /** What a command on one file has to do: answer with `reply` for the file that stands for a bitmap, keep the
      cached length the size of the file, and leave a file that stands for b. */
  ghost predicate Does(command: Command, data: seq<byte>, reply: nat, b: Bitmap) {
    var effect := command(data, |data|);
    && effect.result == reply && (effect.write.Some? ==> effect.seeks)
    && StandsFor(DataAfter(data, effect), b) && effect.length == |DataAfter(data, effect)|
  }

  /** A request whose prepare yields this slot with this stream. */
  lemma RunIs(s: Server, hash: nat, mode: nat, now: (nat, nat), command: Command, p: Server, slot: nat, stream: nat)
    requires Unlinked(s.table) && p == AfterPrepare(s, hash, mode, now)
    requires Outcome(s.table, Asking(s, hash, mode, now)) == slot
    requires slot < |p.table.descs| && p.table.descs[slot].fd == Some(stream) && stream < |p.table.streams|
    requires p.table.idx <= |p.table.descs|
    ensures var (effect, run) :=
              (command(SeenBy(p, stream), p.table.descs[slot].length), Run(s, hash, mode, now, command));
            && run.0 == Finish(Applied(p, stream, effect), slot, effect.length)
            && run.1.result == effect.result && run.1.prepare(0) == Got(slot)
            && run.1.length(slot) == p.table.descs[slot].length
  {
    hide AfterPrepare, Outcome, Asking, SeenBy, Applied, Finish, Unlinked;
  }

  /** A command on a file that was found, where no other stream has an unwritten byte of it. */
  lemma CommandRefines(p: Server, m: map<nat, Bitmap>, hash: nat, slot: nat, command: Command, reply: nat, b: Bitmap)
    requires Consistent(p) && Refines(p, m) && hash != 0 && slot < |p.table.descs|
    requires Live(p, hash, slot) && Lookup(p.table, hash) == Some(slot)
    requires forall data :: StandsFor(data, BitmapOf(m, hash)) ==> Does(command, data, reply, b)
    ensures var (stream, length) := (p.table.descs[slot].fd.value, p.table.descs[slot].length);
            var effect := command(SeenBy(p, stream), length);
            var f := Finish(Applied(p, stream, effect), slot, effect.length);
            && effect.result == reply && length == BitmapOf(m, hash).size
            && Consistent(f) && Refines(f, m[hash := b])
  {
    var stream := p.table.descs[slot].fd.value;
    SeenStandsFor(p, stream, m);
    var effect := command(SeenBy(p, stream), p.table.descs[slot].length);
    assert Does(command, SeenBy(p, stream), reply, b);
    hide StandsFor, Lookup, Unlinked;
    AppliedRefines(p, stream, effect, m, b);
    AppliedLive(p, hash, slot, effect);
    FinishRefines(Applied(p, stream, effect), slot, effect.length, m[hash := b]);
  }

  /** A request on one file, where no other stream has an unwritten byte of it. */
  lemma RunRefines(s: Server, m: map<nat, Bitmap>, hash: nat, mode: nat, now: (nat, nat), command: Command,
                   reply: nat, b: Bitmap)
    requires Consistent(s) && Refines(s, m) && hash != 0 && mode <= 1 && Settled(s, hash, now.0)
    requires Outcome(s.table, Asking(s, hash, mode, now)) != -1
    requires forall data :: StandsFor(data, BitmapOf(m, hash)) ==> Does(command, data, reply, b)
    ensures var (f, w) := Run(s, hash, mode, now, command);
            && Consistent(f) && !w.prepare(0).Failed? && (mode == 0 ==> w.prepare(0).Got?)
            && (w.prepare(0).Got? ==>
                  && w.result == reply && w.length(w.prepare(0).slot) == BitmapOf(m, hash).size
                  && Refines(f, m[hash := b]))
            && (w.prepare(0).NoFile? ==> StandsFor([], BitmapOf(m, hash)) && Refines(f, m))
  {
    var e, p := Asking(s, hash, mode, now), AfterPrepare(s, hash, mode, now);
    OutcomeInTable(s.table, e);
    PrepareConsistent(s, hash, mode, now);
    PrepareRefines(s, hash, mode, now, m);
    StreamsAfter(s.table, e);
    LookupAfter(s.table, e, hash);
    if Outcome(s.table, e) >= 0 {
      PrepareLive(s, hash, mode, now);
      var slot: nat := Outcome(s.table, e);
      assert p.table == Step(s.table, e) && p.table.descs[slot].fd.Some?;
      assert p.table.descs[slot].fd.value < |p.table.streams|;
      hide *;
      CommandRefines(p, m, hash, slot, command, reply, b);
      RunIs(s, hash, mode, now, command, p, slot, p.table.descs[slot].fd.value);
    } else {
      Missing(s, hash, mode, now, m);
      hide AfterPrepare, Asking, Step, Outcome, Settled, StandsFor, Lookup, Unlinked;
    }
  }

  lemma FinishIs(p: Server, stream: nat, effect: Effect, slot: nat)
    requires Unlinked(p.table) && slot < |p.table.descs| && stream < |p.table.streams|
    ensures var a := Applied(p, stream, effect);
            && a.table == p.table
            && (var f := Finish(a, slot, effect.length);
                && |f.table.descs| == |p.table.descs| && f.table.streams == p.table.streams
                && f.table.descs[slot].fd == p.table.descs[slot].fd && f.table.descs[slot].length == effect.length
                && SeenBy(f, stream) == SeenBy(a, stream))
  {
    var a := Applied(p, stream, effect);
    SameLookup(a, slot, effect.length, 0);
    SameStreams(a, Finish(a, slot, effect.length));
    hide SeenBy;
  }

  /** What the one stream of a file that may wait sees stands for the file's bitmap. */
  lemma SeenStandsFor(s: Server, stream: nat, m: map<nat, Bitmap>)
    requires stream < |s.table.streams| && Refines(s, m)
    requires forall j :: j in s.unwritten && j < |s.table.streams| && s.table.streams[j] == s.table.streams[stream] ==>
               j == stream
    ensures StandsFor(SeenBy(s, stream), BitmapOf(m, s.table.streams[stream]))
    ensures |SeenBy(s, stream)| == BitmapOf(m, s.table.streams[stream]).size
  {
    hide BitCommands.Represents;
    if stream !in s.unwritten {
      assert Quiet(s, s.table.streams[stream]);
    }
  }

  lemma FinishRefines(s: Server, slot: nat, length: nat, m: map<nat, Bitmap>)
    requires slot < |s.table.descs| && s.table.idx <= |s.table.descs| && Refines(s, m)
    ensures Refines(Finish(s, slot, length), m)
  {
    SameStreams(s, Finish(s, slot, length));
    hide SeenBy, Quiet, StandsFor;
  }

  lemma DoesSet(data: seq<byte>, b: Bitmap, r: Request)
    requires StandsFor(data, b) && Followed(r) && r.SetBit?
    ensures Does(SetCommand(r.offset, r.value), data, SpecResult(b, r), SpecBitmap(b, r))
  {
    hide BitCommands.Represents, BitCommands.BitReply, BitCommands.PutBit, Keys.KeyHash;
    BitCommands.InSet(data, b.ones, r.offset);
    BitCommands.SetChanged(data, b.ones, r.offset, r.value == 1);
    hide Written;
  }

  lemma DoesGet(data: seq<byte>, b: Bitmap, r: Request)
    requires StandsFor(data, b) && Followed(r) && r.GetBit?
    ensures Does(GetCommand(r.offset), data, SpecResult(b, r), b)
  {
    hide BitCommands.Represents, BitCommands.BitReply, Keys.KeyHash;
    BitCommands.InSet(data, b.ones, r.offset);
  }

  lemma DoesCount(data: seq<byte>, b: Bitmap, r: Request)
    requires StandsFor(data, b) && r.BitCount?
    ensures Does(CountCommand(r.range), data, SpecResult(b, r), b)
  {
    hide BitCommands.Represents, BitCommands.Normalised, BitCount.Count, Window;
    var (first, last) := Bounds(r.range, b.size);
    BitCommands.CountInRange(data, b.ones, first, last);
  }

  lemma DoesAsked(data: seq<byte>, b: Bitmap, r: Request)
    requires StandsFor(data, b) && Followed(r)
    ensures Does(CommandOf(r), data, SpecResult(b, r), SpecBitmap(b, r))
  {
    hide StandsFor, Does, SetCommand, GetCommand, CountCommand;
    match r
    case SetBit(_, _, _) => DoesSet(data, b, r);
    case GetBit(_, _) => DoesGet(data, b, r);
    case BitCount(_, _) => DoesCount(data, b, r);
  }

  /** An empty file answers 0, and so does one that is not there. */
  lemma NothingSet(b: Bitmap, r: Request)
    requires Followed(r)
    ensures StandsFor([], b) || (r.BitCount? && b.size == 0) ==> SpecResult(b, r) == 0
    ensures !r.SetBit? ==> SpecBitmap(b, r) == b
  {
    hide Keys.KeyHash, BitCommands.BitAt;
    if StandsFor([], b) {
      forall k: nat
        ensures k !in b.ones
      {
        BitCommands.ReadBitAt([], k);
        assert BitCommands.BitAt([], k) == 0;
      }
      assert b.ones == {};
    }
    if r.BitCount? && (b.ones == {} || b.size == 0) {
      assert OnesIn(b, r.range) == {};
    }
  }

  /** An open file or none answers with the digits of its number. */
  lemma AnswerOf(r: Request, w: World, result: nat)
    requires Followed(r) && !w.prepare(0).Failed? && (r.SetBit? ==> w.prepare(0).Got?)
    requires w.prepare(0).Got? ==> w.result == result
    requires w.prepare(0).NoFile? || (r.BitCount? && w.length(w.prepare(0).slot) == 0) ==> result == 0
    ensures ReplyTo(r, w) == Some(Digits(result) + "\n")
  {
    hide Digits, Keys.KeyHash;
    SmallDigits();
  }

  lemma SmallDigits()
    ensures Digits(0) + "\n" == "0\n" && Digits(1) + "\n" == "1\n"
  {}

  lemma SameBitmap(s: Server, m: map<nat, Bitmap>, hash: nat)
    requires Refines(s, m)
    ensures Refines(s, m[hash := BitmapOf(m, hash)])
  {
    hide StandsFor, Quiet, SeenBy, Content;
    assert forall h: nat :: BitmapOf(m[hash := BitmapOf(m, hash)], h) == BitmapOf(m, h);
  }

  /** A followed request runs its command against its bitmap. */
  lemma ServeKeeps(s: Server, m: map<nat, Bitmap>, r: Request, now: (nat, nat))
    requires Consistent(s) && Refines(s, m) && Followed(r) && Settled(s, HashOf(r), now.0)
    requires Outcome(s.table, Asking(s, HashOf(r), Mode(r), now)) != -1
    ensures var (f, w) := Serve(s, r, now);
            var b := BitmapOf(m, HashOf(r));
            && Consistent(f) && !w.prepare(0).Failed? && (r.SetBit? ==> w.prepare(0).Got?)
            && (w.prepare(0).Got? ==>
                  && w.result == SpecResult(b, r) && w.length(w.prepare(0).slot) == b.size
                  && Refines(f, SpecStep(m, r)))
            && (w.prepare(0).NoFile? ==> StandsFor([], b) && Refines(f, m))
  {
    var hash := HashOf(r);
    var b := BitmapOf(m, hash);
    hide StandsFor, Does, CommandOf, SpecResult, SpecBitmap;
    forall data | StandsFor(data, b)
      ensures Does(CommandOf(r), data, SpecResult(b, r), SpecBitmap(b, r))
    {
      DoesAsked(data, b, r);
    }
    hide Consistent, Refines, Keys.KeyHash, Settled, Outcome, Asking, BitmapOf, Run;
    RunRefines(s, m, hash, Mode(r), now, CommandOf(r), SpecResult(b, r), SpecBitmap(b, r));
  }

  lemma AnswerSpec(m: map<nat, Bitmap>, r: Request, w: World)
    requires Followed(r) && !w.prepare(0).Failed? && (r.SetBit? ==> w.prepare(0).Got?)
    requires var b := BitmapOf(m, HashOf(r));
             && (w.prepare(0).Got? ==> w.result == SpecResult(b, r) && w.length(w.prepare(0).slot) == b.size)
             && (w.prepare(0).NoFile? ==> StandsFor([], b))
    ensures ReplyTo(r, w) == Some(SpecReply(m, r))
  {
    var b := BitmapOf(m, HashOf(r));
    NothingSet(b, r);
    hide StandsFor, SpecResult, Keys.KeyHash, BitmapOf, ReplyTo, Digits;
    AnswerOf(r, w, SpecResult(b, r));
  }

  lemma NothingChanges(s: Server, m: map<nat, Bitmap>, r: Request)
    requires Followed(r) && !r.SetBit? && Refines(s, m)
    ensures Refines(s, SpecStep(m, r))
  {
    NothingSet(BitmapOf(m, HashOf(r)), r);
    hide Refines, Keys.KeyHash, SpecBitmap, BitmapOf, StandsFor, SpecResult;
    SameBitmap(s, m, HashOf(r));
  }

  /** Every followed request that finds room in the table, for a file that is not opened behind a byte that
      waits elsewhere, is answered as its bitmap says, and leaves the files standing for the bitmaps after it. */
  lemma ServeRefines(s: Server, m: map<nat, Bitmap>, r: Request, now: (nat, nat))
    requires Consistent(s) && Refines(s, m) && Followed(r) && Settled(s, HashOf(r), now.0)
    requires Outcome(s.table, Asking(s, HashOf(r), Mode(r), now)) != -1
    ensures var (f, w) := Serve(s, r, now);
            && Consistent(f) && Refines(f, SpecStep(m, r))
            && ReplyTo(r, w) == Some(SpecReply(m, r))
  {
    ServeKeeps(s, m, r, now);
    var (f, w) := Serve(s, r, now);
    hide *;
    AnswerSpec(m, r, w);
    if !r.SetBit? && Refines(f, m) {
      NothingChanges(f, m, r);
    }
  }

  // ---------- Sequences of requests ----------

  /** Every request is followed, finds room in the table, and opens no file behind a byte that waits elsewhere. */
  ghost predicate AllServed(s: Server, requests: seq<Request>, times: seq<(nat, nat)>)
    requires |times| == |requests|
    decreases |requests|
  {
    requests != [] ==>
      && Unlinked(s.table) && Followed(requests[0]) && Settled(s, HashOf(requests[0]), times[0].0)
      && Outcome(s.table, Asking(s, HashOf(requests[0]), Mode(requests[0]), times[0])) != -1
      && AllServed(Serve(s, requests[0], times[0]).0, requests[1..], times[1..])
  }

  /** What the calls made for each request yield. */
  ghost function Worlds(s: Server, requests: seq<Request>, times: seq<(nat, nat)>): (w: seq<World>)
    requires |times| == |requests| && AllServed(s, requests, times)
    ensures |w| == |requests|
    decreases |requests|
  {
    if requests == [] then []
    else
      var (f, w) := Serve(s, requests[0], times[0]);
      [w] + Worlds(f, requests[1..], times[1..])
  }

  ghost function ServerAfter(s: Server, requests: seq<Request>, times: seq<(nat, nat)>): Server
    requires |times| == |requests| && AllServed(s, requests, times)
    decreases |requests|
  {
    if requests == [] then s else ServerAfter(Serve(s, requests[0], times[0]).0, requests[1..], times[1..])
  }

  ghost function SpecAfter(m: map<nat, Bitmap>, requests: seq<Request>): map<nat, Bitmap>
    requires forall i :: 0 <= i < |requests| ==> Followed(requests[i])
    decreases |requests|
  {
    if requests == [] then m else SpecAfter(SpecStep(m, requests[0]), requests[1..])
  }

  lemma {:induction false} AllFollowed(s: Server, requests: seq<Request>, times: seq<(nat, nat)>)
    requires |times| == |requests| && AllServed(s, requests, times)
    ensures forall i :: 0 <= i < |requests| ==> Followed(requests[i])
    decreases |requests|
  {
    hide Followed, Serve, Outcome, Unlinked, Settled, Asking, HashOf, Mode;
    if requests == [] {
    } else {
      AllFollowed(Serve(s, requests[0], times[0]).0, requests[1..], times[1..]);
    }
  }

  ghost function SpecReplies(m: map<nat, Bitmap>, requests: seq<Request>): (replies: seq<string>)
    requires forall i :: 0 <= i < |requests| ==> Followed(requests[i])
    ensures |replies| == |requests|
    decreases |requests|
  {
    if requests == [] then []
    else [SpecReply(m, requests[0])] + SpecReplies(SpecStep(m, requests[0]), requests[1..])
  }

  /** The k-th answer is that of the bitmaps which the requests before it left. */
  lemma {:induction false} SpecReplyAt(m: map<nat, Bitmap>, requests: seq<Request>, k: nat)
    requires k < |requests| && forall i :: 0 <= i < |requests| ==> Followed(requests[i])
    ensures SpecReplies(m, requests)[k] == SpecReply(SpecAfter(m, requests[..k]), requests[k])
    decreases |requests|
  {
    hide Followed, SpecReply, SpecStep;
    if k == 0 {
      assert requests[..0] == [];
    } else {
      SpecReplyAt(SpecStep(m, requests[0]), requests[1..], k - 1);
      assert requests[k] == requests[1..][k - 1];
      assert requests[..k][0] == requests[0] && requests[..k][1..] == requests[1..][..k - 1];
    }
  }

  /** The number that answers the k-th request: that of the bitmaps which the requests before it left. */
  ghost function SpecNumber(m: map<nat, Bitmap>, requests: seq<Request>, k: nat): nat
    requires k < |requests| && forall i :: 0 <= i < |requests| ==> Followed(requests[i])
  {
    SpecResult(BitmapOf(SpecAfter(m, requests[..k]), HashOf(requests[k])), requests[k])
  }

  lemma SpecReplyIs(m: map<nat, Bitmap>, requests: seq<Request>, k: nat)
    requires k < |requests| && forall i :: 0 <= i < |requests| ==> Followed(requests[i])
    ensures SpecReplies(m, requests)[k] == Digits(SpecNumber(m, requests, k)) + "\n"
  {
    hide Followed, SpecAfter, SpecReplies, HashOf, SpecResult, Digits;
    SpecReplyAt(m, requests, k);
  }

  /** A server with its files answers a sequence of requests as the bitmaps do, and the files end up standing
      for the bitmaps that the requests leave. */
  lemma {:induction false} SequenceRefines(s: Server, m: map<nat, Bitmap>, requests: seq<Request>,
                                           times: seq<(nat, nat)>)
    requires |times| == |requests| && AllServed(s, requests, times) && Consistent(s) && Refines(s, m)
    ensures forall i :: 0 <= i < |requests| ==> Followed(requests[i])
    ensures Consistent(ServerAfter(s, requests, times))
    ensures Refines(ServerAfter(s, requests, times), SpecAfter(m, requests))
    ensures forall k :: 0 <= k < |requests| ==>
              ReplyTo(requests[k], Worlds(s, requests, times)[k]) == Some(SpecReplies(m, requests)[k])
    decreases |requests|
  {
    AllFollowed(s, requests, times);
    hide Followed, Serve, Outcome, Consistent, Refines, ReplyTo, SpecReply, SpecStep, Unlinked;
    if requests == [] {
    } else {
      var (f, w) := Serve(s, requests[0], times[0]);
      ServeRefines(s, m, requests[0], times[0]);
      SequenceRefines(f, SpecStep(m, requests[0]), requests[1..], times[1..]);
      var rest, replies := Worlds(f, requests[1..], times[1..]), SpecReplies(SpecStep(m, requests[0]), requests[1..]);
      assert Worlds(s, requests, times) == [w] + rest;
      assert SpecReplies(m, requests) == [SpecReply(m, requests[0])] + replies;
      hide Worlds, SpecReplies;
      Shifted(requests, [w] + rest, [SpecReply(m, requests[0])] + replies);
    }
  }

  lemma Shifted(requests: seq<Request>, worlds: seq<World>, replies: seq<string>)
    requires |requests| == |worlds| == |replies| > 0
    requires ReplyTo(requests[0], worlds[0]) == Some(replies[0])
    requires forall k :: 0 <= k < |requests| - 1 ==>
               ReplyTo(requests[1..][k], worlds[1..][k]) == Some(replies[1..][k])
    ensures forall k :: 0 <= k < |requests| ==> ReplyTo(requests[k], worlds[k]) == Some(replies[k])
  {
    hide ReplyTo;
    forall k | 0 <= k < |requests|
      ensures ReplyTo(requests[k], worlds[k]) == Some(replies[k])
    {
      if k > 0 {
        assert requests[1..][k - 1] == requests[k] && worlds[1..][k - 1] == worlds[k];
        assert replies[1..][k - 1] == replies[k];
      }
    }
  }

  // ---------- What is held ----------

  /** Nobody refers to any slot. */
  ghost predicate NothingHeld(t: Table) {
    forall k :: 0 <= k < |t.descs| ==> t.descs[k].refs == 0
  }

  /** A request gives back what it has taken: between requests every file may be evicted. */
  lemma ServeReleases(s: Server, r: Request, now: (nat, nat))
    requires Consistent(s) && NothingHeld(s.table) && Followed(r) && Settled(s, HashOf(r), now.0)
    ensures NothingHeld(Serve(s, r, now).0.table)
  {
    var hash := HashOf(r);
    var e, p := Asking(s, hash, Mode(r), now), AfterPrepare(s, hash, Mode(r), now);
    OutcomeInTable(s.table, e);
    PrepareHolds(s.table, e);
    assert p.table == Step(s.table, e);
    if Outcome(s.table, e) >= 0 {
      PrepareLive(s, hash, Mode(r), now);
      var slot: nat := Outcome(s.table, e);
      assert p.table.descs[slot].fd.Some? && p.table.descs[slot].fd.value < |p.table.streams|;
      hide *;
      RunGivesBack(s, r, now, p, slot, p.table.descs[slot].fd.value);
    } else {
      hide Step, Outcome, Asking, AfterPrepare;
    }
  }

  lemma RunGivesBack(s: Server, r: Request, now: (nat, nat), p: Server, slot: nat, stream: nat)
    requires Unlinked(s.table) && Followed(r) && p == AfterPrepare(s, HashOf(r), Mode(r), now)
    requires Outcome(s.table, Asking(s, HashOf(r), Mode(r), now)) == slot
    requires slot < |p.table.descs| && p.table.descs[slot].fd == Some(stream) && stream < |p.table.streams|
    requires p.table.idx <= |p.table.descs|
    requires forall k :: 0 <= k < |p.table.descs| ==> p.table.descs[k].refs == if k == slot then 1 else 0
    ensures NothingHeld(Serve(s, r, now).0.table)
  {
    hide Outcome, Asking, AfterPrepare, HashOf, Mode, CommandOf, Followed, SeenBy, Unlinked, Applied, Finish;
    RunIs(s, HashOf(r), Mode(r), now, CommandOf(r), p, slot, stream);
    var effect := CommandOf(r)(SeenBy(p, stream), p.table.descs[slot].length);
    FinishGivesBack(p, stream, effect, slot);
  }

  /** A prepare that yields a slot takes one reference to it, and one that fails takes none. */
  lemma PrepareHolds(t: Table, e: Event)
    requires Unlinked(t) && NothingHeld(t) && e.Prepare?
    ensures Enabled(t, e)
    ensures forall k :: 0 <= k < |Step(t, e).descs| ==> Step(t, e).descs[k].refs == if k == Outcome(t, e) then 1 else 0
  {
    hide Bucket, Victim, FirstFree;
    VictimInRange(t.descs, t.idx, e.clock, None);
  }

  lemma FinishGivesBack(p: Server, stream: nat, effect: Effect, slot: nat)
    requires slot < |p.table.descs| && p.table.idx <= |p.table.descs| && stream < |p.table.streams|
    requires forall k :: 0 <= k < |p.table.descs| ==> p.table.descs[k].refs == if k == slot then 1 else 0
    ensures Applied(p, stream, effect).table == p.table
    ensures NothingHeld(Finish(Applied(p, stream, effect), slot, effect.length).table)
  {
    hide SeenBy;
  }

  // ---------- What is on disk ----------

  /** When a file is evicted its last byte is on disk: nothing waits for it any more. */
  lemma EvictedIsWritten(s: Server, hash: nat, mode: nat, now: (nat, nat), evicted: nat)
    requires Consistent(s) && mode <= 1 && evicted != 0 && Lookup(s.table, hash).None? && Full(s.table)
    requires Lookup(s.table, evicted).Some?
    requires Victim(s.table.descs, s.table.idx, now.0, None) == Lookup(s.table, evicted)
    ensures var v := Lookup(s.table, evicted).value;
            && s.table.descs[v].fd.Some? && s.table.descs[v].fd.value < |s.table.streams|
            && (var p := AfterPrepare(s, hash, mode, now);
                Quiet(p, evicted) && Content(p.disk, evicted) == SeenBy(s, s.table.descs[v].fd.value))
  {
    var v := Lookup(s.table, evicted).value;
    assert Live(s, evicted, v);
    var stream := s.table.descs[v].fd.value;
    assert Closed(s, hash, now.0) == Flushed(s, stream);
    FilesAfter(s, hash, mode, now);
    Flush(s, stream);
    hide AfterPrepare, Asking, Closed, Victim, Lookup, Content;
  }

  /** A command that positions its stream and writes nothing leaves nothing waiting in it. */
  lemma ReadIsWritten(s: Server, stream: nat, r: Request)
    requires OneWaits(s) && stream < |s.table.streams| && Followed(r) && !r.SetBit?
    requires match r
             case GetBit(_, offset) => offset / 8 < |SeenBy(s, stream)|
             case BitCount(_, range) =>
               Bounds(range, |SeenBy(s, stream)|).0 <= Bounds(range, |SeenBy(s, stream)|).1
             case _ => false
    ensures var a := Applied(s, stream, CommandOf(r)(SeenBy(s, stream), |SeenBy(s, stream)|));
            stream !in a.unwritten && Content(a.disk, s.table.streams[stream]) == SeenBy(s, stream)
  {
    hide *;
    var data := SeenBy(s, stream);
    ReadSeeks(r, data);
    PlainSeek(s, stream, CommandOf(r)(data, |data|));
  }

  lemma ReadSeeks(r: Request, data: seq<byte>)
    requires Followed(r) && !r.SetBit?
    requires match r
             case GetBit(_, offset) => offset / 8 < |data|
             case BitCount(_, range) => Bounds(range, |data|).0 <= Bounds(range, |data|).1
             case _ => false
    ensures var effect := CommandOf(r)(data, |data|); effect.seeks && effect.write.None?
  {
    hide Keys.KeyHash, BitCommands.BitReply, BitCount.Count, Window, Bounds;
  }

  lemma PlainSeek(s: Server, stream: nat, effect: Effect)
    requires OneWaits(s) && stream < |s.table.streams| && effect.seeks && effect.write.None?
    ensures var a := Applied(s, stream, effect);
            stream !in a.unwritten && Content(a.disk, s.table.streams[stream]) == SeenBy(s, stream)
  {
    hide SeenBy, Content, OneWaits, Flushed;
    Flush(s, stream);
  }

  /** A command that looks at no byte of the file leaves its stream alone, and what waits in it. */
  lemma UntouchedWaits(s: Server, stream: nat, r: Request)
    requires stream < |s.table.streams| && Followed(r)
    requires var size := |SeenBy(s, stream)|;
             match r
             case SetBit(_, offset, value) => offset / 8 >= size && value == 0
             case GetBit(_, offset) => offset / 8 >= size
             case BitCount(_, range) => Bounds(range, size).0 > Bounds(range, size).1
    ensures Applied(s, stream, CommandOf(r)(SeenBy(s, stream), |SeenBy(s, stream)|)) == s
  {
    hide Keys.KeyHash, SeenBy, BitCommands.BitReply, BitCommands.PutBit, BitCount.Count, Window, BitCommands.Normalised;
  }

  /** A byte that SETBIT stores waits until then. */
  lemma SetWaits(s: Server, stream: nat, r: Request)
    requires OneWaits(s) && stream < |s.table.streams| && Followed(r) && r.SetBit?
    requires BitCommands.Stores(SeenBy(s, stream), |SeenBy(s, stream)|, r.offset, r.value)
    ensures var a := Applied(s, stream, CommandOf(r)(SeenBy(s, stream), |SeenBy(s, stream)|));
            && stream in a.unwritten && a.unwritten[stream].offset == r.offset / 8
            && Content(a.disk, s.table.streams[stream]) == SeenBy(s, stream)
  {
    hide Keys.KeyHash, WithByte, BitCommands.BitReply, BitCommands.PutBit;
  }

  /** A request for which the table has no room is answered as a failure and changes no bitmap. */
  lemma NoRoom(s: Server, m: map<nat, Bitmap>, r: Request, now: (nat, nat))
    requires Consistent(s) && Refines(s, m) && Followed(r) && Settled(s, HashOf(r), now.0)
    requires Outcome(s.table, Asking(s, HashOf(r), Mode(r), now)) == -1
    ensures var (f, w) := Serve(s, r, now);
            Consistent(f) && Refines(f, m) && ReplyTo(r, w) == Some("ERR:FILESYSTEM FAILED\n")
  {
    PrepareConsistent(s, HashOf(r), Mode(r), now);
    PrepareRefines(s, HashOf(r), Mode(r), now, m);
    hide Consistent, Refines, AfterPrepare, Asking, Outcome, Settled, HashOf, CommandOf;
  }

  // ---------- A server that has just started ----------

  function Started(size: nat, disk: map<nat, seq<byte>>): Server {
    Server(Initial(size), disk, map[])
  }

  /** A server that has just started refines whatever its files stand for. */
  lemma StartedRefines(size: nat, disk: map<nat, seq<byte>>, m: map<nat, Bitmap>)
    requires forall h: nat :: StandsFor(Content(disk, h), BitmapOf(m, h))
    ensures Consistent(Started(size, disk)) && Refines(Started(size, disk), m)
  {
    hide StandsFor;
  }

  lemma NothingStandsFor()
    ensures StandsFor([], EMPTY)
  {
    hide BitCommands.BitAt;
    forall k: nat
      ensures BitCommands.BitAt([], k) == 0
    {
      BitCommands.ReadBitAt([], k);
    }
  }

  /** A non-empty file that was truncated as it was opened: every SETBIT and GETBIT of a byte it had fails. */
  lemma TruncatedFails(size: nat, offset: nat, value: nat)
    requires offset / 8 < size && value <= 1
    ensures var disk := Disk(true, Regular(size), true);
            && OpenLength(2, disk) == size && OpenSize(2, disk) == 0
            && GetCommand(offset)([], size).result == SetCommand(offset, value)([], size).result == -1
  {
    hide BitCommands.BitAt, BitCommands.PutBit;
  }
}
