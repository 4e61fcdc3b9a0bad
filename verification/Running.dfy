/** The command that parse_and_execute has recorded, run on descriptors (src/parser.c:138, 184, 274, 336): what it
    does to the files, and that this is what the server as a whole makes of the request. */
module Running {
  import opened Memory
  import opened Wrappers
  import opened FileView
  import Parser
  import opened ParserSpec
  import opened Server
  import BitCommands
  import BitCount
  import BitOp
  import Keys
  import TableSpec

  const NO_ERROR: nat -> Option<nat> := (k: nat) => None

  predicate OfOneFile(r: Request) {
    match r
    case SetBit(_, offset, value) => offset >= 0 && 0 <= value <= 1
    case GetBit(_, offset) => offset >= 0
    case BitCount(_, range) => |range| == 2
    case _ => false
  }

  /** The result, and the content and cached length of the file afterwards. */
  ghost predicate Leaves(r: Request, data: seq<byte>, length: nat, result: int, data': seq<byte>, length': nat)
    requires OfOneFile(r)
  {
    match r
    case SetBit(_, offset, value) =>
      && result == BitCommands.BitReply(data, length, offset)
      && data' == BitCommands.SetData(data, length, offset, value)
      && length' == BitCommands.SetLength(data, length, offset, value)
    case GetBit(_, offset) =>
      && result == BitCommands.BitReply(data, length, offset) && data' == data && length' == length
    case BitCount(_, range) =>
      var (first, last) := BitCommands.Normalised(length, range[0], range[1]);
      && result == BitCount.Count(Window(data, first, Max(last - first + 1, 0))) && data' == data && length' == length
  }

  /** The recorded command of one file is run on the descriptor of this file. */
  method RunOne(cpu: Endianess, run: Parser.Run, dt: Desc) returns (result: int)
    requires dt.Valid()
    requires OfOneFile(run.request)
    modifies dt
    ensures Leaves(run.request, old(dt.data), old(dt.length), result, dt.data, dt.length)
  {
    hide BitCommands.BitAt, BitCount.Count, Window, BitCommands.Stores, BitCommands.Normalised;
    match run.request {
      case SetBit(_, offset, value) =>
        NothingStored(dt.data, dt.length, offset, value);
        result := BitCommands.SetBit(dt, offset, value);
      case GetBit(_, offset) =>
        result := BitCommands.GetBit(dt, offset);
      case BitCount(_, range) =>
        var (first, last) := BitCommands.Normalised(dt.length, range[0], range[1]);
        BitCommands.AllReadable(NO_ERROR, FILE_BUFFER_SIZE, Max(last - first + 1, 0), 0);
        result := BitCommands.BitCountCommand(cpu, dt, range[0], range[1], true, NO_ERROR);
    }
  }

  /** Where the byte cannot be read nothing is stored. */
  lemma NothingStored(data: seq<byte>, length: nat, offset: nat, value: nat)
    requires value <= 1
    ensures BitCommands.ReadFails(data, length, offset, true) ==>
              && BitCommands.BitReply(data, length, offset) == -1
              && BitCommands.SetData(data, length, offset, value) == data
              && BitCommands.SetLength(data, length, offset, value) == length
  {}

  /** The recorded BITOP is run on the descriptors of its files, of which dest may be one of the sources. */
  method RunBitOp(cpu: Endianess, run: Parser.Run, dest: Desc?, sources: seq<Desc?>) returns (result: int)
    requires run.request.Store? || run.request.Hooked?
    requires |sources| > 0 && (run.request.Store? ==> dest != null)
    requires run.request.Hooked? ==> run.request.hook != BitOp.NONE
    requires forall i :: 0 <= i < |sources| ==> BitOp.Length(sources[i]) <= 0x8000_0000
    requires forall i :: 0 <= i < |sources| && sources[i] != null ==> sources[i].Valid()
    modifies if run.request.Store? then {dest} else {}
    ensures var n := BitOp.MaxOf(old(BitOp.Lengths(sources)));
            var all := BitOp.Result(run.request.op, old(BitOp.Views(sources)), n);
            && (run.request.Store? ==>
                  && result == BitOp.Int32(n) && dest.length == Max(old(dest.length), n)
                  && dest.data == all + old(dest.data)[Min(n, |old(dest.data)|)..])
            && (run.request.Hooked? && run.request.hook == BitOp.COUNTOP ==> result == BitCount.Count(all))
  {
    hide BitOp.Result, BitOp.Seen, BitOp.FirstBroken, BitOp.MaxOf, BitCount.Count, BitOp.Int32;
    var errors: (nat, nat) -> Option<nat> := (i: nat, c: nat) => None;
    var fates := (c: nat) => Done;
    ghost var views, n := BitOp.Views(sources), BitOp.MaxOf(BitOp.Lengths(sources));
    BitOp.SeenWhole(views, errors, FILE_BUFFER_SIZE);
    BitOp.NoneBroken(fates, FILE_BUFFER_SIZE, n, 0);
    match run.request {
      case Store(op, _, _) =>
        result := BitOp.BitOpCommand(cpu, op, BitOp.NONE, dest, sources, true, errors, fates);
      case Hooked(op, hook, _) =>
        result := BitOp.BitOpCommand(cpu, op, hook, null, sources, true, errors, fates);
    }
  }

  /** What a request of the server has found: the slot of its own file, and its stream. */
  lemma Found(s: Server, r: Request, now: (nat, nat)) returns (slot: nat, stream: nat)
    requires Consistent(s) && Followed(r) && Settled(s, HashOf(r), now.0)
    requires TableSpec.Outcome(s.table, Asking(s, HashOf(r), Mode(r), now)) >= 0
    ensures var (f, w) := Serve(s, r, now);
            var p := AfterPrepare(s, HashOf(r), Mode(r), now);
            && w.prepare(0) == Got(slot) && slot < |p.table.descs| == |f.table.descs|
            && p.table.descs[slot].fd == f.table.descs[slot].fd == Some(stream)
            && stream < |p.table.streams| == |f.table.streams| && p.table.streams[stream] == HashOf(r)
            && w.length(slot) == p.table.descs[slot].length == |SeenBy(p, stream)|
            && (var effect := CommandOf(r)(SeenBy(p, stream), w.length(slot));
                && w.result == effect.result && f.table.descs[slot].length == effect.length
                && ((effect.write.Some? ==> effect.seeks) ==>
                      SeenBy(f, stream) == DataAfter(SeenBy(p, stream), effect)))
  {
    var hash := HashOf(r);
    var e, p := Asking(s, hash, Mode(r), now), AfterPrepare(s, hash, Mode(r), now);
    OutcomeInTable(s.table, e);
    PrepareLive(s, hash, Mode(r), now);
    PrepareConsistent(s, hash, Mode(r), now);
    slot := TableSpec.Outcome(s.table, e);
    stream := p.table.descs[slot].fd.value;
    hide AfterPrepare, Asking, TableSpec.Outcome, Settled, TableSpec.Lookup, TableSpec.Unlinked, Followed, HashOf, Mode,
         CommandOf, SeenBy, AllLive, Applied, DataAfter;
    RunIs(s, hash, Mode(r), now, CommandOf(r), p, slot, stream);
    var effect := CommandOf(r)(SeenBy(p, stream), p.table.descs[slot].length);
    hide Run;
    if effect.write.Some? ==> effect.seeks {
      AppliedIs(p, stream, effect);
    }
    FinishIs(p, stream, effect, slot);
  }

  /** The run that is recorded for a request of the server. */
  lemma Committed(r: Request, w: World)
    requires Followed(r) && w.prepare(0).Got?
    ensures var ran := Parser.RanFor(r, w);
            && Parser.AskedFor(r, w) == [(r.key, Mode(r))] && HashOf(r) == Keys.KeyHash(r.key)
            && (ran == [] <==> r.BitCount? && w.length(w.prepare(0).slot) == 0)
            && (ran != [] ==>
                  && |ran| == 1 && ran[0].dest == Some(w.prepare(0).slot) && ran[0].sources == []
                  && Meant(ran[0].request, r, w.length(w.prepare(0).slot)))
  {
    hide Keys.KeyHash;
  }

  /** What is run is what is asked for, a range with its bounds filled in. */
  ghost predicate Meant(run: Request, r: Request, length: nat) {
    match run
    case SetBit(_, _, _) => run == r
    case GetBit(_, _) => run == r
    case BitCount(key, range) => r.BitCount? && key == r.key && range == Filled(r.range, length)
    case _ => false
  }

  lemma LeavesEffect(run: Request, r: Request, data: seq<byte>, length: nat, result: int, data': seq<byte>,
                     length': nat)
    requires Followed(r) && Meant(run, r, length) && OfOneFile(run) && Leaves(run, data, length, result, data', length')
    ensures var effect := CommandOf(r)(data, length);
            && (effect.write.Some? ==> effect.seeks)
            && result == effect.result && data' == DataAfter(data, effect) && length' == effect.length
  {
    hide Keys.KeyHash, CommandOf, DataAfter, Leaves;
    match run
    case SetBit(_, _, _) => SetEffect(r, data, length, result, data', length');
    case GetBit(_, _) => GetEffect(r, data, length, result, data', length');
    case BitCount(_, _) => CountEffect(run, r, data, length, result, data', length');
  }

  lemma SetEffect(r: Request, data: seq<byte>, length: nat, result: int, data': seq<byte>, length': nat)
    requires Followed(r) && r.SetBit? && OfOneFile(r) && Leaves(r, data, length, result, data', length')
    ensures var effect := CommandOf(r)(data, length);
            && (effect.write.Some? ==> effect.seeks)
            && result == effect.result && data' == DataAfter(data, effect) && length' == effect.length
  {
    StoredByte(data, length, r);
    hide Keys.KeyHash, BitCommands.BitReply, BitCommands.PutBit, BitCommands.SetData, BitCommands.SetLength, DataAfter,
         BitCommands.Stores;
  }

  lemma GetEffect(r: Request, data: seq<byte>, length: nat, result: int, data': seq<byte>, length': nat)
    requires Followed(r) && r.GetBit? && OfOneFile(r) && Leaves(r, data, length, result, data', length')
    ensures var effect := CommandOf(r)(data, length);
            && (effect.write.Some? ==> effect.seeks)
            && result == effect.result && data' == DataAfter(data, effect) && length' == effect.length
  {
    hide Keys.KeyHash, BitCommands.BitReply;
  }

  lemma CountEffect(run: Request, r: Request, data: seq<byte>, length: nat, result: int, data': seq<byte>, length': nat)
    requires Followed(r) && r.BitCount? && run.BitCount? && run.range == Filled(r.range, length)
    requires Leaves(run, data, length, result, data', length')
    ensures var effect := CommandOf(r)(data, length);
            && (effect.write.Some? ==> effect.seeks)
            && result == effect.result && data' == DataAfter(data, effect) && length' == effect.length
  {
    hide Keys.KeyHash, BitCommands.Normalised, BitCount.Count, Window, Filled;
  }

  /** The slot has an open file that its stream sees so, and has cached this length. */
  ghost predicate OpenAs(s: Server, slot: nat, data: seq<byte>, length: nat) {
    && slot < |s.table.descs| && s.table.descs[slot].fd.Some? && s.table.descs[slot].fd.value < |s.table.streams|
    && data == SeenBy(s, s.table.descs[slot].fd.value) && length == s.table.descs[slot].length
  }

  /** The file that is found is the one of the key, and its cached length is its size. */
  lemma FoundOpen(s: Server, r: Request, now: (nat, nat), data: seq<byte>, length: nat)
    requires Consistent(s) && Followed(r) && Settled(s, HashOf(r), now.0) && Serve(s, r, now).1.prepare(0).Got?
    requires OpenAs(AfterPrepare(s, HashOf(r), Mode(r), now), Serve(s, r, now).1.prepare(0).slot, data, length)
    ensures var (f, w) := Serve(s, r, now);
            var effect := CommandOf(r)(data, length);
            && |data| == length == w.length(w.prepare(0).slot) && w.result == effect.result
            && ((effect.write.Some? ==> effect.seeks) ==>
                  OpenAs(f, w.prepare(0).slot, DataAfter(data, effect), effect.length))
  {
    var p, f, effect := AfterPrepare(s, HashOf(r), Mode(r), now), Serve(s, r, now).0, CommandOf(r)(data, length);
    hide *;
    GotIsFound(s, r, now);
    var slot, stream := Found(s, r, now);
    OpenBefore(p, slot, stream, data, length);
    if effect.write.Some? ==> effect.seeks {
      OpenAfter(f, slot, stream, DataAfter(data, effect), effect.length);
    }
  }

  lemma OpenBefore(p: Server, slot: nat, stream: nat, data: seq<byte>, length: nat)
    requires OpenAs(p, slot, data, length) && slot < |p.table.descs| && p.table.descs[slot].fd == Some(stream)
    ensures stream < |p.table.streams| && data == SeenBy(p, stream) && length == p.table.descs[slot].length
  {}

  lemma OpenAfter(f: Server, slot: nat, stream: nat, data: seq<byte>, length: nat)
    requires slot < |f.table.descs| && f.table.descs[slot].fd == Some(stream) && stream < |f.table.streams|
    requires data == SeenBy(f, stream) && length == f.table.descs[slot].length
    ensures OpenAs(f, slot, data, length)
  {}

  lemma GotIsFound(s: Server, r: Request, now: (nat, nat))
    requires Consistent(s) && Followed(r) && Serve(s, r, now).1.prepare(0).Got?
    ensures TableSpec.Outcome(s.table, Asking(s, HashOf(r), Mode(r), now)) >= 0
  {
    hide TableSpec.Outcome, Asking, HashOf, Mode, CommandOf, AfterPrepare, SeenBy, Applied, Finish, AllLive, OneWaits;
  }

  lemma Served(s: Server, r: Request, now: (nat, nat), run: Request, data: seq<byte>, length: nat, result: int,
               data': seq<byte>, length': nat)
    requires Consistent(s) && Followed(r) && Settled(s, HashOf(r), now.0) && Serve(s, r, now).1.prepare(0).Got?
    requires OpenAs(AfterPrepare(s, HashOf(r), Mode(r), now), Serve(s, r, now).1.prepare(0).slot, data, length)
    requires Meant(run, r, length) && OfOneFile(run) && Leaves(run, data, length, result, data', length')
    ensures var (f, w) := Serve(s, r, now);
            result == w.result && OpenAs(f, w.prepare(0).slot, data', length')
  {
    hide *;
    FoundOpen(s, r, now, data, length);
    LeavesEffect(run, r, data, length, result, data', length');
  }

  /** The command that the parser records for a request of the server, run on the file as the stream of its slot
      sees it, gives the number that the server answers with, and leaves the file and the length as the server
      leaves them. */
  method RunIsServed(cpu: Endianess, s: Server, r: Request, now: (nat, nat), run: Parser.Run, dt: Desc)
    returns (result: int)
    requires Consistent(s) && Followed(r) && Settled(s, HashOf(r), now.0)
    requires Parser.RanFor(r, Serve(s, r, now).1) == [run] && run.dest.Some?
    requires OpenAs(AfterPrepare(s, HashOf(r), Mode(r), now), run.dest.value, dt.data, dt.length)
    modifies dt
    ensures result == Serve(s, r, now).1.result && OpenAs(Serve(s, r, now).0, run.dest.value, dt.data, dt.length)
  {
    ghost var data, length := dt.data, dt.length;
    ghost var w := Serve(s, r, now).1;
    RanOnGot(r, w);
    Committed(r, w);
    FoundOpen(s, r, now, data, length);
    MeantOne(run.request, r, length);
    hide *;
    result := RunOne(cpu, run, dt);
    Served(s, r, now, run.request, data, length, result, dt.data, dt.length);
  }

  lemma RanOnGot(r: Request, w: World)
    requires Followed(r) && Parser.RanFor(r, w) != []
    ensures w.prepare(0).Got?
  {
    hide Keys.KeyHash;
  }

  lemma MeantOne(run: Request, r: Request, length: nat)
    requires Followed(r) && Meant(run, r, length)
    ensures OfOneFile(run)
  {
    hide Keys.KeyHash;
  }

  /** The byte that SETBIT writes makes the file of SETBIT. */
  lemma StoredByte(data: seq<byte>, length: nat, r: Request)
    requires Followed(r) && r.SetBit?
    ensures var effect := CommandOf(r)(data, length);
            && (effect.write.Some? ==> effect.seeks)
            && DataAfter(data, effect) == BitCommands.SetData(data, length, r.offset, r.value)
  {
    hide Keys.KeyHash, BitCommands.BitReply, BitCommands.PutBit, Written;
  }
}
