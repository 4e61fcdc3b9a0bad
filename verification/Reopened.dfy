/** Files that are opened again while a stream that no lookup finds any more has a byte of them in its buffer
    (src/file.c:155-165, 231-250): when the answers are right nevertheless, and when they are not. */
module Reopened {
  import opened Memory
  import opened Wrappers
  import opened TableSpec
  import opened FileView
  import opened ParserSpec
  import opened Server
  import BitCommands
  import Keys

  /** The byte that SETBIT key 0 1 writes to an empty file. */
  const FIRST_BIT := Unwritten(0, 0x80)

  /** The byte that waits has the bit of this offset as the file on disk has it. */
  predicate Agrees(data: seq<byte>, u: Unwritten, offset: nat) {
    u.offset == offset / 8 ==> BitCommands.BitIn(u.value, 7 - offset % 8) == BitCommands.BitAt(data, offset)
  }

  lemma BitWith(data: seq<byte>, u: Unwritten, offset: nat)
    ensures BitCommands.BitAt(WithByte(data, u), offset) == BitCommands.BitAt(data, offset) <==> Agrees(data, u, offset)
  {
    hide BitCommands.BitIn;
    WrittenAt(data, [u.value], u.offset, offset / 8);
  }

  /** A new stream sees the file as it is on disk. */
  lemma NewStream(s: Server, hash: nat, mode: nat, now: (nat, nat))
    requires Consistent(s) && mode <= 1 && Lookup(s.table, hash).None?
    ensures var (e, c, p) :=
              (Asking(s, hash, mode, now), Closed(s, hash, now.0), AfterPrepare(s, hash, mode, now));
            && -2 <= Outcome(s.table, e) < |p.table.descs| && p.table.idx <= |p.table.descs|
            && (Outcome(s.table, e) == -2 ==> Content(c.disk, hash) == [] && mode == 1)
            && (Outcome(s.table, e) >= 0 ==>
                  && p.table.descs[Outcome(s.table, e)].fd == Some(|s.table.streams|)
                  && p.table.descs[Outcome(s.table, e)].length == |Content(c.disk, hash)|
                  && |s.table.streams| < |p.table.streams|
                  && SeenBy(p, |s.table.streams|) == Content(c.disk, hash))
  {
    var e := Asking(s, hash, mode, now);
    FilesAfter(s, hash, mode, now);
    StreamsAfter(s.table, e);
    OutcomeInTable(s.table, e);
    hide Closed, Step, Outcome, Lookup, AllLive, Unlinked, WithByte;
  }

  lemma CommandBit(r: Request, data: seq<byte>)
    requires Followed(r) && (r.SetBit? || r.GetBit?)
    ensures CommandOf(r)(data, |data|).result == BitCommands.BitAt(data, r.offset)
    ensures data == [] ==> BitCommands.BitAt(data, r.offset) == 0
  {
    BitCommands.ReadBitAt(data, r.offset);
    hide BitCommands.BitAt, BitCommands.PutBit, BitCommands.Stores, Keys.KeyHash;
  }

  /** A file that is opened anew is read as it is on disk. */
  lemma OpenedResult(s: Server, r: Request, now: (nat, nat))
    requires Consistent(s) && Followed(r) && (r.SetBit? || r.GetBit?)
    requires Lookup(s.table, HashOf(r)).None? && Outcome(s.table, Asking(s, HashOf(r), Mode(r), now)) != -1
    ensures var (c, w) := (Closed(s, HashOf(r), now.0), Serve(s, r, now).1);
            var bit := BitCommands.BitAt(Content(c.disk, HashOf(r)), r.offset);
            && (w.prepare(0).Got? ==> w.result == bit)
            && (w.prepare(0).NoFile? ==> bit == 0) && !w.prepare(0).Failed? && (r.SetBit? ==> w.prepare(0).Got?)
  {
    var hash := HashOf(r);
    NewStream(s, hash, Mode(r), now);
    CommandBit(r, Content(Closed(s, hash, now.0).disk, hash));
    hide Closed, AfterPrepare, Asking, Outcome, Lookup, BitCommands.BitAt, CommandOf, Keys.KeyHash, OneWaits, AllLive,
         Unlinked, SeenBy, Content;
    var outcome := Outcome(s.table, Asking(s, hash, Mode(r), now));
    if outcome >= 0 {
      hide Run;
      RunIs(s, hash, Mode(r), now, CommandOf(r), AfterPrepare(s, hash, Mode(r), now), outcome, |s.table.streams|);
    }
  }

  /** A SETBIT or GETBIT that opens a file is answered with the bit on disk, and this is right if and only if the
      bytes of the file that wait in other streams agree with it on this bit. */
  lemma ReopenedExactly(s: Server, m: map<nat, Bitmap>, r: Request, now: (nat, nat))
    requires Consistent(s) && Refines(s, m) && Followed(r) && (r.SetBit? || r.GetBit?)
    requires Lookup(s.table, HashOf(r)).None? && Outcome(s.table, Asking(s, HashOf(r), Mode(r), now)) != -1
    ensures var (c, w) := (Closed(s, HashOf(r), now.0), Serve(s, r, now).1);
            var data := Content(c.disk, HashOf(r));
            && ReplyTo(r, w) == Some(Digits(BitCommands.BitAt(data, r.offset)) + "\n")
            && (ReplyTo(r, w) == Some(SpecReply(m, r))
                <==> forall i :: i in c.unwritten && i < |c.table.streams| && c.table.streams[i] == HashOf(r) ==>
                       Agrees(data, c.unwritten[i], r.offset))
  {
    var hash := HashOf(r);
    var c, w := Closed(s, hash, now.0), Serve(s, r, now).1;
    OpenedResult(s, r, now);
    CloseKeeps(s, hash, now.0, m);
    var data := Content(c.disk, hash);
    var bit := BitCommands.BitAt(data, r.offset);
    BitCommands.BitRange(data, r.offset);
    hide Closed, Serve, Outcome, Asking, Lookup, BitCommands.BitAt, Keys.KeyHash, AllLive, ReplyTo, Digits, Agrees;
    AnswerOf(r, w, bit);
    SpecBit(c, m, r);
    DigitsApart();
  }

  /** What the bitmap says about a bit of a file on disk. */
  lemma SpecBit(c: Server, m: map<nat, Bitmap>, r: Request)
    requires OneWaits(c) && Refines(c, m) && Followed(r) && (r.SetBit? || r.GetBit?)
    ensures SpecResult(BitmapOf(m, HashOf(r)), r) <= 1
    ensures SpecResult(BitmapOf(m, HashOf(r)), r) == BitCommands.BitAt(Content(c.disk, HashOf(r)), r.offset)
       <==> forall i :: i in c.unwritten && i < |c.table.streams| && c.table.streams[i] == HashOf(r) ==>
              Agrees(Content(c.disk, HashOf(r)), c.unwritten[i], r.offset)
  {
    hide BitCommands.BitAt, Keys.KeyHash, Agrees, WithByte;
    var hash := HashOf(r);
    var data := Content(c.disk, hash);
    if Quiet(c, hash) {
      assert StandsFor(data, BitmapOf(m, hash));
    } else {
      var i :| i in c.unwritten && i < |c.table.streams| && c.table.streams[i] == hash;
      assert StandsFor(WithByte(data, c.unwritten[i]), BitmapOf(m, hash));
      BitWith(data, c.unwritten[i], r.offset);
    }
  }

  lemma DigitsApart()
    ensures Digits(0) + "\n" == "0\n" && Digits(1) + "\n" == "1\n"
    ensures Digits(0) + "\n" != Digits(1) + "\n"
  {
    assert "0\n"[0] != "1\n"[0];
  }

  // ---------- A run that goes wrong ----------

  /** The state in which a new file has just been opened. */
  function Created(s: Server, hash: nat, now: nat): Server
    requires s.table.idx <= |s.table.descs| && FirstFree(s.table.descs, s.table.idx) < |s.table.descs|
  {
    var free := FirstFree(s.table.descs, s.table.idx);
    Server(Table(s.table.descs[free := Slot(hash, 0, 1, now, 1, None, None, Some(|s.table.streams|))],
                 s.table.xxtable[Bucket(hash) := free], free, s.table.streams + [hash]),
           s.disk[hash := []], s.unwritten)
  }

  /** The table has a free slot, and there is no such file. */
  ghost predicate CanCreate(s: Server, hash: nat) {
    && Unlinked(s.table) && hash != 0 && Lookup(s.table, hash).None? && hash !in s.disk
    && (var free := FirstFree(s.table.descs, s.table.idx);
        free < |s.table.descs| && s.table.descs[free] == FREE)
    && |s.table.streams| !in s.unwritten
  }

  lemma Creates(s: Server, hash: nat, now: (nat, nat))
    requires CanCreate(s, hash)
    ensures Closed(s, hash, now.0) == s
    ensures Outcome(s.table, Asking(s, hash, 0, now)) == FirstFree(s.table.descs, s.table.idx)
    ensures AfterPrepare(s, hash, 0, now) == Created(s, hash, now.1)
  {
    hide Bucket, FirstFree, Victim;
    assert Room(s.table, now.0).1;
  }

  /** A new file to which a byte has been written: it is still in the buffer. */
  function Waiting(s: Server, hash: nat, now: nat, u: Unwritten): Server
    requires s.table.idx <= |s.table.descs| && FirstFree(s.table.descs, s.table.idx) < |s.table.descs|
  {
    var free := FirstFree(s.table.descs, s.table.idx);
    Server(Table(s.table.descs[free := Slot(hash, u.offset + 1, 1, now, 0, None, None, Some(|s.table.streams|))],
                 s.table.xxtable[Bucket(hash) := free], free, s.table.streams + [hash]),
           s.disk[hash := []], s.unwritten[|s.table.streams| := u])
  }

  lemma Buffers(s: Server, hash: nat, now: nat, u: Unwritten)
    requires CanCreate(s, hash)
    ensures var (c, free, own) := (Created(s, hash, now), FirstFree(s.table.descs, s.table.idx), |s.table.streams|);
            && c.table.descs[free].length == 0 && c.table.descs[free].fd == Some(own) && SeenBy(c, own) == []
            && Finish(Applied(c, own, Effect(0, true, Some(u), u.offset + 1)), free, u.offset + 1)
               == Waiting(s, hash, now, u)
  {
    hide Bucket, FirstFree, Victim, Lookup;
  }

  /** On an empty file the command writes this byte. */
  ghost predicate Writes(command: Command, u: Unwritten) {
    command([], 0) == Effect(0, true, Some(u), u.offset + 1)
  }

  lemma RunWaits(s: Server, hash: nat, now: (nat, nat), command: Command, u: Unwritten)
    requires CanCreate(s, hash) && Writes(command, u)
    ensures Run(s, hash, 0, now, command).0 == Waiting(s, hash, now.1, u)
  {
    var t, free, own := s.table, FirstFree(s.table.descs, s.table.idx), |s.table.streams|;
    var c := Created(s, hash, now.1);
    assert Unlinked(t) && c.table.idx <= |c.table.descs| == |t.descs| && own < |c.table.streams|;
    assert command([], 0) == Effect(0, true, Some(u), u.offset + 1);
    hide *;
    Creates(s, hash, now);
    Buffers(s, hash, now.1, u);
    RunIs(s, hash, 0, now, command, c, free, own);
  }

  lemma FirstBitOf()
    ensures Writes(SetCommand(0, 1), FIRST_BIT)
  {}

  lemma ServeSetsBit(s: Server, key: seq<byte>, now: (nat, nat))
    requires Unlinked(s.table) && Keys.KeyHash(key) != 0
    ensures Serve(s, SetBit(key, 0, 1), now) == Run(s, Keys.KeyHash(key), 0, now, SetCommand(0, 1))
  {
    hide Keys.KeyHash, Run, SetCommand;
  }

  /** SETBIT key 0 1 on a new file. */
  lemma SetsFirstBit(s: Server, key: seq<byte>, now: (nat, nat))
    requires CanCreate(s, Keys.KeyHash(key))
    ensures Serve(s, SetBit(key, 0, 1), now).0 == Waiting(s, Keys.KeyHash(key), now.1, FIRST_BIT)
  {
    assert Unlinked(s.table) && Keys.KeyHash(key) != 0;
    FirstBitOf();
    hide *;
    RunWaits(s, Keys.KeyHash(key), now, SetCommand(0, 1), FIRST_BIT);
    ServeSetsBit(s, key, now);
  }

  /** Two keys in one bucket, on a server that has just started: the first bit of each is set. Then the file of
      the first cannot be found, its byte is still in the buffer of its stream, and on disk it is empty. */
  ghost predicate FirstHidden(s: Server, g: nat, h: nat) {
    && CanOpen(s) && Lookup(s.table, g).None? && g in s.disk && s.disk[g] == []
    && s.unwritten == map[0 := FIRST_BIT, 1 := FIRST_BIT] && s.table.streams == [g, h]
  }

  ghost predicate CanOpen(s: Server) {
    Unlinked(s.table) && FirstFree(s.table.descs, s.table.idx) < |s.table.descs|
  }

  lemma FirstWaits(size: nat, g: nat, h: nat, now: nat, u: Unwritten)
    requires size >= 3 && g != h && g != 0 && h != 0 && Bucket(g) == Bucket(h)
    ensures var s := Started(size, map[]);
            && CanCreate(s, g)
            && (var t := Waiting(s, g, now, u);
                && CanCreate(t, h) && t.unwritten == map[0 := u] && t.table.streams == [g] && t.disk == map[g := []]
                && t.table.idx == 0 && FirstFree(t.table.descs, 0) == 1 && t.table.descs[2] == FREE
                && |t.table.descs| == size && t.table.descs[0].hash == g)
  {
    hide Bucket, Victim;
    var s := Started(size, map[]);
    assert FirstFree(s.table.descs, 0) == 0;
    var t := Waiting(s, g, now, u);
    assert t.table.descs[1] == FREE;
    assert FirstFree(t.table.descs, 0) == FirstFree(t.table.descs, 1) == 1;
  }

  lemma SecondHides(t: Server, g: nat, h: nat, now: nat, u: Unwritten)
    requires g != h && g != 0 && h != 0 && Bucket(g) == Bucket(h) && CanCreate(t, h)
    requires t.unwritten == map[0 := u] && t.table.streams == [g] && t.disk == map[g := []]
    requires |t.table.descs| >= 3 && t.table.idx == 0 && FirstFree(t.table.descs, 0) == 1 && t.table.descs[2] == FREE
    requires t.table.descs[0].hash == g && u == FIRST_BIT
    ensures FirstHidden(Waiting(t, h, now, u), g, h)
  {
    hide Bucket, Victim;
    var w := Waiting(t, h, now, u);
    assert FirstFree(w.table.descs, 1) == FirstFree(w.table.descs, 2) == 2;
  }

  /** The first bits of two keys are set, and the first key is asked for its bit. */
  ghost predicate AnswersOld(size: nat, first: seq<byte>, second: seq<byte>, times: seq<(nat, nat)>)
    requires |times| == 3
  {
    var (a, b) := (SetBit(first, 0, 1), SetBit(second, 0, 1));
    var (get, s) := (GetBit(first, 0), Started(size, map[]));
    && Followed(a) && Followed(b) && Followed(get)
    && (var t := Serve(s, a, times[0]).0;
        && Unlinked(t.table)
        && (var u := Serve(t, b, times[1]).0;
            Unlinked(u.table) && ReplyTo(get, Serve(u, get, times[2]).1) == Some("0\n")))
    && SpecReply(SpecStep(SpecStep(map[], a), b), get) == "1\n"
  }

  lemma SpecSaysOne(first: seq<byte>, second: seq<byte>)
    requires Keys.KeyHash(first) != 0 && Keys.KeyHash(second) != 0 && Keys.KeyHash(first) != Keys.KeyHash(second)
    ensures SpecReply(SpecStep(SpecStep(map[], SetBit(first, 0, 1)), SetBit(second, 0, 1)), GetBit(first, 0)) == "1\n"
  {
    hide Keys.KeyHash, Digits;
    DigitsApart();
    var m := SpecStep(map[], SetBit(first, 0, 1));
    assert BitmapOf(m, Keys.KeyHash(first)).ones == {0};
    var n := SpecStep(m, SetBit(second, 0, 1));
    assert BitmapOf(n, Keys.KeyHash(first)) == BitmapOf(m, Keys.KeyHash(first));
  }

  /** With the first file hidden, its bit is read from disk. */
  lemma HiddenReadsZero(s: Server, m: map<nat, Bitmap>, first: seq<byte>, h: nat, now: (nat, nat))
    requires Consistent(s) && Refines(s, m) && Keys.KeyHash(first) != 0 && FirstHidden(s, Keys.KeyHash(first), h)
    ensures ReplyTo(GetBit(first, 0), Serve(s, GetBit(first, 0), now).1) == Some("0\n")
  {
    var g, r := Keys.KeyHash(first), GetBit(first, 0);
    hide Keys.KeyHash, Bucket, Victim, FirstFree, BitCommands.BitAt, Serve, Digits, Lookup;
    assert Closed(s, g, now.0) == s && Asking(s, g, 1, now).disk == Disk(true, Regular(0), true);
    assert Outcome(s.table, Asking(s, g, 1, now)) >= 0;
    BitCommands.ReadBitAt([], 0);
    hide Outcome, Asking, Closed, Consistent;
    ReopenedExactly(s, m, r, now);
    DigitsApart();
  }

  /** Setting a bit of a new file that nothing waits for keeps the server consistent. */
  lemma StillRefines(s: Server, m: map<nat, Bitmap>, key: seq<byte>, now: (nat, nat))
    requires Consistent(s) && Refines(s, m) && CanCreate(s, Keys.KeyHash(key)) && Quiet(s, Keys.KeyHash(key))
    ensures Followed(SetBit(key, 0, 1))
    ensures Consistent(Waiting(s, Keys.KeyHash(key), now.1, FIRST_BIT))
    ensures Refines(Waiting(s, Keys.KeyHash(key), now.1, FIRST_BIT), SpecStep(m, SetBit(key, 0, 1)))
  {
    Creates(s, Keys.KeyHash(key), now);
    SetsFirstBit(s, key, now);
    hide Keys.KeyHash, Serve, Outcome, Asking, Closed, AfterPrepare, Lookup, Waiting, SpecStep, Refines,
         FirstFree, Victim;
    ServeRefines(s, m, SetBit(key, 0, 1), now);
  }

  predicate Collide(first: seq<byte>, second: seq<byte>) {
    var (g, h) := (Keys.KeyHash(first), Keys.KeyHash(second));
    g != h && g != 0 && h != 0 && Bucket(g) == Bucket(h)
  }

  /** One file is open; its only byte waits. */
  ghost predicate OneWaiting(t: Server, g: nat, size: nat) {
    && t.unwritten == map[0 := FIRST_BIT] && t.table.streams == [g] && t.disk == map[g := []]
    && |t.table.descs| == size >= 3 && t.table.idx == 0 && FirstFree(t.table.descs, 0) == 1
    && t.table.descs[0].hash == g && t.table.descs[2] == FREE
  }

  /** After the first request. */
  ghost predicate FirstDone(t: Server, size: nat, first: seq<byte>, second: seq<byte>, time: (nat, nat)) {
    var (a, s) := (SetBit(first, 0, 1), Started(size, map[]));
    && Followed(a) && Unlinked(s.table) && t == Serve(s, a, time).0
    && Consistent(t) && Refines(t, SpecStep(map[], a))
    && CanCreate(t, Keys.KeyHash(second)) && OneWaiting(t, Keys.KeyHash(first), size)
  }

  lemma DoFirst(size: nat, first: seq<byte>, second: seq<byte>, time: (nat, nat)) returns (t: Server)
    requires size >= 3 && Collide(first, second)
    ensures FirstDone(t, size, first, second, time)
  {
    var s := Started(size, map[]);
    FirstWaits(size, Keys.KeyHash(first), Keys.KeyHash(second), time.1, FIRST_BIT);
    NothingStandsFor();
    StartedRefines(size, map[], map[]);
    assert Unlinked(s.table) && Quiet(s, Keys.KeyHash(first));
    t := Waiting(s, Keys.KeyHash(first), time.1, FIRST_BIT);
    hide Keys.KeyHash, Bucket, Serve, Waiting, CanCreate, SpecStep, Refines, Consistent, Quiet, FirstFree, Started;
    StillRefines(s, map[], first, time);
    SetsFirstBit(s, first, time);
  }

  /** After the second. */
  ghost predicate SecondDone(w: Server, t: Server, first: seq<byte>, second: seq<byte>, time: (nat, nat)) {
    var (a, b) := (SetBit(first, 0, 1), SetBit(second, 0, 1));
    && Followed(a) && Followed(b) && Unlinked(t.table) && w == Serve(t, b, time).0
    && Consistent(w) && Refines(w, SpecStep(SpecStep(map[], a), b))
    && FirstHidden(w, Keys.KeyHash(first), Keys.KeyHash(second))
  }

  lemma DoSecond(t: Server, size: nat, first: seq<byte>, second: seq<byte>, before: (nat, nat), time: (nat, nat))
    returns (w: Server)
    requires Collide(first, second) && FirstDone(t, size, first, second, before)
    ensures SecondDone(w, t, first, second, time)
  {
    SecondHides(t, Keys.KeyHash(first), Keys.KeyHash(second), time.1, FIRST_BIT);
    w := Waiting(t, Keys.KeyHash(second), time.1, FIRST_BIT);
    assert Quiet(t, Keys.KeyHash(second)) && Unlinked(t.table);
    hide Keys.KeyHash, Bucket, Serve, Waiting, CanCreate, FirstHidden, Started, SpecStep, Refines, Consistent, Quiet,
         FirstFree, OneWaiting;
    StillRefines(t, SpecStep(map[], SetBit(first, 0, 1)), second, time);
    SetsFirstBit(t, second, time);
  }

  lemma ThirdAnswered(size: nat, first: seq<byte>, second: seq<byte>, times: seq<(nat, nat)>, t: Server, w: Server)
    requires |times| == 3 && FirstDone(t, size, first, second, times[0]) && SecondDone(w, t, first, second, times[1])
    requires Collide(first, second)
    ensures AnswersOld(size, first, second, times)
  {
    hide Keys.KeyHash, Bucket, Serve, CanCreate, FirstHidden, Started, SpecStep, Refines, Consistent, SpecReply,
         ReplyTo, Unlinked, OneWaiting;
    HiddenReadsZero(w, SpecStep(SpecStep(map[], SetBit(first, 0, 1)), SetBit(second, 0, 1)), first,
                    Keys.KeyHash(second), times[2]);
    assert Unlinked(w.table) by {
      ConsistentUnlinked(w);
    }
    SpecSaysOne(first, second);
  }

  lemma ConsistentUnlinked(s: Server)
    requires Consistent(s)
    ensures Unlinked(s.table)
  {
    hide OneWaits, AllLive, Unlinked;
  }

  /** Whenever two keys share a bucket, a server that has just started without files answers so. */
  lemma CollidingAnswersOld(size: nat, first: seq<byte>, second: seq<byte>, times: seq<(nat, nat)>)
    requires size >= 3 && Collide(first, second) && |times| == 3
    ensures AnswersOld(size, first, second, times)
  {
    hide *;
    var t := DoFirst(size, first, second, times[0]);
    var w := DoSecond(t, size, first, second, times[0], times[1]);
    ThirdAnswered(size, first, second, times, t, w);
  }

  /** SETBIT aao4 0 1, SETBIT aaux 0 1 and then GETBIT aao4 0: the answer is 0. */
  lemma StaleExample(times: seq<(nat, nat)>)
    requires |times| == 3
    ensures AnswersOld(DESC_TABLE_SIZE, Keys.FIRST_KEY, Keys.SECOND_KEY, times)
  {
    hide Keys.KeyHash, AnswersOld;
    Keys.CollidingHashes();
    CollidingAnswersOld(DESC_TABLE_SIZE, Keys.FIRST_KEY, Keys.SECOND_KEY, times);
  }
}
