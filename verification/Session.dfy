/** A whole session, from the bytes received to the bytes sent: the connection of src/net.c running the
    parser of src/parser.c. */
module Session {
  import opened Memory
  import opened Framing
  import opened Wrappers
  import opened ConnectionSpec
  import opened ParserSpec
  import CommandHashes
  import Connection
  import FreshServer
  import Parser
  import Server
  import Splitter
  import TableSpec
  import Xxh64

  /** Text as it is sent. */
  function Bytes(t: string): (b: seq<byte>)
    ensures |b| == |t|
  {
    seq(|t|, i requires 0 <= i < |t| => ToByte(t[i] as int % 256))
  }

  /** What is sent for a line when the files and commands behave as `w` says. */
  function Answer(line: seq<byte>, atol: seq<byte> -> int, w: World): seq<byte> {
    match ReplyTo(Parse(line, atol), w)
    case None => []
    case Some(text) => Bytes(text)
  }

  /** No answer outgrows the 64 bytes that a request has for it at first. */
  lemma AnswerFits(line: seq<byte>, atol: seq<byte> -> int, w: World)
    requires w.result < RESULT_LIMIT
    ensures |Answer(line, atol, w)| <= 36
  {
    hide Parse, ReplyTo, Bytes;
    ReplyFits(Parse(line, atol), w);
  }

  /** work_cb: the worker parses and runs the line and collects what it replies. Whether or not the reply
      buffer could grow, it does not have to: the request is never out of memory. */
  method Work(c: Connection.Connection, cpu: Endianess, line: seq<byte>, atol: seq<byte> -> int, w: World, grown: bool)
    requires c.Valid() && c.work.Queued? && c.work.line == line && w.result < RESULT_LIMIT
    modifies c`work
    ensures c.Valid() && c.State() == Step(old(c.State()), Execute(Answer(line, atol, w), false))
  {
    hide Parse, ReplyTo, Step, Bytes;
    AnswerFits(line, atol, w);
    var job := new Parser.Execution(cpu, atol, w);
    job.ParseAndExecute(line);
    var b := new Connection.ReplyBuffer();
    if |job.replies| > 0 {
      b.Append(Bytes(job.replies[0]), grown);
    }
    assert b.Text() == Answer(line, atol, w) && !b.oom;
    c.Execute(b);
  }

  ghost predicate OneLine(b: seq<byte>) {
    |b| > 0 && b[|b| - 1] == NEWLINE && NEWLINE !in b[..|b| - 1]
  }

  lemma BytesOfLine(t: string)
    requires IsLine(t)
    ensures OneLine(Bytes(t))
  {
    NewlineValue();
    hide Val, ToByte;
    var b := Bytes(t);
    assert b[|b| - 1] == ToByte(10);
    forall i | 0 <= i < |b| - 1
      ensures b[i] != NEWLINE
    {
      assert Val(b[i]) == t[i] as int;
    }
  }

  lemma NewlineValue()
    ensures ToByte(10) == NEWLINE && Val(NEWLINE) == 10
  {}

  lemma AnswerIsLine(line: seq<byte>, atol: seq<byte> -> int, w: World)
    ensures Answer(line, atol, w) == [] <==> Unimplemented(line)
    ensures !Unimplemented(line) ==> OneLine(Answer(line, atol, w))
  {
    OneReply(line, atol, w);
    hide Parse, ReplyTo, IsLine, Unimplemented, OneLine, Bytes;
    if !Unimplemented(line) {
      BytesOfLine(ReplyTo(Parse(line, atol), w).value);
      Nonempty(ReplyTo(Parse(line, atol), w).value);
    }
  }

  lemma Nonempty(t: string)
    requires IsLine(t)
    ensures Bytes(t) != []
  {}

  /** Everything sent. */
  function Sent(replies: seq<Reply>): seq<byte> {
    if replies == [] then [] else replies[0].text + Sent(replies[1..])
  }

  ghost predicate LinesOnly(replies: seq<Reply>) {
    forall k :: 0 <= k < |replies| ==> OneLine(replies[k].text)
  }

  /** The lines the replies consist of. */
  ghost function Bodies(replies: seq<Reply>): (s: seq<seq<byte>>)
    requires LinesOnly(replies)
    ensures |s| == |replies|
    ensures forall k :: 0 <= k < |s| ==> s[k] == replies[k].text[..|replies[k].text| - 1]
  {
    seq(|replies|, k requires 0 <= k < |replies| && OneLine(replies[k].text) =>
      replies[k].text[..|replies[k].text| - 1])
  }

  lemma {:induction false} SentIsFlat(replies: seq<Reply>)
    requires LinesOnly(replies)
    ensures Sent(replies) == Flat(Bodies(replies))
  {
    if replies == [] {
    } else {
      SentIsFlat(replies[1..]);
      assert Bodies(replies)[1..] == Bodies(replies[1..]);
      var t := replies[0].text;
      assert t == t[..|t| - 1] + [NEWLINE];
    }
  }

  // ---------- When a line is left waiting ----------

  /** An event of a connection whose lines are run by this parser: `worlds` tells how files and commands behave
      for the k-th line. Nothing is cancelled. */
  predicate ByParser(c: Conn, e: Event, atol: seq<byte> -> int, worlds: (nat, seq<byte>) -> World) {
    match e
    case Execute(reply, oom) =>
      c.work.Queued? && !oom && reply == Answer(c.work.line, atol, worlds(c.work.number, c.work.line))
    case WorkDone(cancelled, _) => !cancelled
    case _ => true
  }

  predicate AllByParser(c: Conn, events: seq<Event>, atol: seq<byte> -> int, worlds: (nat, seq<byte>) -> World)
    decreases |events|
  {
    events != [] ==>
      && c.rcap > 0 && Enabled(c, events[0]) && ByParser(c, events[0], atol, worlds)
      && AllByParser(Step(c, events[0]), events[1..], atol, worlds)
  }

  /** The executed request holds the answer to its line. */
  ghost predicate Holds(c: Conn, atol: seq<byte> -> int, worlds: (nat, seq<byte>) -> World) {
    c.work.Executed? ==>
      && !c.work.oom && c.work.number < |c.lines|
      && c.work.reply == Answer(c.lines[c.work.number], atol, worlds(c.work.number, c.lines[c.work.number]))
  }

  lemma StepHolds(c: Conn, e: Event, atol: seq<byte> -> int, worlds: (nat, seq<byte>) -> World)
    requires Inv(c) && Enabled(c, e) && ByParser(c, e, atol, worlds) && Holds(c, atol, worlds)
    ensures Holds(Step(c, e), atol, worlds)
  {
    hide Lines, Flat, IndexOf, HasLine, Grow, Answer, OnRead, DispatchFirst;
    if e.Read? {
      ReadLeavesWork(c, e);
    } else if e.WriteDone? {
      DispatchLeavesWork(Free(c), e.allocation);
    }
  }

  /** Dispatching or receiving does not execute anything. */
  lemma DispatchLeavesWork(c: Conn, allocation: Allocation)
    requires c.work.NoWork?
    ensures !DispatchFirst(c, allocation).work.Executed?
  {
    hide IndexOf, HasLine;
  }

  lemma ReadLeavesWork(c: Conn, e: Event)
    requires Inv(c) && Enabled(c, e) && e.Read?
    ensures Step(c, e).work.Executed? ==> Step(c, e).work == c.work && Step(c, e).lines == c.lines
  {
    hide Lines, Flat, IndexOf, HasLine, Grow, DispatchFirst;
    var need := |c.rbuf| + |e.chunk|;
    var d := c.(received := c.received + e.chunk, rbuf := c.rbuf + e.chunk,
                rcap := if need > c.rcap then Grow(c.rcap, need) else c.rcap);
    if !c.busy {
      DispatchLeavesWork(d, e.allocation);
    }
  }

  lemma {:induction false} RunHolds(c: Conn, events: seq<Event>, atol: seq<byte> -> int,
                                    worlds: (nat, seq<byte>) -> World)
    requires Inv(c) && AllByParser(c, events, atol, worlds) && Holds(c, atol, worlds)
    ensures AllEnabled(c, events) && Inv(After(c, events)) && Holds(After(c, events), atol, worlds)
    decreases |events|
  {
    hide Step, Inv, Enabled, ByParser, Holds;
    if events == [] {
    } else {
      StepKeeps(c, events[0]);
      StepHolds(c, events[0], atol, worlds);
      RunHolds(Step(c, events[0]), events[1..], atol, worlds);
    }
  }

  /** In every run, a complete line is left waiting by an event if and only if the line that has just been run
      is one of the commands that are not implemented (or it was waiting and nothing has arrived). */
  lemma WaitsExactly(events: seq<Event>, e: Event, atol: seq<byte> -> int, worlds: (nat, seq<byte>) -> World)
    requires AllByParser(ACCEPTED, events, atol, worlds)
    requires AllEnabled(ACCEPTED, events) && Enabled(After(ACCEPTED, events), e)
    requires ByParser(After(ACCEPTED, events), e, atol, worlds)
    ensures var c := After(ACCEPTED, events);
            && c.rcap > 0
            && (e.WorkDone? ==> c.work.Executed? && c.work.number < |c.lines|)
            && (Stalled(Step(c, e))
                <==> (e.WorkDone? && !c.closing && HasLine(c.rbuf) && Unimplemented(c.lines[c.work.number]))
                     || (e.ReadNothing? && Stalled(c)))
  {
    hide *;
    AcceptedInv();
    AcceptedHolds(atol, worlds);
    RunHolds(ACCEPTED, events, atol, worlds);
    StepWaits(After(ACCEPTED, events), e, atol, worlds);
  }

  lemma AcceptedHolds(atol: seq<byte> -> int, worlds: (nat, seq<byte>) -> World)
    ensures Holds(ACCEPTED, atol, worlds)
  {}

  lemma StepWaits(c: Conn, e: Event, atol: seq<byte> -> int, worlds: (nat, seq<byte>) -> World)
    requires Inv(c) && Holds(c, atol, worlds) && Enabled(c, e) && ByParser(c, e, atol, worlds)
    ensures c.rcap > 0 && (e.WorkDone? ==> c.work.Executed? && c.work.number < |c.lines|)
    ensures Stalled(Step(c, e))
       <==> (e.WorkDone? && !c.closing && HasLine(c.rbuf) && Unimplemented(c.lines[c.work.number]))
            || (e.ReadNothing? && Stalled(c))
  {
    hide Step, Lines, Flat, Answer, Unimplemented, HasLine;
    ConnectionSpec.StalledExactly(c, e);
    if e.WorkDone? {
      AnswerIsLine(c.lines[c.work.number], atol, worlds(c.work.number, c.lines[c.work.number]));
    }
  }

  /** A line that is answered with nothing leaves the line behind it waiting. */
  lemma WaitsBehind(a: seq<byte>, b: seq<byte>, atol: seq<byte> -> int, worlds: (nat, seq<byte>) -> World)
    requires NEWLINE !in a && NEWLINE !in b && |a| + |b| + 2 <= RBUF_INIT_CAP
    requires Answer(a, atol, worlds(0, a)) == []
    ensures var events :=
              [Read(a + [NEWLINE] + (b + [NEWLINE]), true, Allocated), Execute([], false), WorkDone(false, true)];
            && AllByParser(ACCEPTED, events, atol, worlds) && AllEnabled(ACCEPTED, events)
            && (var c := After(ACCEPTED, events);
                Stalled(c) && c.lines == [a] && c.rbuf == b + [NEWLINE] && c.replies == [])
  {
    hide Answer, After, AllEnabled, Step, AllByParser;
    SecondLineStalls(a, b);
    var read := Read(a + [NEWLINE] + (b + [NEWLINE]), true, Allocated);
    ThreeByParser(read, Execute([], false), WorkDone(false, true), atol, worlds);
  }

  /** "BITPOS k 1" */
  const BITPOS_LINE: seq<byte> := [66, 73, 84, 80, 79, 83, 32, 107, 32, 49]

  /** A BITPOS and another line that arrive together: BITPOS is answered with nothing, whatever the files do,
      and the other line is not run although the connection is idle and open. */
  lemma WaitsExample(b: seq<byte>, atol: seq<byte> -> int, worlds: (nat, seq<byte>) -> World)
    requires NEWLINE !in b && |b| <= 1000
    ensures var events := [Read(BITPOS_LINE + [NEWLINE] + (b + [NEWLINE]), true, Allocated), Execute([], false),
                           WorkDone(false, true)];
            && AllByParser(ACCEPTED, events, atol, worlds) && AllEnabled(ACCEPTED, events)
            && (var c := After(ACCEPTED, events);
                Stalled(c) && c.lines == [BITPOS_LINE] && c.rbuf == b + [NEWLINE] && c.replies == [])
  {
    hide Answer, After, AllEnabled, Step, AllByParser, Stalled;
    BitposUnanswered(atol, worlds(0, BITPOS_LINE));
    assert NEWLINE !in BITPOS_LINE && |BITPOS_LINE| == 10;
    WaitsBehind(BITPOS_LINE, b, atol, worlds);
  }

  lemma ThreeByParser(e1: Event, e2: Event, e3: Event, atol: seq<byte> -> int, worlds: (nat, seq<byte>) -> World)
    requires AllEnabled(ACCEPTED, [e1, e2, e3]) && ByParser(ACCEPTED, e1, atol, worlds)
    requires ByParser(Step(ACCEPTED, e1), e2, atol, worlds) && e3 == WorkDone(false, true)
    ensures AllByParser(ACCEPTED, [e1, e2, e3], atol, worlds)
  {
    hide Step, Enabled, Answer;
    assert [e1, e2, e3][1..] == [e2, e3] && [e2, e3][1..] == [e3] && [e3][1..] == [];
    var c1 := Step(ACCEPTED, e1);
    assert AllEnabled(c1, [e2, e3]);
    var c2 := Step(c1, e2);
    assert AllEnabled(c2, [e3]);
    var c3 := Step(c2, e3);
    assert AllByParser(c3, [], atol, worlds);
    assert AllByParser(c2, [e3], atol, worlds);
    assert AllByParser(c1, [e2, e3], atol, worlds);
  }

  lemma BitposUnanswered(atol: seq<byte> -> int, w: World)
    ensures Answer(BITPOS_LINE, atol, w) == []
  {
    CommandHashes.BitposHash();
    assert BITPOS_LINE[..5] == [66, 73, 84, 80, 79];
    hide Answer, Xxh64.Hash, Splitter.Tokens;
    AnswerIsLine(BITPOS_LINE, atol, w);
  }

  // ---------- Line for line ----------

  /** As long as nothing fails and only implemented commands are asked for, whenever the connection is
      idle it has sent exactly one line for each line it received, and the k-th line sent answers the
      k-th line received. */
  lemma LineForLine(events: seq<Event>, answer: (nat, seq<byte>) -> seq<byte>, atol: seq<byte> -> int,
                    worlds: (nat, seq<byte>) -> World)
    requires AllSmooth(ACCEPTED, events, answer)
    requires forall k: nat, line :: answer(k, line) == Answer(line, atol, worlds(k, line))
    ensures AllEnabled(ACCEPTED, events)
    ensures var c := After(ACCEPTED, events);
            var sent := Sent(c.replies);
            !c.busy ==>
              && |Lines(sent)| == |Lines(c.received)| && Partial(sent) == []
              && forall k :: 0 <= k < |Lines(sent)| ==>
                   Lines(sent)[k] + [NEWLINE]
                   == Answer(Lines(c.received)[k], atol, worlds(k, Lines(c.received)[k]))
  {
    hide AllSmooth, AllEnabled, After, Answer, OneLine, Lines, Partial, Sent, Bodies;
    EveryLineAnswered(events, answer);
    var c := After(ACCEPTED, events);
    if !c.busy {
      forall k | 0 <= k < |c.replies|
        ensures OneLine(c.replies[k].text) && c.replies[k].text == Answer(c.lines[k], atol, worlds(k, c.lines[k]))
      {
        AnswerIsLine(c.lines[k], atol, worlds(k, c.lines[k]));
      }
      SentLines(c.replies);
    }
  }

  /** Replies of one line each come out of the socket as exactly those lines. */
  lemma SentLines(replies: seq<Reply>)
    requires LinesOnly(replies)
    ensures var sent := Sent(replies);
            && Partial(sent) == [] && |Lines(sent)| == |replies|
            && forall k :: 0 <= k < |replies| ==> Lines(sent)[k] + [NEWLINE] == replies[k].text
  {
    hide Lines, Partial, Sent, Flat, IndexOf;
    SentIsFlat(replies);
    var bodies := Bodies(replies);
    LinesOfFlat(bodies, []);
    NoLine([]);
    assert Flat(bodies) + [] == Flat(bodies) && bodies + [] == bodies;
    forall k | 0 <= k < |replies|
      ensures bodies[k] + [NEWLINE] == replies[k].text
    {
      assert OneLine(replies[k].text);
    }
  }

  // ---------- Bits over the wire ----------

  /** What the lines ask for. */
  function Asked(lines: seq<seq<byte>>, atol: seq<byte> -> int): (r: seq<Request>)
    ensures |r| == |lines|
    ensures forall k :: 0 <= k < |r| ==> r[k] == Parse(lines[k], atol)
  {
    seq(|lines|, k requires 0 <= k < |lines| => Parse(lines[k], atol))
  }

  /** A line of decimal digits, read from the left. */
  function ReadNumber(line: seq<byte>): int {
    if line == [] then 0 else 10 * ReadNumber(line[..|line| - 1]) + (line[|line| - 1] as int - 48)
  }

  /** The line is the number n in decimal, without leading zeros. */
  ghost predicate Number(line: seq<byte>, n: nat) {
    && line != [] && (forall i :: 0 <= i < |line| ==> 48 <= line[i] as int <= 57) && ReadNumber(line) == n
    && (line[0] as int == 48 ==> |line| == 1)
  }

  lemma {:induction false} BytesRead(t: string)
    requires forall i :: 0 <= i < |t| ==> '0' <= t[i] <= '9'
    ensures forall i :: 0 <= i < |t| ==> Bytes(t)[i] as int == t[i] as int
    ensures ReadNumber(Bytes(t)) == Reading(t)
  {
    forall i | 0 <= i < |t|
      ensures Bytes(t)[i] as int == t[i] as int
    {
      DigitByte(t[i]);
    }
    hide ToByte;
    if t == [] {
    } else {
      BytesRead(t[..|t| - 1]);
      assert Bytes(t)[..|t| - 1] == Bytes(t[..|t| - 1]);
    }
  }

  lemma DigitByte(c: char)
    requires '0' <= c <= '9'
    ensures ToByte(c as int % 256) as int == c as int
  {
    hide ToByte, Val;
    NumberOf(ToByte(c as int % 256));
  }

  lemma NumberOf(b: byte)
    ensures b as int == Val(b)
  {}

  /** The lines sent are the numbers that answer the requests. */
  ghost predicate Told(sent: seq<seq<byte>>, m: map<nat, Server.Bitmap>, requests: seq<Request>)
    requires forall i :: 0 <= i < |requests| ==> Server.Followed(requests[i])
  {
    && |sent| == |requests|
    && forall k :: 0 <= k < |sent| ==> Number(sent[k], Server.SpecNumber(m, requests, k))
  }

  lemma NumberLine(line: seq<byte>, n: nat)
    requires line + [NEWLINE] == Bytes(Digits(n) + "\n")
    ensures Number(line, n)
  {
    DigitsRead(n);
    var t := Digits(n);
    hide Digits, ToByte;
    BytesRead(t);
    assert line == Bytes(t + "\n")[..|t|] == Bytes(t);
  }

  /** The parser runs on the calls that a server makes for the requests. */
  ghost predicate RunOn(worlds: (nat, seq<byte>) -> World, lines: seq<seq<byte>>, calls: seq<World>) {
    |calls| == |lines| && forall k: nat :: k < |lines| ==> worlds(k, lines[k]) == calls[k]
  }

  lemma AnswerBytes(line: seq<byte>, atol: seq<byte> -> int, w: World, reply: string)
    requires ReplyTo(Parse(line, atol), w) == Some(reply)
    ensures Answer(line, atol, w) == Bytes(reply)
  {}

  /** A client sends SETBIT, GETBIT and BITCOUNT lines for any keys to a server whose files stand for bitmaps, one
      a key. The server runs them one after the other through its descriptor table, its streams and its files, and
      opens no file behind a byte that waits in another stream. Whenever the connection is idle the client can
      read one line per line sent: the bit of the offset, or the number of set bits in the range, as the lines
      before left it; and the files stand for the bitmaps that all of the lines leave. */
  lemma BitsOverTheWire(events: seq<Event>, answer: (nat, seq<byte>) -> seq<byte>, atol: seq<byte> -> int,
                        worlds: (nat, seq<byte>) -> World, s: Server.Server, m: map<nat, Server.Bitmap>,
                        times: seq<(nat, nat)>)
    requires AllSmooth(ACCEPTED, events, answer)
    requires forall k: nat, line :: answer(k, line) == Answer(line, atol, worlds(k, line))
    requires AllEnabled(ACCEPTED, events) && !After(ACCEPTED, events).busy
    requires Server.Consistent(s) && Server.Refines(s, m)
    requires var lines := Lines(After(ACCEPTED, events).received);
             && |times| == |lines| && Server.AllServed(s, Asked(lines, atol), times)
             && RunOn(worlds, lines, Server.Worlds(s, Asked(lines, atol), times))
    ensures var requests := Asked(Lines(After(ACCEPTED, events).received), atol);
            && (forall i :: 0 <= i < |requests| ==> Server.Followed(requests[i]))
            && Told(Lines(Sent(After(ACCEPTED, events).replies)), m, requests)
            && Server.Refines(Server.ServerAfter(s, requests, times), Server.SpecAfter(m, requests))
  {
    hide AllSmooth, AllEnabled, After, Lines, Partial, Sent, Parse, ReplyTo, Bytes, Server.Followed,
         Server.SpecReply, Server.SpecAfter, Server.Worlds, Server.ServerAfter, Server.AllServed, Server.Consistent,
         Server.Refines, Server.SpecReplies, Server.SpecNumber, Number, Answer, Digits;
    LineForLine(events, answer, atol, worlds);
    var c := After(ACCEPTED, events);
    var lines, requests, sent := Lines(c.received), Asked(Lines(c.received), atol), Lines(Sent(c.replies));
    Server.SequenceRefines(s, m, requests, times);
    forall k | 0 <= k < |requests|
      ensures Number(sent[k], Server.SpecNumber(m, requests, k))
    {
      Server.SpecReplyIs(m, requests, k);
      AnswerBytes(lines[k], atol, worlds(k, lines[k]), Server.SpecReplies(m, requests)[k]);
      NumberLine(sent[k], Server.SpecNumber(m, requests, k));
    }
  }

  /** On a server that has just started, for up to as many keys as its table has slots, no two in one bucket, and
      any number of lines, nothing else has to be asked for. */
  lemma FewKeysOverTheWire(events: seq<Event>, answer: (nat, seq<byte>) -> seq<byte>, atol: seq<byte> -> int,
                           worlds: (nat, seq<byte>) -> World, disk: map<nat, seq<byte>>,
                           m: map<nat, Server.Bitmap>, times: seq<(nat, nat)>)
    requires AllSmooth(ACCEPTED, events, answer)
    requires forall k: nat, line :: answer(k, line) == Answer(line, atol, worlds(k, line))
    requires AllEnabled(ACCEPTED, events) && !After(ACCEPTED, events).busy
    requires forall h: nat :: Server.StandsFor(Server.Content(disk, h), Server.BitmapOf(m, h))
    requires var requests := Asked(Lines(After(ACCEPTED, events).received), atol);
             && |times| == |requests| && (forall i :: 0 <= i < |requests| ==> Server.Followed(requests[i]))
             && TableSpec.NoCollisions(FreshServer.HashesOf(requests))
             && |FreshServer.HashesOf(requests)| <= TableSpec.DESC_TABLE_SIZE
             && var s := Server.Started(TableSpec.DESC_TABLE_SIZE, disk);
                Server.AllServed(s, requests, times) ==>
                  RunOn(worlds, Lines(After(ACCEPTED, events).received), Server.Worlds(s, requests, times))
    ensures var requests := Asked(Lines(After(ACCEPTED, events).received), atol);
            Told(Lines(Sent(After(ACCEPTED, events).replies)), m, requests)
  {
    hide *;
    var requests := Asked(Lines(After(ACCEPTED, events).received), atol);
    FreshServer.FewKeysServed(TableSpec.DESC_TABLE_SIZE, disk, requests, times);
    Server.StartedRefines(TableSpec.DESC_TABLE_SIZE, disk, m);
    BitsOverTheWire(events, answer, atol, worlds, Server.Started(TableSpec.DESC_TABLE_SIZE, disk), m, times);
  }
}
