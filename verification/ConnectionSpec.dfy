/** One client connection as a state machine (src/net.c:74-82, 141-325): what each callback of the event
    loop does to the connection and to the one request it may have in flight. */
module ConnectionSpec {
  import opened Memory
  import opened Framing

  const RBUF_INIT_CAP: nat := 4096
  const RBUF_MAX_CAP: nat := 65536

  /** The request in flight: waiting for or on a worker thread, executed, or its reply being written.
      `number` counts the dispatched lines, `id` the requests ever allocated. */
  datatype Work =
    | NoWork
    | Queued(id: nat, number: nat, line: seq<byte>)
    | Executed(id: nat, number: nat, reply: seq<byte>, oom: bool)
    | Writing(id: nat, number: nat)

  /** A reply handed to the socket, with the number of the line it answers. */
  datatype Reply = Reply(number: nat, text: seq<byte>)

  /** conn_t, and the history of the connection: bytes received, lines dispatched, replies written,
      requests allocated and freed, calls of uv_close, and whether input was thrown away. */
  datatype Conn = Conn(
    rbuf: seq<byte>, rcap: nat, busy: bool, closing: bool, work: Work,
    received: seq<byte>, lines: seq<seq<byte>>, replies: seq<Reply>,
    issued: nat, freed: seq<nat>, closes: nat, lost: bool)

  const ACCEPTED := Conn([], RBUF_INIT_CAP, false, false, NoWork, [], [], [], 0, [], 0, false)

  /** Which of the three allocations of dispatch_line fails, if any. */
  datatype Allocation = Allocated | RequestFails | LineFails | ReplyBufferFails

  /** What the event loop delivers; the fields say how the calls made on the way turn out. */
  datatype Event =
    | ReadError
    | ReadNothing
    | Read(chunk: seq<byte>, grown: bool, allocation: Allocation)
    | Execute(reply: seq<byte>, oom: bool)
    | WorkDone(cancelled: bool, submitted: bool)
    | WriteDone(flushed: bool, allocation: Allocation)

  /** When libuv can deliver an event: it reads nothing after uv_close, runs a queued request once and
      completes a write that was submitted. */
  predicate Enabled(c: Conn, e: Event) {
    match e
    case ReadError => c.closes == 0
    case ReadNothing => c.closes == 0
    case Read(chunk, _, _) => c.closes == 0 && chunk != []
    case Execute(_, _) => c.work.Queued?
    case WorkDone(cancelled, _) => c.work.Executed? || (cancelled && c.work.Queued?)
    case WriteDone(_, _) => c.work.Writing?
  }

  // ---------- The callbacks ----------

  function MaybeClose(c: Conn): Conn {
    if c.closing && !c.busy then c.(closes := c.closes + 1) else c
  }

  function FailClosing(c: Conn): Conn {
    MaybeClose(c.(closing := true))
  }

  /** dispatch_line */
  function Dispatch(c: Conn, line: seq<byte>, allocation: Allocation): Conn {
    match allocation
    case Allocated =>
      c.(busy := true, work := Queued(c.issued, |c.lines|, line), lines := c.lines + [line], issued := c.issued + 1)
    case RequestFails => FailClosing(c.(lost := true))
    case _ => FailClosing(c.(lost := true, issued := c.issued + 1, freed := c.freed + [c.issued]))
  }

  /** The first complete line, if there is one, leaves the buffer. */
  function DispatchFirst(c: Conn, allocation: Allocation): Conn {
    if HasLine(c.rbuf) then
      var i := IndexOf(c.rbuf);
      Dispatch(c, c.rbuf[..i], allocation).(rbuf := c.rbuf[i + 1..])
    else c
  }

  /** The capacity is doubled until it suffices. */
  function Grow(cap: nat, need: nat): nat
    requires cap > 0
    decreases need - cap
  {
    if cap < need then Grow(2 * cap, need) else cap
  }

  function Append(c: Conn, chunk: seq<byte>, cap: nat, allocation: Allocation): Conn {
    var d := c.(rbuf := c.rbuf + chunk, rcap := cap);
    if !d.busy && !d.closing then DispatchFirst(d, allocation) else d
  }

  /** on_read with bytes. */
  function OnRead(c: Conn, chunk: seq<byte>, grown: bool, allocation: Allocation): Conn
    requires c.rcap > 0
  {
    var d := c.(received := c.received + chunk);
    var need := |c.rbuf| + |chunk|;
    if need > c.rcap then
      var cap := Grow(c.rcap, need);
      if cap > RBUF_MAX_CAP || !grown then FailClosing(d.(lost := true))
      else Append(d, chunk, cap, allocation)
    else Append(d, chunk, c.rcap, allocation)
  }

  /** The request is done with and freed. */
  function Free(c: Conn): Conn
    requires !c.work.NoWork?
  {
    c.(busy := false, work := NoWork, freed := c.freed + [c.work.id])
  }

  /** The paths of after_work_cb that write nothing. */
  predicate Quiet(c: Conn, e: Event) {
    e.WorkDone? && (e.cancelled || c.closing || !c.work.Executed? || c.work.oom || c.work.reply == [])
  }

  /** after_work_cb */
  function AfterWork(c: Conn, e: Event): Conn
    requires e.WorkDone? && Enabled(c, e)
  {
    if Quiet(c, e) then MaybeClose(Free(c))
    else if e.submitted then
      c.(work := Writing(c.work.id, c.work.number), replies := c.replies + [Reply(c.work.number, c.work.reply)])
    else FailClosing(Free(c))
  }

  /** try_dispatch_next */
  function TryDispatchNext(c: Conn, allocation: Allocation): Conn {
    if c.closing then MaybeClose(c) else if c.busy then c else DispatchFirst(c, allocation)
  }

  function Step(c: Conn, e: Event): Conn
    requires Enabled(c, e) && c.rcap > 0
  {
    match e
    case ReadError => FailClosing(c)
    case ReadNothing => c
    case Read(chunk, grown, allocation) => OnRead(c, chunk, grown, allocation)
    case Execute(reply, oom) => c.(work := Executed(c.work.id, c.work.number, reply, oom))
    case WorkDone(_, _) => AfterWork(c, e)
    case WriteDone(flushed, allocation) =>
      if flushed then TryDispatchNext(Free(c), allocation) else FailClosing(Free(c))
  }

  // ---------- What every reachable state satisfies ----------

  ghost predicate CapOk(cap: nat) {
    cap == 4096 || cap == 8192 || cap == 16384 || cap == 32768 || cap == 65536
  }

  /** Framing: the dispatched lines are the first lines received; unless input was thrown away nothing
      is missing between them and the buffer, and thrown-away input closes the connection. */
  ghost predicate Framed(c: Conn) {
    && Clean(c.lines)
    && c.lines <= Lines(c.received)
    && (!c.lost ==> Flat(c.lines) + c.rbuf == c.received)
    && (c.lost ==> c.closing)
    && |c.rbuf| <= c.rcap && CapOk(c.rcap)
  }

  /** One request at a time: busy exactly while one is alive, every other one freed exactly once. */
  ghost predicate OneRequest(c: Conn) {
    && (c.busy <==> !c.work.NoWork?)
    && (forall i, j :: 0 <= i < j < |c.freed| ==> c.freed[i] != c.freed[j])
    && (forall i :: 0 <= i < |c.freed| ==> c.freed[i] < c.issued)
    && (c.busy ==> c.work.id < c.issued && c.work.id !in c.freed)
    && c.issued == |c.freed| + (if c.busy then 1 else 0)
  }

  /** uv_close has been called exactly when the connection is closing with nothing in flight. */
  ghost predicate ClosedOnce(c: Conn) {
    c.closes == (if c.closing && !c.busy then 1 else 0)
  }

  /** Replies answer lines in order, and the request in flight answers the last line dispatched. */
  ghost predicate Ordered(c: Conn) {
    && (forall i, j :: 0 <= i < j < |c.replies| ==> c.replies[i].number < c.replies[j].number)
    && (forall i :: 0 <= i < |c.replies| ==> c.replies[i].number < |c.lines|)
    && (!c.work.NoWork? ==> c.work.number + 1 == |c.lines|)
    && (c.work.Queued? || c.work.Executed? ==>
          forall i :: 0 <= i < |c.replies| ==> c.replies[i].number < c.work.number)
    && (c.work.Queued? ==> c.work.line == c.lines[c.work.number])
  }

  ghost predicate Inv(c: Conn) {
    Framed(c) && OneRequest(c) && ClosedOnce(c) && Ordered(c)
  }

  /** A dispatched line, or the failure to dispatch one, keeps the request bookkeeping and the order. */
  lemma DispatchKeeps(c: Conn, line: seq<byte>, allocation: Allocation)
    requires OneRequest(c) && Ordered(c) && !c.busy && !c.closing && c.closes == 0
    ensures var d := Dispatch(c, line, allocation);
            OneRequest(d) && Ordered(d) && ClosedOnce(d)
  {}

  lemma DispatchFrames(c: Conn, allocation: Allocation)
    requires Framed(c) && !c.busy && !c.closing && HasLine(c.rbuf)
    ensures Framed(DispatchFirst(c, allocation))
  {
    hide Lines, Flat, IndexOf;
    var i := IndexOf(c.rbuf);
    var line, rest := c.rbuf[..i], c.rbuf[i + 1..];
    assert c.rbuf == line + [NEWLINE] + rest;
    FlatAppend(c.lines, line);
    var lines := c.lines + [line];
    assert Flat(lines) + rest == c.received by {
      Associate(Flat(c.lines), line + [NEWLINE], rest);
      Associate(Flat(c.lines), line, [NEWLINE]);
    }
    LinesOfFlat(lines, rest);
  }

  lemma DispatchFirstKeeps(c: Conn, allocation: Allocation)
    requires Framed(c) && OneRequest(c) && Ordered(c) && !c.busy && !c.closing && c.closes == 0
    ensures Inv(DispatchFirst(c, allocation))
  {
    hide HasLine, Lines, Flat, IndexOf, Dispatch, Framed;
    if HasLine(c.rbuf) {
      var i := IndexOf(c.rbuf);
      DispatchKeeps(c, c.rbuf[..i], allocation);
      DispatchFrames(c, allocation);
    }
  }

  lemma {:induction false} GrowDoubles(cap: nat, need: nat)
    requires CapOk(cap)
    ensures Grow(cap, need) >= need
    ensures Grow(cap, need) <= RBUF_MAX_CAP <==> need <= RBUF_MAX_CAP
    ensures need <= RBUF_MAX_CAP ==> CapOk(Grow(cap, need))
    decreases RBUF_MAX_CAP - cap
  {
    if cap < need && cap < RBUF_MAX_CAP {
      GrowDoubles(2 * cap, need);
    } else if cap < need {
      GrowAtLeast(cap, need);
    }
  }

  lemma {:induction false} GrowAtLeast(cap: nat, need: nat)
    requires cap > 0
    ensures Grow(cap, need) >= need && Grow(cap, need) >= cap
    decreases need - cap
  {
    if cap >= need {
    } else {
      GrowAtLeast(2 * cap, need);
    }
  }

  lemma AppendKeeps(c: Conn, chunk: seq<byte>, cap: nat, allocation: Allocation)
    requires Inv(c) && c.closes == 0 && CapOk(cap) && |c.rbuf| + |chunk| <= cap
    ensures Inv(Append(c.(received := c.received + chunk), chunk, cap, allocation))
  {
    hide HasLine, Lines, Flat, IndexOf, DispatchFirst;
    var d := c.(received := c.received + chunk, rbuf := c.rbuf + chunk, rcap := cap);
    LinesMonotone(c.received, chunk);
    Associate(Flat(c.lines), c.rbuf, chunk);
    assert Framed(d);
    if !d.busy && !d.closing {
      DispatchFirstKeeps(d, allocation);
    }
  }

  lemma ReadKeeps(c: Conn, chunk: seq<byte>, grown: bool, allocation: Allocation)
    requires Inv(c) && c.closes == 0
    ensures Inv(OnRead(c, chunk, grown, allocation))
  {
    hide HasLine, Lines, Flat, IndexOf, Append, Grow;
    var need := |c.rbuf| + |chunk|;
    GrowDoubles(c.rcap, need);
    LinesMonotone(c.received, chunk);
    if need <= c.rcap {
      AppendKeeps(c, chunk, c.rcap, allocation);
    } else if Grow(c.rcap, need) <= RBUF_MAX_CAP && grown {
      AppendKeeps(c, chunk, Grow(c.rcap, need), allocation);
    }
  }

  lemma FreeKeeps(c: Conn)
    requires Inv(c) && c.busy
    ensures var d := Free(c);
            Framed(d) && OneRequest(d) && Ordered(d) && d.closes == 0
  {
    hide Lines, Flat;
    var d := Free(c);
    assert forall i :: 0 <= i < |c.freed| ==> d.freed[i] == c.freed[i] && c.freed[i] != c.work.id;
  }

  /** Every callback keeps all of it. */
  lemma StepKeeps(c: Conn, e: Event)
    requires Inv(c) && Enabled(c, e)
    ensures Inv(Step(c, e))
  {
    hide HasLine, Lines, Flat, IndexOf, DispatchFirst, OnRead;
    match e
    case ReadError =>
    case ReadNothing =>
    case Read(chunk, grown, allocation) =>
      ReadKeeps(c, chunk, grown, allocation);
    case Execute(_, _) =>
    case WorkDone(_, _) =>
      FreeKeeps(c);
    case WriteDone(_, _) =>
      WriteKeeps(c, e);
  }

  lemma WriteKeeps(c: Conn, e: Event)
    requires Inv(c) && Enabled(c, e) && e.WriteDone?
    ensures Inv(Step(c, e))
  {
    hide HasLine, Lines, Flat, IndexOf, DispatchFirst, OnRead;
    FreeKeeps(c);
    if e.flushed && !c.closing {
      DispatchFirstKeeps(Free(c), e.allocation);
    }
  }

  // ---------- Whole runs ----------

  predicate AllEnabled(c: Conn, events: seq<Event>)
    decreases |events|
  {
    events != [] ==> c.rcap > 0 && Enabled(c, events[0]) && AllEnabled(Step(c, events[0]), events[1..])
  }

  function After(c: Conn, events: seq<Event>): Conn
    requires AllEnabled(c, events)
    decreases |events|
  {
    if events == [] then c else After(Step(c, events[0]), events[1..])
  }

  lemma {:induction false} RunKeeps(c: Conn, events: seq<Event>)
    requires Inv(c) && AllEnabled(c, events)
    ensures Inv(After(c, events))
    decreases |events|
  {
    hide Step, Inv, Enabled;
    if events == [] {
    } else {
      StepKeeps(c, events[0]);
      RunKeeps(Step(c, events[0]), events[1..]);
    }
  }

  lemma AcceptedInv()
    ensures Inv(ACCEPTED)
  {
    assert Lines([]) == [] && Flat([]) == [];
  }

  /** In every run of a connection, under every interleaving and every outcome of its calls. */
  lemma EveryRun(events: seq<Event>)
    requires AllEnabled(ACCEPTED, events)
    ensures Inv(After(ACCEPTED, events))
  {
    AcceptedInv();
    hide After, Step;
    RunKeeps(ACCEPTED, events);
  }

  /** How the bytes were cut into reads and when requests finished does not matter: two runs that
      received the same bytes dispatched the same lines as far as both got, and where nothing was thrown
      away the bytes are accounted for exactly. */
  lemma FramingIndependent(events: seq<Event>, events': seq<Event>)
    requires AllEnabled(ACCEPTED, events) && AllEnabled(ACCEPTED, events')
    requires After(ACCEPTED, events).received == After(ACCEPTED, events').received
    ensures var c, d := After(ACCEPTED, events), After(ACCEPTED, events');
            && (c.lines <= d.lines || d.lines <= c.lines)
            && (!c.lost && !d.lost && |c.lines| == |d.lines| ==> c.rbuf == d.rbuf)
            && (!c.lost ==> Flat(c.lines) + c.rbuf == c.received)
  {
    hide After, Lines, Flat;
    EveryRun(events);
    EveryRun(events');
    var c, d := After(ACCEPTED, events), After(ACCEPTED, events');
    var all := Lines(c.received);
    assert c.lines == all[..|c.lines|] && d.lines == all[..|d.lines|];
    if |c.lines| <= |d.lines| {
      assert c.lines == d.lines[..|c.lines|];
    } else {
      assert d.lines == c.lines[..|d.lines|];
    }
    if !c.lost && !d.lost && |c.lines| == |d.lines| {
      assert c.lines == d.lines;
      SameTail(Flat(c.lines), c.rbuf, d.rbuf);
    }
  }

  lemma SameTail(a: seq<byte>, b: seq<byte>, c: seq<byte>)
    requires a + b == a + c
    ensures b == c
  {
    assert b == (a + b)[|a|..] && c == (a + c)[|a|..];
  }

  // ---------- Liveness: when a complete line is left waiting ----------

  /** A complete line waits although nothing is in flight and the connection is not closing. */
  predicate Stalled(c: Conn) {
    !c.closing && !c.busy && HasLine(c.rbuf)
  }

  /** A line is left waiting exactly when a request finishes without a reply to write while another line
      is buffered, and it stays waiting while nothing arrives. */
  lemma StalledExactly(c: Conn, e: Event)
    requires Inv(c) && Enabled(c, e)
    ensures Stalled(Step(c, e))
       <==> (e.WorkDone? && Quiet(c, e) && !c.closing && HasLine(c.rbuf)) || (e.ReadNothing? && Stalled(c))
  {
    hide HasLine, Lines, Flat, IndexOf, DispatchFirst, Grow;
    match e
    case Read(chunk, grown, allocation) =>
      NeverStalledByDispatch(c.(received := c.received + chunk, rbuf := c.rbuf + chunk), allocation);
      NeverStalledByDispatch(c.(received := c.received + chunk, rbuf := c.rbuf + chunk,
                                rcap := Grow(c.rcap, |c.rbuf| + |chunk|)), allocation);
    case WriteDone(flushed, allocation) => NeverStalledByDispatch(Free(c), allocation);
    case _ =>
  }

  lemma NeverStalledByDispatch(c: Conn, allocation: Allocation)
    ensures !Stalled(DispatchFirst(c, allocation))
  {
    hide IndexOf;
  }

  lemma ThreeSteps(c: Conn, e1: Event, e2: Event, e3: Event, c1: Conn, c2: Conn, c3: Conn)
    requires c.rcap > 0 && Enabled(c, e1) && c1 == Step(c, e1)
    requires c1.rcap > 0 && Enabled(c1, e2) && c2 == Step(c1, e2)
    requires c2.rcap > 0 && Enabled(c2, e3) && c3 == Step(c2, e3)
    ensures AllEnabled(c, [e1, e2, e3]) && After(c, [e1, e2, e3]) == c3
  {
    hide Step, Enabled;
    assert [e1, e2, e3][1..] == [e2, e3] && [e2, e3][1..] == [e3] && [e3][1..] == [];
    assert AllEnabled(c3, []) && After(c3, []) == c3;
    assert AllEnabled(c2, [e3]) && After(c2, [e3]) == c3;
    assert AllEnabled(c1, [e2, e3]) && After(c1, [e2, e3]) == c3;
  }

  /** The state after a read that brings two lines. */
  function TwoLinesRead(a: seq<byte>, b: seq<byte>): Conn {
    ACCEPTED.(received := a + [NEWLINE] + (b + [NEWLINE]), rbuf := b + [NEWLINE], busy := true,
              work := Queued(0, 0, a), lines := [a], issued := 1)
  }

  lemma ReadTwoLines(a: seq<byte>, b: seq<byte>)
    requires NEWLINE !in a && NEWLINE !in b && |a| + |b| + 2 <= RBUF_INIT_CAP
    ensures var e := Read(a + [NEWLINE] + (b + [NEWLINE]), true, Allocated);
            Enabled(ACCEPTED, e) && Step(ACCEPTED, e) == TwoLinesRead(a, b)
  {
    var chunk := a + [NEWLINE] + (b + [NEWLINE]);
    FirstLine(a, b + [NEWLINE]);
    assert [] + chunk == chunk && [] + [a] == [a];
    hide HasLine, IndexOf, Grow;
  }

  /** Two lines arrive together and the first gets no reply: the second is not dispatched. */
  lemma SecondLineStalls(a: seq<byte>, b: seq<byte>)
    requires NEWLINE !in a && NEWLINE !in b && |a| + |b| + 2 <= RBUF_INIT_CAP
    ensures var events :=
              [Read(a + [NEWLINE] + (b + [NEWLINE]), true, Allocated), Execute([], false), WorkDone(false, true)];
            && AllEnabled(ACCEPTED, events)
            && Step(ACCEPTED, events[0]).work == Queued(0, 0, a)
            && (var c := After(ACCEPTED, events);
                Stalled(c) && c.lines == [a] && c.rbuf == b + [NEWLINE] && c.replies == [])
  {
    var read := Read(a + [NEWLINE] + (b + [NEWLINE]), true, Allocated);
    var c1 := TwoLinesRead(a, b);
    var c2 := c1.(work := Executed(0, 0, [], false));
    var c3 := c1.(busy := false, work := NoWork, freed := [0]);
    assert [] + [0] == [0];
    assert Step(c1, Execute([], false)) == c2 && Step(c2, WorkDone(false, true)) == c3;
    ReadTwoLines(a, b);
    FirstLine(b, []);
    assert b + [NEWLINE] + [] == b + [NEWLINE];
    hide HasLine, IndexOf, Step;
    ThreeSteps(ACCEPTED, read, Execute([], false), WorkDone(false, true), c1, c2, c3);
  }

  /** An event of a run in which nothing fails and every executed line is answered; `answer` gives the
      reply to the k-th line. */
  predicate Smooth(c: Conn, e: Event, answer: (nat, seq<byte>) -> seq<byte>) {
    match e
    case ReadError => false
    case ReadNothing => true
    case Read(chunk, grown, allocation) => grown && allocation.Allocated? && |c.rbuf| + |chunk| <= RBUF_MAX_CAP
    case Execute(reply, oom) => c.work.Queued? && reply == answer(c.work.number, c.work.line) != [] && !oom
    case WorkDone(cancelled, submitted) => !cancelled && submitted
    case WriteDone(flushed, allocation) => flushed && allocation.Allocated?
  }

  predicate AllSmooth(c: Conn, events: seq<Event>, answer: (nat, seq<byte>) -> seq<byte>)
    decreases |events|
  {
    events != [] ==>
      c.rcap > 0 && Enabled(c, events[0]) && Smooth(c, events[0], answer)
      && AllSmooth(Step(c, events[0]), events[1..], answer)
  }

  /** Every dispatched line but the one in flight has its answer, in order. */
  ghost predicate Served(c: Conn, answer: (nat, seq<byte>) -> seq<byte>) {
    && !c.closing && !c.lost
    && |c.replies| + (if c.work.Queued? || c.work.Executed? then 1 else 0) == |c.lines|
    && (forall k :: 0 <= k < |c.replies| ==>
          c.replies[k] == Reply(k, answer(k, c.lines[k])) && c.replies[k].text != [])
    && (c.work.Executed? ==>
          !c.work.oom && c.work.reply != []
          && c.work.number < |c.lines| && c.work.reply == answer(c.work.number, c.lines[c.work.number]))
  }

  /** Besides, no line waits while nothing is in flight. */
  ghost predicate Answered(c: Conn, answer: (nat, seq<byte>) -> seq<byte>) {
    Served(c, answer) && (!c.busy ==> !HasLine(c.rbuf))
  }

  lemma SmoothDispatch(c: Conn, answer: (nat, seq<byte>) -> seq<byte>)
    requires Served(c, answer) && !c.busy && c.work.NoWork?
    ensures Answered(DispatchFirst(c, Allocated), answer)
  {
    hide IndexOf, HasLine;
  }

  lemma SmoothRead(c: Conn, e: Event, answer: (nat, seq<byte>) -> seq<byte>)
    requires Inv(c) && Answered(c, answer) && Enabled(c, e) && Smooth(c, e, answer) && e.Read?
    ensures Answered(Step(c, e), answer)
  {
    hide Lines, Flat, IndexOf, HasLine, Grow, DispatchFirst;
    GrowDoubles(c.rcap, |c.rbuf| + |e.chunk|);
    var cap := if |c.rbuf| + |e.chunk| > c.rcap then Grow(c.rcap, |c.rbuf| + |e.chunk|) else c.rcap;
    var d := c.(received := c.received + e.chunk, rbuf := c.rbuf + e.chunk, rcap := cap);
    if !d.busy {
      SmoothDispatch(d, answer);
    }
  }

  lemma SmoothStep(c: Conn, e: Event, answer: (nat, seq<byte>) -> seq<byte>)
    requires Inv(c) && Answered(c, answer) && Enabled(c, e) && Smooth(c, e, answer)
    ensures Answered(Step(c, e), answer)
  {
    hide Lines, Flat, IndexOf, HasLine, Grow, DispatchFirst, OnRead;
    if e.Read? {
      SmoothRead(c, e, answer);
    } else if e.WriteDone? {
      SmoothDispatch(Free(c), answer);
    }
  }

  lemma {:induction false} SmoothRun(c: Conn, events: seq<Event>, answer: (nat, seq<byte>) -> seq<byte>)
    requires Inv(c) && Answered(c, answer) && AllSmooth(c, events, answer)
    ensures AllEnabled(c, events) && Inv(After(c, events)) && Answered(After(c, events), answer)
    decreases |events|
  {
    hide Step, Inv, Answered, Enabled, Smooth;
    if events == [] {
    } else {
      StepKeeps(c, events[0]);
      SmoothStep(c, events[0], answer);
      SmoothRun(Step(c, events[0]), events[1..], answer);
    }
  }

  /** In a smooth run, whenever the connection is idle every line received so far has been answered
      with its own reply, in order, and only an incomplete line is buffered. */
  lemma EveryLineAnswered(events: seq<Event>, answer: (nat, seq<byte>) -> seq<byte>)
    requires AllSmooth(ACCEPTED, events, answer)
    ensures AllEnabled(ACCEPTED, events)
    ensures var c := After(ACCEPTED, events);
            !c.busy ==>
              && c.lines == Lines(c.received) && c.rbuf == Partial(c.received)
              && |c.replies| == |c.lines|
              && forall k :: 0 <= k < |c.lines| ==>
                   c.replies[k] == Reply(k, answer(k, c.lines[k])) && c.replies[k].text != []
  {
    AcceptedInv();
    hide After, Step, Lines, Flat, Partial;
    SmoothRun(ACCEPTED, events, answer);
    var c := After(ACCEPTED, events);
    if !c.busy {
      LinesOfFlat(c.lines, c.rbuf);
      NoLine(c.rbuf);
      assert c.lines + [] == c.lines;
    }
  }

  /** Bytes are thrown away by an event exactly when a read would take the buffer over 64 KiB or cannot enlarge it,
      or when there is no memory to dispatch a complete line. */
  lemma LostExactly(c: Conn, e: Event)
    requires Inv(c) && Enabled(c, e) && !c.lost
    ensures Step(c, e).lost
       <==> match e
            case Read(chunk, grown, allocation) =>
              var need := |c.rbuf| + |chunk|;
              || need > 65536 || (need > c.rcap && !grown)
              || (!allocation.Allocated? && !c.busy && !c.closing && HasLine(c.rbuf + chunk))
            case WriteDone(flushed, allocation) =>
              flushed && !allocation.Allocated? && !c.closing && HasLine(c.rbuf)
            case _ => false
  {
    hide Lines, Flat, HasLine, IndexOf, Grow;
    if e.Read? {
      GrowDoubles(c.rcap, |c.rbuf| + |e.chunk|);
    }
  }

  /** An event makes the connection closing exactly when the stream has ended or failed, bytes are thrown away, a
      reply cannot be handed over, or one has not been written. */
  lemma ClosesExactly(c: Conn, e: Event)
    requires Inv(c) && Enabled(c, e) && !c.closing
    ensures Step(c, e).closing
       <==> match e
            case ReadError => true
            case WorkDone(cancelled, submitted) =>
              !cancelled && !submitted && !c.work.oom && c.work.reply != []
            case WriteDone(flushed, _) => !flushed || Step(c, e).lost
            case _ => Step(c, e).lost
  {
    hide Lines, Flat, HasLine, IndexOf, Grow, DispatchFirst;
    if e.Read? {
      DispatchSays(Received(c, e.chunk, c.rcap), e.allocation);
      DispatchSays(Received(c, e.chunk, Grow(c.rcap, |c.rbuf| + |e.chunk|)), e.allocation);
    } else if e.WriteDone? {
      DispatchSays(Free(c), e.allocation);
    }
  }

  function Received(c: Conn, chunk: seq<byte>, cap: nat): Conn {
    c.(received := c.received + chunk, rbuf := c.rbuf + chunk, rcap := cap)
  }

  /** Dispatching says nothing, and fails only where it loses its line. */
  lemma DispatchSays(c: Conn, allocation: Allocation)
    ensures DispatchFirst(c, allocation).replies == c.replies
    ensures !c.closing && !c.lost ==> (DispatchFirst(c, allocation).closing <==> DispatchFirst(c, allocation).lost)
    ensures c.lost ==> DispatchFirst(c, allocation).lost
  {
    hide IndexOf, HasLine;
  }

  /** A reply is handed to the socket exactly when a request has been run to its end with something to say, on a
      connection that is not closing; it is what the request says, and it answers the request's line. */
  lemma RepliesExactly(c: Conn, e: Event)
    requires Inv(c) && Enabled(c, e)
    ensures Step(c, e).replies
         == if e.WorkDone? && !e.cancelled && e.submitted && !c.closing && !c.work.oom && c.work.reply != []
            then c.replies + [Reply(c.work.number, c.work.reply)] else c.replies
  {
    hide Lines, Flat, HasLine, IndexOf, Grow, DispatchFirst;
    if e.Read? {
      DispatchSays(Received(c, e.chunk, c.rcap), e.allocation);
      DispatchSays(Received(c, e.chunk, Grow(c.rcap, |c.rbuf| + |e.chunk|)), e.allocation);
    } else if e.WriteDone? {
      DispatchSays(Free(c), e.allocation);
    }
  }

  /** A request that ran out of memory, or that has nothing to say, ends without a reply, whatever it has said, and
      is freed; any other one ends with what it has said. */
  lemma ExecutedIsSaid(c: Conn, reply: seq<byte>, oom: bool)
    requires Inv(c) && c.work.Queued? && !c.closing
    ensures var d := Step(c, Execute(reply, oom));
            && Enabled(d, WorkDone(false, true))
            && (var f := Step(d, WorkDone(false, true));
                if oom || reply == [] then f.replies == c.replies && f.freed == c.freed + [c.work.id] && !f.busy
                else f.replies == c.replies + [Reply(c.work.number, reply)] && f.freed == c.freed && f.busy)
  {}

  /** Received bytes are thrown away exactly when the buffer would exceed 64 KiB or cannot be grown. */
  lemma DroppedExactly(c: Conn, chunk: seq<byte>, grown: bool)
    requires Inv(c) && !c.lost
    ensures var need := |c.rbuf| + |chunk|;
            OnRead(c, chunk, grown, Allocated).lost <==> need > 65536 || (need > c.rcap && !grown)
  {
    hide Lines, Flat, HasLine, IndexOf, Grow;
    GrowDoubles(c.rcap, |c.rbuf| + |chunk|);
  }
}
