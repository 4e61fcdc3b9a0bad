/** The connection of src/net.c with its buffers: each callback changes the object exactly as the state
    machine of ConnectionSpec says. */
module Connection {
  import opened Memory
  import opened Framing
  import opened ConnectionSpec

  // ---------- The reply buffer of a request ----------

  /** resp_buf, resp_len, resp_cap and oom of work_req. */
  class ReplyBuffer {
    var buf: array<byte>
    var len: nat
    var oom: bool

    ghost predicate Valid()
      reads this
    {
      len <= buf.Length && buf.Length > 0
    }

    ghost function Text(): seq<byte>
      requires Valid()
      reads this, buf
    {
      buf[..len]
    }

    constructor ()
      ensures Valid() && fresh(buf) && buf.Length == 64 && Text() == [] && !oom
    {
      buf := new byte[64];
      len, oom := 0, false;
    }

    /** reply(): the text is appended, or the request is marked as out of memory when the buffer would
        have to grow and cannot. */
    method Append(s: seq<byte>, grown: bool)
      requires Valid()
      modifies this, buf
      ensures Valid() && (buf == old(buf) || fresh(buf))
      ensures var fits := |old(Text())| + |s| <= old(buf.Length);
              if fits || grown then Text() == old(Text()) + s && oom == old(oom)
              else Text() == old(Text()) && oom
    {
      if |s| == 0 {
        return;
      }
      if len + |s| > buf.Length {
        var ncap := buf.Length;
        while len + |s| > ncap
          invariant ncap >= buf.Length
          decreases len + |s| - ncap
        {
          ncap := ncap * 2;
        }
        if !grown {
          oom := true;
          return;
        }
        var nb := new byte[ncap];
        forall i | 0 <= i < len {
          nb[i] := buf[i];
        }
        buf := nb;
      }
      forall i | 0 <= i < |s| {
        buf[len + i] := s[i];
      }
      len := len + |s|;
    }
  }

  // ---------- The connection ----------

  /** conn_t. The request in flight belongs to the event loop, so it is recorded in a ghost field, as is
      the history. */
  class Connection {
    var rbuf: array<byte>
    var rlen: nat
    var busy: bool
    var closing: bool
    ghost var work: Work
    ghost var received: seq<byte>
    ghost var lines: seq<seq<byte>>
    ghost var replies: seq<Reply>
    ghost var issued: nat
    ghost var freed: seq<nat>
    ghost var closes: nat
    ghost var lost: bool

    ghost predicate Valid()
      reads this
    {
      rlen <= rbuf.Length && rbuf.Length > 0
    }

    ghost function State(): Conn
      requires Valid()
      reads this, rbuf
    {
      Conn(rbuf[..rlen], rbuf.Length, busy, closing, work, received, lines, replies, issued, freed, closes, lost)
    }

    /** on_connection */
    constructor ()
      ensures Valid() && fresh(rbuf) && State() == ACCEPTED
    {
      rbuf := new byte[4096];
      rlen, busy, closing, work := 0, false, false, NoWork;
      received, lines, replies, issued, freed, closes, lost := [], [], [], 0, [], 0, false;
    }

    method MaybeClose()
      requires Valid()
      modifies this`closes
      ensures Valid() && State() == ConnectionSpec.MaybeClose(old(State()))
    {
      if closing && !busy {
        closes := closes + 1;
      }
    }

    /** dispatch_line; a request takes the next id when it has been allocated. */
    method DispatchLine(line: seq<byte>, allocation: Allocation)
      requires Valid()
      modifies this`busy, this`closing, this`work, this`lines, this`issued, this`freed, this`closes, this`lost
      ensures Valid() && State() == Dispatch(old(State()), line, allocation)
    {
      hide ConnectionSpec.MaybeClose;
      ghost var id := issued;
      if allocation.RequestFails? {
        lost := true;
        closing := true;
        MaybeClose();
        return;
      }
      issued := issued + 1;
      if allocation.LineFails? || allocation.ReplyBufferFails? {
        freed := freed + [id];
        lost := true;
        closing := true;
        MaybeClose();
        return;
      }
      busy := true;
      work := Queued(id, |lines|, line);
      lines := lines + [line];
    }

    /** memchr over rbuf[from..rlen) */
    method FindNewline(from: nat) returns (i: nat)
      requires Valid() && from <= rlen
      ensures i == from + IndexOf(rbuf[from..rlen])
    {
      i := from;
      while i < rlen && rbuf[i] != NEWLINE
        invariant from <= i <= rlen
        invariant forall k :: from <= k < i ==> rbuf[k] != NEWLINE
      {
        i := i + 1;
      }
      IndexIs(rbuf[from..rlen], i - from);
    }

    /** memmove(rbuf, rbuf + scan, rlen - scan) */
    method Discard(scan: nat)
      requires Valid() && scan <= rlen
      modifies this`rlen, rbuf
      ensures Valid() && rlen == old(rlen) - scan
      ensures rbuf[..rlen] == old(rbuf[scan..rlen])
    {
      forall i | 0 <= i < rlen - scan {
        rbuf[i] := rbuf[scan + i];
      }
      rlen := rlen - scan;
    }

    /** on_read with an error or the end of the stream. */
    method OnReadError()
      requires Valid() && closes == 0
      modifies this
      ensures Valid() && rbuf == old(rbuf)
      ensures State() == Step(old(State()), ReadError)
    {
      closing := true;
      MaybeClose();
    }

    /** on_read with bytes. */
    method OnRead(chunk: seq<byte>, grown: bool, allocation: Allocation)
      requires Valid() && closes == 0 && chunk != []
      modifies this, rbuf
      ensures Valid() && (rbuf == old(rbuf) || fresh(rbuf))
      ensures State() == Step(old(State()), Read(chunk, grown, allocation))
    {
      hide Step, DispatchFirst, ConnectionSpec.MaybeClose, ConnectionSpec.Grow;
      ghost var c := State();
      received := received + chunk;
      var room := MakeRoom(rlen + |chunk|, grown);
      if !room {
        lost := true;
        closing := true;
        assert State() == c.(received := received, lost := true, closing := true);
        MaybeClose();
        ReadDropped(c, chunk, grown, allocation);
        return;
      }
      AppendBytes(chunk);
      ghost var d := c.(received := received, rbuf := c.rbuf + chunk, rcap := rbuf.Length);
      assert State() == d;
      DispatchAvailable(allocation);
      ReadKept(c, chunk, grown, allocation);
    }

    /** The buffer is grown if needed, within its limit and if memory can be had. */
    method MakeRoom(need: nat, grown: bool) returns (room: bool)
      requires Valid()
      modifies this`rbuf
      ensures Valid() && rbuf[..rlen] == old(rbuf[..rlen]) && (rbuf == old(rbuf) || fresh(rbuf))
      ensures var cap := if need > old(rbuf.Length) then Grow(old(rbuf.Length), need) else old(rbuf.Length);
              && room == (need <= old(rbuf.Length) || (cap <= RBUF_MAX_CAP && grown))
              && rbuf.Length == (if room then cap else old(rbuf.Length))
              && (room ==> need <= rbuf.Length)
    {
      if need > rbuf.Length {
        var ncap := GrowCapacity(rbuf.Length, need);
        if ncap > RBUF_MAX_CAP {
          return false;
        }
        if !grown {
          return false;
        }
        Reallocate(ncap);
      }
      return true;
    }

    method GrowCapacity(cap: nat, need: nat) returns (ncap: nat)
      requires cap > 0
      ensures ncap == Grow(cap, need)
      ensures ncap >= need && ncap >= cap
    {
      ncap := cap;
      while ncap < need
        invariant ncap >= cap
        invariant Grow(ncap, need) == Grow(cap, need)
        decreases need - ncap
      {
        ncap := ncap * 2;
      }
    }

    /** realloc */
    method Reallocate(ncap: nat)
      requires Valid() && ncap >= rbuf.Length
      modifies this`rbuf
      ensures Valid() && fresh(rbuf) && rbuf.Length == ncap
      ensures rbuf[..rlen] == old(rbuf[..rlen])
    {
      var nb := new byte[ncap];
      forall i | 0 <= i < rlen {
        nb[i] := rbuf[i];
      }
      rbuf := nb;
    }

    /** memcpy of the chunk behind the bytes buffered so far */
    method AppendBytes(chunk: seq<byte>)
      requires Valid() && rlen + |chunk| <= rbuf.Length
      modifies this`rlen, rbuf
      ensures Valid() && rbuf[..rlen] == old(rbuf[..rlen]) + chunk
    {
      forall i | 0 <= i < |chunk| {
        rbuf[rlen + i] := chunk[i];
      }
      rlen := rlen + |chunk|;
    }

    /** The loop that dispatches complete lines until one is in flight, then drops them from the buffer. */
    method DispatchAvailable(allocation: Allocation)
      requires Valid()
      modifies this`rlen, this`busy, this`closing, this`work, this`lines, this`issued, this`freed, this`closes,
               this`lost, rbuf
      ensures Valid()
      ensures State() == if !old(busy) && !old(closing) then DispatchFirst(old(State()), allocation) else old(State())
    {
      hide IndexOf, Dispatch;
      ghost var c := State();
      var scan := 0;
      while !busy && !closing
        invariant Valid() && rlen == |c.rbuf| && rbuf[..rlen] == c.rbuf
        invariant scan == 0 ==> State() == c
        invariant scan > 0 ==> (busy || closing) && !c.busy && !c.closing && scan == IndexOf(c.rbuf) + 1 <= rlen
        invariant scan > 0 ==> State() == Dispatch(c, c.rbuf[..scan - 1], allocation)
        decreases if busy || closing then 0 else 1
      {
        var nl := FindNewline(scan);
        assert rbuf[scan..rlen] == c.rbuf;
        if nl == rlen {
          break;
        }
        assert rbuf[scan..nl] == c.rbuf[..nl];
        DispatchTakes(c, c.rbuf[..nl], allocation);
        DispatchLine(rbuf[scan..nl], allocation);
        scan := nl + 1;
      }
      if scan > 0 {
        assert rbuf[scan..rlen] == c.rbuf[scan..];
        Discard(scan);
      }
    }

    /** try_dispatch_next */
    method TryDispatchNext(allocation: Allocation)
      requires Valid()
      modifies this, rbuf
      ensures Valid() && rbuf == old(rbuf)
      ensures State() == ConnectionSpec.TryDispatchNext(old(State()), allocation)
    {
      hide IndexOf, Dispatch;
      if closing {
        MaybeClose();
        return;
      }
      if busy {
        return;
      }
      var nl := FindNewline(0);
      assert rbuf[0..rlen] == rbuf[..rlen];
      if nl == rlen {
        return;
      }
      assert rbuf[..rlen][..nl] == rbuf[..nl] && rbuf[..rlen][nl + 1..] == rbuf[nl + 1..rlen];
      DispatchTakes(State(), rbuf[..nl], allocation);
      DispatchLine(rbuf[..nl], allocation);
      Discard(nl + 1);
    }

    /** work_cb: the worker thread runs the command, which leaves its reply in the buffer. */
    ghost method Execute(reply: ReplyBuffer)
      requires Valid() && work.Queued? && reply.Valid()
      modifies this`work
      ensures Valid() && State() == Step(old(State()), ConnectionSpec.Execute(reply.Text(), reply.oom))
    {
      work := Executed(work.id, work.number, reply.Text(), reply.oom);
    }

    ghost method FreeRequest()
      requires Valid() && !work.NoWork?
      modifies this`work, this`freed
      ensures Valid() && freed == old(freed) + [old(work.id)] && work == NoWork
    {
      freed := freed + [work.id];
      work := NoWork;
    }

    /** after_work_cb */
    method AfterWork(cancelled: bool, submitted: bool, reply: ReplyBuffer)
      requires Valid() && Enabled(State(), WorkDone(cancelled, submitted))
      requires reply.Valid()
      requires work.Executed? ==> work.reply == reply.Text() && work.oom == reply.oom
      modifies this
      ensures Valid() && rbuf == old(rbuf)
      ensures State() == Step(old(State()), WorkDone(cancelled, submitted))
    {
      if cancelled || closing || reply.oom || reply.len == 0 {
        busy := false;
        FreeRequest();
        MaybeClose();
        return;
      }
      if !submitted {
        busy := false;
        FreeRequest();
        closing := true;
        MaybeClose();
        return;
      }
      replies := replies + [Reply(work.number, work.reply)];
      work := Writing(work.id, work.number);
    }

    /** on_write */
    method OnWrite(flushed: bool, allocation: Allocation)
      requires Valid() && work.Writing?
      modifies this, rbuf
      ensures Valid() && rbuf == old(rbuf)
      ensures State() == Step(old(State()), WriteDone(flushed, allocation))
    {
      hide IndexOf, Dispatch, DispatchFirst;
      busy := false;
      FreeRequest();
      if !flushed {
        closing := true;
        MaybeClose();
        return;
      }
      TryDispatchNext(allocation);
    }
  }

  /** Dispatching a line makes the connection busy or closing and leaves its buffer alone. */
  lemma DispatchTakes(c: Conn, line: seq<byte>, allocation: Allocation)
    ensures var d := Dispatch(c, line, allocation);
            (d.busy || d.closing) && d.rbuf == c.rbuf && d.rcap == c.rcap
  {}

  lemma ReadDropped(c: Conn, chunk: seq<byte>, grown: bool, allocation: Allocation)
    requires c.rcap > 0 && c.closes == 0 && chunk != []
    requires var need := |c.rbuf| + |chunk|;
             && need > c.rcap
             && (Grow(c.rcap, need) > RBUF_MAX_CAP || !grown)
    ensures Step(c, Read(chunk, grown, allocation))
         == ConnectionSpec.MaybeClose(c.(received := c.received + chunk, lost := true, closing := true))
  {}

  lemma ReadKept(c: Conn, chunk: seq<byte>, grown: bool, allocation: Allocation)
    requires c.rcap > 0 && c.closes == 0 && chunk != []
    requires var need := |c.rbuf| + |chunk|;
             || need <= c.rcap
             || (Grow(c.rcap, need) <= RBUF_MAX_CAP && grown)
    ensures var need := |c.rbuf| + |chunk|;
            var cap := if need > c.rcap then Grow(c.rcap, need) else c.rcap;
            var d := c.(received := c.received + chunk, rbuf := c.rbuf + chunk, rcap := cap);
            Step(c, Read(chunk, grown, allocation)) ==
            if !c.busy && !c.closing then DispatchFirst(d, allocation) else d
  {
    hide DispatchFirst, Grow;
  }
}
