/** A server that has just started and is asked for no more keys than its table has slots, of which no two share
    a bucket: every request finds room, and no file is opened twice. */
module FreshServer {
  import opened Memory
  import opened Wrappers
  import opened TableSpec
  import opened ParserSpec
  import opened Server
  import Keys

  /** n files are open, each in a bucket of its own, all of them among `hashes`. */
  ghost predicate Apart(t: Table, hashes: set<nat>, n: nat) {
    Inv(t, n) && BucketsDistinct(t, n) && HashesIn(t, n) <= hashes
  }

  /** Streams are of the files of their slots, and only streams of open files wait. */
  ghost predicate OwnStreams(s: Server, n: nat)
    requires n <= |s.table.descs|
  {
    && (forall k :: 0 <= k < n && s.table.descs[k].fd.Some? ==>
          && s.table.descs[k].fd.value < |s.table.streams|
          && s.table.streams[s.table.descs[k].fd.value] == s.table.descs[k].hash)
    && (forall i :: i in s.unwritten ==> i < |s.table.streams| && s.table.streams[i] in HashesIn(s.table, n))
  }

  ghost predicate Plain(s: Server, hashes: set<nat>, n: nat) {
    Apart(s.table, hashes, n) && OwnStreams(s, n)
  }

  lemma {:induction false} HashesSize(t: Table, n: nat)
    requires n <= |t.descs| && BucketsDistinct(t, n)
    ensures |HashesIn(t, n)| == n
  {
    hide Bucket, HashesIn;
    if n == 0 {
      NoHashes(t);
    } else {
      HashesSize(t, n - 1);
      MoreHashes(t, n - 1);
      NewHash(t, n - 1);
    }
  }

  lemma NoHashes(t: Table)
    ensures HashesIn(t, 0) == {}
  {}

  lemma NewHash(t: Table, n: nat)
    requires n < |t.descs| && BucketsDistinct(t, n + 1)
    ensures t.descs[n].hash !in HashesIn(t, n)
  {
    hide Bucket;
  }

  /** A file that is not found is not open, so there is a free slot for it and nothing waits for it. */
  lemma RoomFor(s: Server, hashes: set<nat>, n: nat, hash: nat)
    requires Plain(s, hashes, n) && hash in hashes && |hashes| <= |s.table.descs| && Lookup(s.table, hash).None?
    ensures n < |s.table.descs| && hash !in HashesIn(s.table, n)
    ensures FirstFree(s.table.descs, s.table.idx) == n && Quiet(s, hash)
  {
    InUse(s.table, n, hash);
    FindableExactly(s.table, n);
    HashesSize(s.table, n);
    hide Inv, Lookup, FirstFree, BucketsDistinct;
    if hash in HashesIn(s.table, n) {
      var k :| 0 <= k < n && s.table.descs[k].hash == hash;
      assert Findable(s.table, k);
    }
    MoreThan(HashesIn(s.table, n), hashes, hash);
  }

  lemma MoreThan(a: set<nat>, b: set<nat>, x: nat)
    requires a <= b && x in b && x !in a
    ensures |a| < |b|
  {
    Within(a + {x}, b);
  }

  lemma {:induction false} Within(a: set<nat>, b: set<nat>)
    requires a <= b
    ensures |a| <= |b|
  {
    assert b == a + (b - a);
  }

  lemma NothingToClose(s: Server, hash: nat, clock: nat)
    requires s.table.idx <= |s.table.descs|
    requires Lookup(s.table, hash).Some? || FirstFree(s.table.descs, s.table.idx) < |s.table.descs|
    ensures Closed(s, hash, clock) == s
  {}

  lemma OpensOrNot(t: Table, e: Event)
    requires Enabled(t, e) && e.Prepare? && e.disk.pathOk && e.disk.fopenOk
    requires Lookup(t, e.hash).Some? || FirstFree(t.descs, t.idx) < |t.descs|
    ensures Outcome(t, e) != -1
  {
    hide Lookup, FirstFree, Victim;
  }

  lemma Serves(s: Server, hashes: set<nat>, n: nat, r: Request, now: (nat, nat))
    requires Plain(s, hashes, n) && |hashes| <= |s.table.descs| && Followed(r) && HashOf(r) in hashes
    ensures Unlinked(s.table) && Settled(s, HashOf(r), now.0) && Closed(s, HashOf(r), now.0) == s
    ensures var e := Asking(s, HashOf(r), Mode(r), now);
            && Outcome(s.table, e) != -1 && Enabled(s.table, e) && Ordinary(s.table, e)
  {
    var hash := HashOf(r);
    assert hash != 0;
    InUse(s.table, n, hash);
    InvUnlinked(s.table, n);
    if Lookup(s.table, hash).None? {
      RoomFor(s, hashes, n, hash);
    }
    NothingToClose(s, hash, now.0);
    hide Plain, Inv, Keys.KeyHash, FirstFree, Lookup, Quiet, Closed, Outcome, Unlinked;
    OpensOrNot(s.table, Asking(s, hash, Mode(r), now));
  }

  lemma InvUnlinked(t: Table, n: nat)
    requires Inv(t, n)
    ensures Unlinked(t)
  {
    hide Bucket;
  }

  /** What an event of such a run does to the streams of the slots. */
  lemma StepFds(t: Table, e: Event, n: nat)
    requires Inv(t, n) && Enabled(t, e) && Ordinary(t, e) && e.Prepare? && e.disk.fopenOk
    ensures n <= |Step(t, e).descs|
    ensures Outcome(t, e) >= 0 ==> Outcome(t, e) < TableSpec.Used(t, e, n) <= |Step(t, e).descs|
    ensures forall k :: 0 <= k < n ==>
              Step(t, e).descs[k].fd == t.descs[k].fd && Step(t, e).descs[k].hash == t.descs[k].hash
    ensures if TableSpec.Used(t, e, n) == n + 1
            then Step(t, e).streams == t.streams + [e.hash] && n < |Step(t, e).descs|
                 && Step(t, e).descs[n].fd == Some(|t.streams|) && Step(t, e).descs[n].hash == e.hash
            else Step(t, e).streams == t.streams
  {
    InUse(t, n, e.hash);
    hide Bucket, Victim, FirstFree, Lookup, Inv;
  }

  lemma StepApart(t: Table, hashes: set<nat>, n: nat, e: Event)
    requires Apart(t, hashes, n) && Enabled(t, e) && Ordinary(t, e) && NoCollisions(hashes)
    requires e.Prepare? ==> e.hash in hashes
    ensures Apart(Step(t, e), hashes, TableSpec.Used(t, e, n)) && |Step(t, e).descs| == |t.descs|
    ensures n <= |t.descs| && HashesIn(t, n) <= HashesIn(Step(t, e), TableSpec.Used(t, e, n))
  {
    InvUnlinked(t, n);
    StepUnlinked(t, e);
    StepKeeps(t, e, n);
    StepHashes(t, e, n);
    FewerCollisions(HashesIn(t, n) + if Opens(t, e) then {e.hash} else {}, hashes);
    StepDistinct(t, e, n);
    hide Inv, Step, Ordinary, HashesIn, BucketsDistinct, NoCollisions, Opens, TableSpec.Used;
  }

  /** The same streams wait, and the slots have their streams, the new one the new stream. */
  lemma StillOwn(s: Server, p: Server, n: nat, m: nat)
    requires n <= |s.table.descs| && OwnStreams(s, n) && p.unwritten == s.unwritten
    requires n <= m <= n + 1 && m <= |p.table.descs| && HashesIn(s.table, n) <= HashesIn(p.table, m)
    requires s.table.streams <= p.table.streams
    requires forall k :: 0 <= k < n ==>
               p.table.descs[k].fd == s.table.descs[k].fd && p.table.descs[k].hash == s.table.descs[k].hash
    requires m == n + 1 ==> p.table.descs[n].fd == Some(|s.table.streams|)
                            && p.table.streams == s.table.streams + [p.table.descs[n].hash]
    ensures OwnStreams(p, m)
  {
    hide HashesIn;
  }

  lemma PreparePlain(s: Server, hashes: set<nat>, n: nat, r: Request, now: (nat, nat))
    requires Plain(s, hashes, n) && |hashes| <= |s.table.descs| && Followed(r) && HashOf(r) in hashes
    requires NoCollisions(hashes)
    ensures Unlinked(s.table)
    ensures var e, p := Asking(s, HashOf(r), Mode(r), now), AfterPrepare(s, HashOf(r), Mode(r), now);
            && Plain(p, hashes, TableSpec.Used(s.table, e, n)) && |p.table.descs| == |s.table.descs|
            && Outcome(s.table, e) < TableSpec.Used(s.table, e, n)
  {
    var hash := HashOf(r);
    Serves(s, hashes, n, r, now);
    var e, p := Asking(s, hash, Mode(r), now), AfterPrepare(s, hash, Mode(r), now);
    StepApart(s.table, hashes, n, e);
    StepFds(s.table, e, n);
    InvSize(p.table, TableSpec.Used(s.table, e, n));
    hide Keys.KeyHash, Lookup, Unlinked, Closed, Outcome, Step, Ordinary, HashesIn, NoCollisions, Apart, OwnStreams,
         Inv, Asking;
    StillOwn(s, p, n, TableSpec.Used(s.table, e, n));
  }

  lemma FewerCollisions(a: set<nat>, b: set<nat>)
    requires NoCollisions(b) && a <= b
    ensures NoCollisions(a)
  {
    hide Bucket;
  }

  lemma AppliedWaits(s: Server, stream: nat, effect: Effect)
    requires stream < |s.table.streams|
    ensures Applied(s, stream, effect).table == s.table
    ensures forall i :: i in Applied(s, stream, effect).unwritten ==> i in s.unwritten || i == stream
  {
    hide SeenBy;
  }

  /** A stream of an open file may begin to wait. */
  lemma AppliedPlain(s: Server, hashes: set<nat>, n: nat, slot: nat, effect: Effect)
    requires Plain(s, hashes, n) && slot < n <= |s.table.descs|
    requires s.table.descs[slot].fd.Some? && s.table.descs[slot].fd.value < |s.table.streams|
    ensures Plain(Applied(s, s.table.descs[slot].fd.value, effect), hashes, n)
  {
    InTable(s.table, n, slot);
    AppliedWaits(s, s.table.descs[slot].fd.value, effect);
    hide Apart, HashesIn, Applied;
  }

  lemma SlotApart(t: Table, hashes: set<nat>, n: nat, k: nat, d: Slot)
    requires Apart(t, hashes, n) && k < n <= |t.descs|
    requires d.hash == t.descs[k].hash && d.next == d.prev == None
    ensures var u := t.(descs := t.descs[k := d]);
            Apart(u, hashes, n) && HashesIn(u, n) == HashesIn(t, n)
  {
    SlotKeeps(t, k, d, n);
    SameHashes(t, t.(descs := t.descs[k := d]), n);
    hide Inv, HashesIn, Bucket;
  }

  lemma FinishPlain(s: Server, hashes: set<nat>, n: nat, slot: nat, length: nat)
    requires Plain(s, hashes, n) && slot < n <= |s.table.descs| && s.table.idx <= |s.table.descs|
    ensures Plain(Finish(s, slot, length), hashes, n) && |Finish(s, slot, length).table.descs| == |s.table.descs|
  {
    var d := s.table.descs[slot].(length := length, refs := s.table.descs[slot].refs - 1);
    InUse(s.table, n, 0);
    SlotApart(s.table, hashes, n, slot, d);
    var f := Finish(s, slot, length);
    hide Apart, HashesIn, OwnStreams, Inv, Bucket;
    assert f.table == s.table.(descs := s.table.descs[slot := d]);
    assert f.unwritten == s.unwritten;
    hide Finish, Step;
    StillOwn(s, f, n, n);
  }

  /** A request keeps all this. */
  lemma ServePlain(s: Server, hashes: set<nat>, n: nat, r: Request, now: (nat, nat)) returns (n': nat)
    requires Plain(s, hashes, n) && |hashes| <= |s.table.descs| && Followed(r) && HashOf(r) in hashes
    requires NoCollisions(hashes)
    ensures Unlinked(s.table)
    ensures Plain(Serve(s, r, now).0, hashes, n')
    ensures |Serve(s, r, now).0.table.descs| == |s.table.descs|
  {
    PreparePlain(s, hashes, n, r, now);
    hide Keys.KeyHash, NoCollisions, Plain, CommandOf, Serve;
    n' := TableSpec.Used(s.table, Asking(s, HashOf(r), Mode(r), now), n);
    RunPlain(s, hashes, n', HashOf(r), Mode(r), now, CommandOf(r));
    hide Run;
    assert Serve(s, r, now) == Run(s, HashOf(r), Mode(r), now, CommandOf(r)) by {
      ServeIsRun(s, r, now);
    }
  }

  lemma ServeIsRun(s: Server, r: Request, now: (nat, nat))
    requires Unlinked(s.table) && Followed(r)
    ensures Serve(s, r, now) == Run(s, HashOf(r), Mode(r), now, CommandOf(r))
  {
    hide Followed, Keys.KeyHash, Run, CommandOf;
  }

  lemma RunPlain(s: Server, hashes: set<nat>, n: nat, hash: nat, mode: nat, now: (nat, nat), command: Command)
    requires Unlinked(s.table) && Plain(AfterPrepare(s, hash, mode, now), hashes, n)
    requires |AfterPrepare(s, hash, mode, now).table.descs| == |s.table.descs|
    requires Outcome(s.table, Asking(s, hash, mode, now)) < n
    ensures Plain(Run(s, hash, mode, now, command).0, hashes, n)
    ensures |Run(s, hash, mode, now, command).0.table.descs| == |s.table.descs|
  {
    var p, slot := AfterPrepare(s, hash, mode, now), Outcome(s.table, Asking(s, hash, mode, now));
    OutcomeInTable(s.table, Asking(s, hash, mode, now));
    PlainSizes(p, hashes, n);
    hide Plain, Asking, AfterPrepare, Outcome, Unlinked, Applied, Finish;
    if slot >= 0 && p.table.descs[slot].fd.Some? && p.table.descs[slot].fd.value < |p.table.streams| {
      var stream := p.table.descs[slot].fd.value;
      var effect := command(SeenBy(p, stream), p.table.descs[slot].length);
      AppliedPlain(p, hashes, n, slot, effect);
      SameTable(p, stream, effect);
      FinishPlain(Applied(p, stream, effect), hashes, n, slot, effect.length);
    }
  }

  lemma PlainSizes(s: Server, hashes: set<nat>, n: nat)
    requires Plain(s, hashes, n)
    ensures n <= |s.table.descs| && s.table.idx <= |s.table.descs|
  {}

  lemma SameTable(s: Server, stream: nat, effect: Effect)
    requires stream < |s.table.streams|
    ensures Applied(s, stream, effect).table == s.table
  {}

  function HashesOf(requests: seq<Request>): set<nat>
    requires forall i :: 0 <= i < |requests| ==> Followed(requests[i])
  {
    set i | 0 <= i < |requests| :: HashOf(requests[i])
  }

  lemma {:induction false} PlainServed(s: Server, hashes: set<nat>, n: nat, requests: seq<Request>,
                                       times: seq<(nat, nat)>)
    requires |times| == |requests| && Plain(s, hashes, n) && |hashes| <= |s.table.descs| && NoCollisions(hashes)
    requires forall i :: 0 <= i < |requests| ==> Followed(requests[i]) && HashOf(requests[i]) in hashes
    ensures AllServed(s, requests, times)
    decreases |requests|
  {
    hide Plain, NoCollisions, Keys.KeyHash, Followed, Serve, Outcome, Asking, Settled, Unlinked;
    if requests == [] {
    } else {
      Serves(s, hashes, n, requests[0], times[0]);
      var n' := ServePlain(s, hashes, n, requests[0], times[0]);
      var f := Serve(s, requests[0], times[0]).0;
      PlainServed(f, hashes, n', requests[1..], times[1..]);
    }
  }

  /** Any number of requests for up to `size` keys with buckets of their own, on a server that has just started:
      each of them can be served. */
  lemma FewKeysServed(size: nat, disk: map<nat, seq<byte>>, requests: seq<Request>, times: seq<(nat, nat)>)
    requires |times| == |requests| && forall i :: 0 <= i < |requests| ==> Followed(requests[i])
    requires NoCollisions(HashesOf(requests)) && |HashesOf(requests)| <= size
    ensures AllServed(Started(size, disk), requests, times)
  {
    hide NoCollisions, Keys.KeyHash, Followed, AllServed;
    NoHashes(Initial(size));
    PlainServed(Started(size, disk), HashesOf(requests), 0, requests, times);
  }

  /** So they are answered as the bitmaps say that the files at the start stand for. */
  lemma FewKeysRefine(size: nat, disk: map<nat, seq<byte>>, m: map<nat, Bitmap>, requests: seq<Request>,
                      times: seq<(nat, nat)>)
    requires |times| == |requests| && forall i :: 0 <= i < |requests| ==> Followed(requests[i])
    requires NoCollisions(HashesOf(requests)) && |HashesOf(requests)| <= size
    requires forall h: nat :: StandsFor(Content(disk, h), BitmapOf(m, h))
    ensures AllServed(Started(size, disk), requests, times)
    ensures Refines(ServerAfter(Started(size, disk), requests, times), SpecAfter(m, requests))
    ensures forall k :: 0 <= k < |requests| ==>
              ReplyTo(requests[k], Worlds(Started(size, disk), requests, times)[k]) == Some(SpecReplies(m, requests)[k])
  {
    FewKeysServed(size, disk, requests, times);
    StartedRefines(size, disk, m);
    hide *;
    SequenceRefines(Started(size, disk), m, requests, times);
  }
}
