/** parse_and_execute branch by branch (src/parser.c:26-82, 84-370 and src/file.c:257-275): the line is
    scanned, refused or run, answered, and the descriptors taken for it are released. */
module Parser {
  import opened Memory
  import opened Splitter
  import opened Wrappers
  import opened ParserSpec
  import BitOp
  import CommandHashes
  import Xxh64

  /** A command as it is run: what it was asked, the descriptor of its key or destination, and those of
      its sources. */
  datatype Run = Run(request: Request, dest: Option<nat>, sources: seq<Option<nat>>)

  /** The descriptors of the sources: prepare_files goes through the keys from the last to the first. */
  function SourceDescs(w: World, base: nat, count: nat): (s: seq<Option<nat>>)
    ensures |s| == count
  {
    if count == 0 then []
    else [DescOf(Call(w, base, count - 1))] + SourceDescs(w, base, count - 1)
  }

  function DescOf(p: Prepared): Option<nat> {
    if p.Got? then Some(p.slot) else None
  }

  /** The slots a descriptor array holds. */
  ghost function Held(desc: seq<Option<nat>>): multiset<nat> {
    if desc == [] then multiset{}
    else (if desc[0].Some? then multiset{desc[0].value} else multiset{}) + Held(desc[1..])
  }

  lemma {:induction false} HeldConcat(a: seq<Option<nat>>, b: seq<Option<nat>>)
    ensures Held(a + b) == Held(a) + Held(b)
  {
    if a == [] {
      assert a + b == b;
    } else {
      assert (a + b)[1..] == a[1..] + b;
      HeldConcat(a[1..], b);
    }
  }

  lemma HeldUpdate(desc: seq<Option<nat>>, i: nat, d: Option<nat>)
    requires i < |desc|
    ensures Held(desc[i := d]) + Held([desc[i]]) == Held(desc) + Held([d])
  {
    var front, rest := desc[..i], desc[i + 1..];
    assert desc == front + [desc[i]] + rest && desc[i := d] == front + [d] + rest;
    HeldConcat(front, [desc[i]]);
    HeldConcat(front + [desc[i]], rest);
    HeldConcat(front, [d]);
    HeldConcat(front + [d], rest);
  }

  ghost predicate AllNone(desc: seq<Option<nat>>) {
    |desc| == ARG_PART_MAXIMUM && forall i :: 0 <= i < |desc| ==> desc[i] == None
  }

  lemma {:induction false} HeldNone(desc: seq<Option<nat>>)
    requires forall i :: 0 <= i < |desc| ==> desc[i] == None
    ensures Held(desc) == multiset{}
  {
    if desc == [] {
    } else {
      HeldNone(desc[1..]);
    }
  }

  lemma HeldOne(d: Option<nat>)
    ensures Held([d]) == if d.Some? then multiset{d.value} else multiset{}
  {
    assert [d][1..] == [];
  }

  lemma {:induction false} HeldSources(w: World, base: nat, count: nat)
    ensures Held(SourceDescs(w, base, count)) == multiset(SlotsGot(w, base, count))
  {
    if count == 0 {
    } else {
      HeldSources(w, base, count - 1);
      var s := SourceDescs(w, base, count);
      assert s[1..] == SourceDescs(w, base, count - 1);
    }
  }

  /** The job of a request: its descriptors, the replies it has made, the calls of prepare_file so far with the keys
      and modes they were given, the slots acquired and released, and the commands run. */
  class Execution {
    const cpu: Endianess
    const atol: seq<byte> -> int
    const w: World
    var desc: seq<Option<nat>>
    var replies: seq<string>
    var calls: nat
    ghost var asked: seq<(seq<byte>, nat)>
    ghost var acquired: seq<nat>
    ghost var released: seq<nat>
    ghost var ran: seq<Run>

    ghost predicate Valid()
      reads this
    {
      |desc| == ARG_PART_MAXIMUM
    }

    /** bzero(job) */
    ghost predicate Fresh()
      reads this
    {
      && AllNone(desc)
      && replies == [] && calls == 0 && asked == [] && acquired == [] && released == [] && ran == []
    }

    constructor (cpu: Endianess, atol: seq<byte> -> int, w: World)
      ensures Valid() && Fresh() && this.cpu == cpu && this.atol == atol && this.w == w
    {
      this.cpu, this.atol, this.w := cpu, atol, w;
      desc, replies, calls := seq(ARG_PART_MAXIMUM, _ => None), [], 0;
      asked, acquired, released, ran := [], [], [], [];
    }

    /** reply(s, len): the length given is the length of the text. */
    method Reply(s: string, len: nat)
      requires len == |s|
      modifies this`replies
      ensures replies == old(replies) + [s]
    {
      replies := replies + [s];
    }

    /** prepare_file */
    method PrepareFile(key: seq<byte>, mode: nat) returns (r: Prepared)
      modifies this`calls, this`asked, this`acquired
      ensures r == w.prepare(old(calls)) && calls == old(calls) + 1
      ensures asked == old(asked) + [(key, mode)]
      ensures acquired == old(acquired) + if r.Got? then [r.slot] else []
    {
      r := w.prepare(calls);
      calls := calls + 1;
      asked := asked + [(key, mode)];
      if r.Got? {
        acquired := acquired + [r.slot];
      }
    }

    /** prepare_files: the descriptors of the sources, or false when one of them failed; then what was
        prepared before it stays with the local array. */
    method PrepareFiles(keys: seq<seq<byte>>) returns (ok: bool, tmp: seq<Option<nat>>)
      modifies this`calls, this`asked, this`acquired
      ensures var count := |keys|;
              && (ok <==> FirstFailure(w, old(calls), count) == count)
              && asked == old(asked) + SourcesAsked(keys, CallsMade(w, old(calls), count))
      ensures ok ==> tmp == SourceDescs(w, old(calls), |keys|)
      ensures acquired == old(acquired) + SlotsGot(w, old(calls), FirstFailure(w, old(calls), |keys|))
    {
      var count := |keys|;
      tmp := [];
      ghost var base := calls;
      var k := 0;
      while k < count
        invariant k <= count && calls == base + k
        invariant tmp == SourceDescs(w, base, k)
        invariant asked == old(asked) + SourcesAsked(keys, k)
        invariant acquired == old(acquired) + SlotsGot(w, base, k)
        invariant forall j :: 0 <= j < k ==> !Call(w, base, j).Failed?
      {
        var r := PrepareFile(keys[count - 1 - k], 1);
        assert r == Call(w, base, k);
        if r.Failed? {
          assert FirstFailure(w, base, count) == k;
          return false, tmp;
        }
        tmp := [DescOf(r)] + tmp;
        k := k + 1;
      }
      return true, tmp;
    }

    /** release_all_descs */
    method ReleaseAll()
      requires Valid()
      modifies this`desc, this`released
      ensures Valid() && AllNone(desc)
      ensures multiset(released) == multiset(old(released)) + Held(old(desc))
    {
      var i := 0;
      while i < ARG_PART_MAXIMUM
        invariant i <= ARG_PART_MAXIMUM && |desc| == ARG_PART_MAXIMUM
        invariant forall k :: 0 <= k < i ==> desc[k] == None
        invariant multiset(released) + Held(desc) == multiset(old(released)) + Held(old(desc))
      {
        hide Held;
        if desc[i].Some? {
          ReleaseOne(desc, i);
          released := released + [desc[i].value];
          desc := desc[i := None];
        }
        i := i + 1;
      }
      HeldNone(desc);
    }

    // ---------- The branches of the switch ----------

    /** The request is over: it was answered and run as it should, and everything acquired for it has
        been released but what is leaked. */
    ghost predicate Done(r: Request)
      reads this
    {
      && Valid() && AllNone(desc)
      && replies == (match ReplyTo(r, w) case None => [] case Some(text) => [text])
      && asked == AskedFor(r, w) && ran == RanFor(r, w)
      && multiset(acquired) == multiset(released) + multiset(Leaked(r, w))
    }

    method ReplyResult(result: int)
      requires result < RESULT_LIMIT
      modifies this`replies
      ensures replies == old(replies) + [ResultLine(result)]
      ensures var t := replies[|replies| - 1];
              if result < 0 then t == "ERR:FILE ACCESS FAILED\n"
              else t[|t| - 1] == '\n' && Numeral(t[..|t| - 1], result)
    {
      if result < 0 {
        Reply("ERR:FILE ACCESS FAILED\n", 23);
      } else {
        var buf := Digits(result) + "\n";
        var written := |buf|;
        ResultFits(result);
        assert written < 16;
        DigitsRead(result);
        assert buf[..|buf| - 1] == Digits(result);
        Reply(buf, written);
      }
    }

    /** The descriptor of the key is entered as the first of the job. */
    method Enter(slot: nat)
      requires AllNone(desc)
      modifies this`desc
      ensures Valid() && Held(desc) == multiset{slot} && desc[0] == Some(slot)
      ensures forall i :: 1 <= i < |desc| ==> desc[i] == None
    {
      HeldNone(desc);
      HeldUpdate(desc, 0, Some(slot));
      HeldOne(None);
      HeldOne(Some(slot));
      desc := desc[0 := Some(slot)];
    }

    method CaseSetBit(line: seq<byte>, c: nat)
      requires Fresh() && c == |Tokens(line)| && w.result < RESULT_LIMIT
      modifies this
      ensures Done(if c != 4 then Refused(ArgTooManyOrFew) else ParseSetBit(Tokens(line)[1..], atol))
    {
      hide Tokens, CString, Fresh, Done;
      if c != 4 {
        Refuse(ArgTooManyOrFew, "ERR:ARG TOO MANY OR FEW\n", 24);
        return;
      }
      var args, _ := SplitFill(line, |line|, c);
      var offset := atol(args[1]);
      var t := offset / 8;
      if t < 0 || t > FILE_SIZE_LIMIT {
        Refuse(OffsetOutOfRange, "ERR:OFFSET OUT OF RANGE\n", 24);
        return;
      }
      var value := atol(args[2]);
      if value != 0 && value != 1 {
        Refuse(ValueNotABit, "ERR:SETBIT(3) MUST BE 1 OR 0\n", 29);
        return;
      }
      if |CString(args[0])| > 64 {
        Refuse(KeyTooLong, "ERR:KEY TOO LONG\n", 17);
        return;
      }
      RunSetBit(SetBit(args[0], offset, value));
    }

    /** SETBIT from the preparation of its file on. */
    method RunSetBit(request: Request)
      requires Fresh() && request.SetBit? && w.result < RESULT_LIMIT
      modifies this
      ensures Done(request)
    {
      hide Held, ResultLine;
      var r := PrepareFile(request.key, 0);
      if !r.Got? {
        Reply("ERR:FILESYSTEM FAILED\n", 22);
        ReleaseNothing();
        return;
      }
      Enter(r.slot);
      ran := ran + [Run(request, desc[0], [])];
      ReplyResult(w.result);
      ReleaseAll();
    }

    /** release_all_descs when nothing is held. */
    method ReleaseNothing()
      requires AllNone(desc)
      modifies this`desc, this`released
      ensures AllNone(desc) && multiset(released) == multiset(old(released))
    {
      HeldNone(desc);
      ReleaseAll();
    }

    method CaseGetBit(line: seq<byte>, c: nat)
      requires Fresh() && c == |Tokens(line)| && w.result < RESULT_LIMIT
      modifies this
      ensures Done(if c != 3 then Refused(ArgsTooManyOrFew) else ParseGetBit(Tokens(line)[1..], atol))
    {
      hide Tokens, CString, Fresh, Done;
      if c != 3 {
        Refuse(ArgsTooManyOrFew, "ERR:ARGS TOO MANY OR FEW\n", 25);
        return;
      }
      var args, _ := SplitFill(line, |line|, c);
      var offset := atol(args[1]);
      var t := offset / 8;
      if t < 0 || t > FILE_SIZE_LIMIT {
        Refuse(OffsetOutOfRange, "ERR:OFFSET OUT OF RANGE\n", 24);
        return;
      }
      if |CString(args[0])| > 64 {
        Refuse(KeyTooLong, "ERR:KEY TOO LONG\n", 17);
        return;
      }
      RunGetBit(GetBit(args[0], offset));
    }

    /** GETBIT from the preparation of its file on. */
    method RunGetBit(request: Request)
      requires Fresh() && request.GetBit? && w.result < RESULT_LIMIT
      modifies this
      ensures Done(request)
    {
      hide Held, ResultLine;
      var r := PrepareFile(request.key, 1);
      if r.NoFile? {
        Reply("0\n", 2);
        return;
      }
      if r.Failed? {
        Reply("ERR:FILESYSTEM FAILED\n", 22);
        ReleaseNothing();
        return;
      }
      Enter(r.slot);
      ran := ran + [Run(request, desc[0], [])];
      ReplyResult(w.result);
      ReleaseAll();
    }

    method CaseBitCount(line: seq<byte>, c: nat)
      requires Fresh() && c == |Tokens(line)| && w.result < RESULT_LIMIT
      modifies this
      ensures Done(if c < 2 || c > 4 then Refused(ArgsTooManyOrFew) else ParseBitCount(Tokens(line)[1..], atol))
    {
      hide Tokens, CString, Fresh, Done;
      if c < 2 || c > 4 {
        Refuse(ArgsTooManyOrFew, "ERR:ARGS TOO MANY OR FEW\n", 25);
        return;
      }
      var args, _ := SplitFill(line, |line|, c);
      if |CString(args[0])| > 64 {
        Refuse(KeyTooLong, "ERR:KEY TOO LONG\n", 17);
        return;
      }
      CountKey(args);
    }

    /** BITCOUNT from the preparation of its file on. */
    method CountKey(args: seq<seq<byte>>)
      requires Fresh() && 1 <= |args| <= 3 && KeyFits(args[0]) && w.result < RESULT_LIMIT
      modifies this
      ensures Done(ParseBitCount(args, atol))
    {
      hide Held, CString, ResultLine, KeyFits;
      ghost var request := ParseBitCount(args, atol);
      assert request.BitCount? && request.key == args[0];
      hide ParseBitCount;
      var r := PrepareFile(args[0], 1);
      if r.NoFile? {
        Reply("0\n", 2);
        return;
      }
      if r.Failed? {
        Reply("ERR:FILESYSTEM FAILED\n", 22);
        ReleaseNothing();
        return;
      }
      Enter(r.slot);
      CountOpen(args, r.slot);
    }

    /** BITCOUNT on the file it has. */
    method CountOpen(args: seq<seq<byte>>, slot: nat)
      requires Valid() && 1 <= |args| <= 3 && KeyFits(args[0]) && w.result < RESULT_LIMIT
      requires Held(desc) == multiset{slot} && desc[0] == Some(slot)
      requires replies == [] && released == [] && ran == []
      modifies this`desc, this`replies, this`released, this`ran
      ensures Valid() && AllNone(desc) && multiset(released) == multiset{slot}
      ensures replies == [if w.length(slot) == 0 then "0\n" else ResultLine(w.result)]
      ensures ran == if w.length(slot) == 0 then []
                     else [Run(BitCount(args[0], Filled(ParseBitCount(args, atol).range, w.length(slot))),
                               Some(slot), [])]
    {
      hide Held, CString, ResultLine, KeyFits, ParseBitCount, Filled, AllNone;
      if w.length(slot) == 0 {
        Reply("0\n", 2);
        ReleaseAll();
        return;
      }
      var start, end := Bounds(args, w.length(slot));
      ran := ran + [Run(BitCount(args[0], [start, end]), desc[0], [])];
      ReplyResult(w.result);
      ReleaseAll();
    }

    /** The range to count: to the end where no end is given, the whole file where nothing is given. */
    method Bounds(args: seq<seq<byte>>, length: nat) returns (start: int, end: int)
      requires 1 <= |args| <= 3 && KeyFits(args[0]) && length > 0
      ensures [start, end] == Filled(ParseBitCount(args, atol).range, length)
    {
      hide KeyFits;
      if |args| == 1 {
        start, end := 0, length - 1;
      } else if |args| == 2 {
        start, end := atol(args[1]), length - 1;
      } else {
        start, end := atol(args[1]), atol(args[2]);
      }
    }

    /** prepare_files writes the descriptors of the sources behind the first of the job. */
    method EnterSources(tmp: seq<Option<nat>>)
      requires Valid() && 1 + |tmp| <= ARG_PART_MAXIMUM
      requires forall i :: 1 <= i < |desc| ==> desc[i] == None
      modifies this`desc
      ensures Valid() && desc[0] == old(desc[0]) && desc[1..1 + |tmp|] == tmp
      ensures Held(desc) == Held([old(desc[0])]) + Held(tmp)
    {
      hide Held;
      ghost var rest := desc[1 + |tmp|..];
      desc := desc[..1] + tmp + desc[1 + |tmp|..];
      assert desc == [old(desc[0])] + (tmp + rest);
      HeldConcat([old(desc[0])], tmp + rest);
      HeldConcat(tmp, rest);
      HeldNone(rest);
    }

    /** BITOP from the preparation of its sources on, for either kind of request. */
    method RunSources(r: Request, keys: seq<seq<byte>>)
      requires Valid() && w.result < RESULT_LIMIT && 1 <= |keys| < ARG_PART_MAXIMUM
      requires forall i :: 1 <= i < |desc| ==> desc[i] == None
      requires replies == [] && released == [] && ran == []
      requires multiset(acquired) == Held([desc[0]])
      modifies this
      ensures AllNone(desc)
      ensures var count := |keys|;
              var k := FirstFailure(w, old(calls), count);
              && asked == old(asked) + SourcesAsked(keys, CallsMade(w, old(calls), count))
              && replies == [if k == count then ResultLine(w.result) else FILESYSTEM_FAILED]
              && ran == (if k == count then [Run(r, old(desc[0]), SourceDescs(w, old(calls), count))] else [])
              && multiset(acquired) == multiset(released)
                                     + multiset(if k == count then [] else SlotsGot(w, old(calls), k))
    {
      hide Held, ResultLine, FirstFailure, SlotsGot, SourceDescs, SourcesAsked, CallsMade;
      var count := |keys|;
      var ok, tmp := PrepareFiles(keys);
      if !ok {
        Reply("ERR:FILESYSTEM FAILED\n", 22);
        OnlyFirst(desc);
        ReleaseAll();
        return;
      }
      HeldSources(w, old(calls), count);
      EnterSources(tmp);
      ran := ran + [Run(r, desc[0], desc[1..1 + count])];
      ReplyResult(w.result);
      ReleaseAll();
    }

    method CaseBitOp(line: seq<byte>, c: nat)
      requires Fresh() && c == |Tokens(line)| && w.result < RESULT_LIMIT
      requires forall k :: 0 <= k < |Tokens(line)| ==> Tokens(line)[k] != []
      modifies this
      ensures Done(if c < 4 || c > 19 then Refused(ArgsTooManyOrFew) else ParseBitOp(Tokens(line)[1..]))
    {
      hide Tokens, CString, Fresh, Done, SameWord;
      if c < 4 || c > 19 {
        Refuse(ArgsTooManyOrFew, "ERR:ARGS TOO MANY OR FEW\n", 25);
        return;
      }
      var args, _ := SplitFill(line, |line|, c);
      var option := OptionOf(args[0]);
      if option.None? {
        Refuse(UnknownOption, "ERR:UKNOW OPTION\n", 17);
        return;
      }
      var op := option.value;
      if op == BitOp.NOT && c != 4 {
        Refuse(NotNeedsOneSource, "ERR:BITOP NOT JUST NEEDS ONE SOURCE\n", 36);
        return;
      }
      BitOpTarget(op, args);
    }

    /** The comparisons of the operation's name, each after a look at its first letter. */
    method OptionOf(word: seq<byte>) returns (option: Option<BitOp.Op>)
      requires word != []
      ensures option == ParseOp(word)
    {
      FirstLetter(word, AND_WORD);
      FirstLetter(word, OR_WORD);
      FirstLetter(word, XOR_WORD);
      FirstLetter(word, NOT_WORD);
      hide SameWord;
      if (word[0] == 97 || word[0] == 65) && SameWord(word, AND_WORD) {
        return Some(BitOp.AND);
      } else if (word[0] == 111 || word[0] == 79) && SameWord(word, OR_WORD) {
        return Some(BitOp.OR);
      } else if (word[0] == 120 || word[0] == 88) && SameWord(word, XOR_WORD) {
        return Some(BitOp.XOR);
      } else if (word[0] == 110 || word[0] == 78) && SameWord(word, NOT_WORD) {
        return Some(BitOp.NOT);
      } else {
        return None;
      }
    }

    /** BITOP from its second argument on: a hook, or a destination key. */
    method BitOpTarget(op: BitOp.Op, args: seq<seq<byte>>)
      requires Fresh() && w.result < RESULT_LIMIT
      requires 3 <= |args| <= 18 && args[1] != [] && ParseOp(args[0]) == Some(op)
      requires op == BitOp.NOT ==> |args| == 3
      modifies this
      ensures Done(ParseBitOp(args))
    {
      hide Fresh, Done, CString, SameWord, ParseOp;
      if args[1][0] == 5 {
        if SameWord(args[1][1..], COUNTOP_WORD) {
          RunHooked(Hooked(op, BitOp.COUNTOP, args[2..]));
        } else if SameWord(args[1][1..], GETOP_WORD) {
          RunHooked(Hooked(op, BitOp.GETOP, args[2..]));
        } else {
          Refuse(UnknownOption, "ERR:UKNOW OPTION\n", 17);
        }
        return;
      }
      if |CString(args[1])| > 64 {
        Refuse(KeyTooLong, "ERR:KEY TOO LONG\n", 17);
        return;
      }
      RunStore(Store(op, args[1], args[2..]));
    }

    /** BITOP with a destination, from the preparation of its file on. */
    method RunStore(request: Request)
      requires Fresh() && w.result < RESULT_LIMIT && request.Store? && 1 <= |request.sources| < ARG_PART_MAXIMUM
      modifies this
      ensures Done(request)
    {
      hide Held, ResultLine, FirstFailure, SlotsGot, SourceDescs, SourcesAsked, CallsMade;
      var r := PrepareFile(request.dest, 2);
      if !r.Got? {
        Reply("ERR:FILESYSTEM FAILED\n", 22);
        ReleaseNothing();
        return;
      }
      Enter(r.slot);
      OnlyFirst(desc);
      RunSources(request, request.sources);
    }

    /** A hook has no destination: the first descriptor of the job stays empty. */
    method RunHooked(request: Request)
      requires Fresh() && w.result < RESULT_LIMIT && request.Hooked? && 1 <= |request.sources| < ARG_PART_MAXIMUM
      modifies this
      ensures Done(request)
    {
      hide Held, ResultLine, FirstFailure, SlotsGot, SourceDescs, SourcesAsked, CallsMade;
      HeldNone([desc[0]]);
      RunSources(request, request.sources);
    }

    /** parse_and_execute */
    method ParseAndExecute(line: seq<byte>)
      requires Fresh() && w.result < RESULT_LIMIT
      modifies this
      ensures Done(Parse(line, atol))
    {
      hide Tokens, Fresh, Done, Parse, ParseSetBit, ParseGetBit, ParseBitCount, ParseBitOp;
      if |line| < CMD_MINIMUM {
        ParseShort(line, atol);
        Refuse(TooShort, "ERR:CMD TOO SHORT\n", 18);
        return;
      }
      NoEmptyToken(line);
      ParseLong(line, atol);
      var c := GetArgCount(line, |line|);
      var hash := Xxh64.OneShot(cpu, line[..5], 0);
      Switch(line, c, hash);
    }

    /** The switch on the hash of the command's name. */
    method Switch(line: seq<byte>, c: nat, hash: nat)
      requires Fresh() && |line| >= CMD_MINIMUM && w.result < RESULT_LIMIT
      requires c == |Tokens(line)| && hash == Xxh64.Hash(0, line[..5])
      requires forall k :: 0 <= k < |Tokens(line)| ==> Tokens(line)[k] != []
      modifies this
      ensures Done(Choose(line, hash, atol))
    {
      hide Tokens, Fresh, Done, ParseSetBit, ParseGetBit, ParseBitCount, ParseBitOp, Xxh64.Hash;
      if hash == SETBIT_HASH {
        CaseSetBit(line, c);
      } else if hash == GETBIT_HASH {
        CaseGetBit(line, c);
      } else if hash == BITOP_HASH {
        CaseBitOp(line, c);
      } else if hash == BITCOUNT_HASH {
        CaseBitCount(line, c);
      } else if hash == BITPOS_HASH {
        SomeToken(line);
        var _, _ := SplitFill(line, |line|, c);
        Silence();
      } else if hash == BITFIELD_HASH {
        if c < 5 {
          Refuse(ArgsTooFew, "ERR:ARGS TOO FEW\n", 17);
        } else {
          Silence();
        }
      } else {
        Refuse(UnknownCommand, "ERR:UNKNOW CMD\n", 15);
      }
    }

    // ---------- What has been run ----------

    /** A SETBIT has asked for its key so that it is created, and run on the slot that this yielded, with the
        offset and the value of the line. */
    lemma SetBitRan(line: seq<byte>)
      requires Done(Parse(line, atol)) && Parse(line, atol).SetBit?
      ensures var words := Tokens(line);
              && |words| == 4 && asked == [(words[1], 0)]
              && ran == match w.prepare(0)
                        case Got(slot) => [Run(SetBit(words[1], atol(words[2]), atol(words[3])), Some(slot), [])]
                        case _ => []
    {
      hide Tokens, Xxh64.Hash, KeyFits, Held, ParseOp, SameWord;
    }

    /** A GETBIT likewise, but it does not create the file. */
    lemma GetBitRan(line: seq<byte>)
      requires Done(Parse(line, atol)) && Parse(line, atol).GetBit?
      ensures var words := Tokens(line);
              && |words| == 3 && asked == [(words[1], 1)]
              && ran == match w.prepare(0)
                        case Got(slot) => [Run(GetBit(words[1], atol(words[2])), Some(slot), [])]
                        case _ => []
    {
      hide Tokens, Xxh64.Hash, KeyFits, Held, ParseOp, SameWord;
    }

    /** A BITCOUNT of a file that is not empty has run from its third word to its fourth, or from 0 and to the last
        byte where these are not there. */
    lemma BitCountRan(line: seq<byte>)
      requires Done(Parse(line, atol)) && Parse(line, atol).BitCount?
      ensures var words := Tokens(line);
              && 2 <= |words| <= 4 && asked == [(words[1], 1)]
              && (match w.prepare(0)
                  case Got(slot) =>
                    var length := w.length(slot);
                    var start := if |words| >= 3 then atol(words[2]) else 0;
                    var end := if |words| == 4 then atol(words[3]) else length - 1;
                    ran == if length == 0 then [] else [Run(BitCount(words[1], [start, end]), Some(slot), [])]
                  case _ => ran == [])
    {
      hide Tokens, Xxh64.Hash, KeyFits, Held, ParseOp, SameWord;
    }

    /** A BITOP that has run on all its files has asked for the destination so that it is truncated, and then for
        the sources from the last to the first; each source of the run is what the call for its word yielded. */
    lemma BitOpRan(line: seq<byte>)
      requires Done(Parse(line, atol)) && Parse(line, atol).Store? && ran != []
      ensures var words := Tokens(line);
              var n := |words| - 3;
              && |words| >= 4 && Some(Parse(line, atol).op) == ParseOp(words[1])
              && |asked| == 1 + n && asked[0] == (words[2], 2)
              && |ran| == 1 && ran[0].request == Parse(line, atol) && |ran[0].sources| == n
              && w.prepare(0).Got? && ran[0].dest == Some(w.prepare(0).slot)
              && (forall i :: 0 <= i < n ==>
                    ran[0].sources[i] == DescOf(w.prepare(n - i)) && asked[n - i] == (words[3 + i], 1))
    {
      hide *;
      Recorded(Parse(line, atol));
      StoreRan(Parse(line, atol), w);
      StoreWords(line, atol);
    }

    /** A BITOP with a hook has no destination, and asks for its sources in the same way. */
    lemma BitOpHookedRan(line: seq<byte>)
      requires Done(Parse(line, atol)) && Parse(line, atol).Hooked? && ran != []
      ensures var words := Tokens(line);
              var n := |words| - 3;
              && |words| >= 4 && Some(Parse(line, atol).op) == ParseOp(words[1])
              && |asked| == n
              && |ran| == 1 && ran[0].request == Parse(line, atol) && |ran[0].sources| == n
              && ran[0].dest == None
              && (forall i :: 0 <= i < n ==>
                    ran[0].sources[i] == DescOf(w.prepare(n - 1 - i)) && asked[n - 1 - i] == (words[3 + i], 1))
    {
      hide *;
      Recorded(Parse(line, atol));
      HookedRan(Parse(line, atol), w);
      HookedWords(line, atol);
    }

    lemma Recorded(r: Request)
      requires Done(r)
      ensures asked == AskedFor(r, w) && ran == RanFor(r, w)
    {}

    /** A refusal before anything was prepared. */
    method Refuse(why: Refusal, s: string, len: nat)
      requires Fresh() && s == Text(why) && len == |s|
      modifies this`replies
      ensures Done(Refused(why))
    {
      Reply(s, len);
    }

    lemma Silence()
      requires Fresh()
      ensures Done(Unanswered)
    {}
  }

  lemma ParseShort(line: seq<byte>, atol: seq<byte> -> int)
    requires |line| < CMD_MINIMUM
    ensures Parse(line, atol) == Refused(TooShort)
  {}

  lemma ParseLong(line: seq<byte>, atol: seq<byte> -> int)
    requires |line| >= CMD_MINIMUM
    ensures Parse(line, atol) == Choose(line, Xxh64.Hash(0, line[..5]), atol)
  {}

  /** split_fill is asked for at least the command's name: a line of nothing but spaces does not have the
      hash of BITPOS. */
  lemma SomeToken(line: seq<byte>)
    requires |line| >= CMD_MINIMUM && Xxh64.Hash(0, line[..5]) == BITPOS_HASH
    ensures Tokens(line) != []
  {
    hide Xxh64.Hash;
    if Tokens(line) == [] {
      OnlySpaces(line, 0);
      assert line[..5] == [32, 32, 32, 32, 32];
      CommandHashes.BlankHash();
    }
  }

  /** The calls of prepare_file that are made for `count` sources: none behind the first that fails. */
  function CallsMade(w: World, base: nat, count: nat): (k: nat)
    ensures k <= count
  {
    if FirstFailure(w, base, count) < count then FirstFailure(w, base, count) + 1 else count
  }

  /** What the first k of these calls ask for. */
  ghost function SourcesAsked(keys: seq<seq<byte>>, k: nat): (s: seq<(seq<byte>, nat)>)
    requires k <= |keys|
    ensures |s| == k
  {
    if k == 0 then [] else SourcesAsked(keys, k - 1) + [(keys[|keys| - k], 1)]
  }

  lemma {:induction false} SourceAskedAt(keys: seq<seq<byte>>, k: nat, j: nat)
    requires j < k <= |keys|
    ensures SourcesAsked(keys, k)[j] == (keys[|keys| - 1 - j], 1)
  {
    if j == k - 1 {
    } else {
      SourceAskedAt(keys, k - 1, j);
    }
  }

  /** The descriptor of source i is that of the call which was made for it. */
  lemma {:induction false} SourceDescAt(w: World, base: nat, count: nat, i: nat)
    requires i < count
    ensures SourceDescs(w, base, count)[i] == DescOf(w.prepare(base + (count - 1 - i)))
  {
    if i == 0 {
    } else {
      SourceDescAt(w, base, count - 1, i - 1);
    }
  }

  lemma StoreRan(r: Request, w: World)
    requires r.Store? && RanFor(r, w) != []
    ensures var (n, asked, ran) := (|r.sources|, AskedFor(r, w), RanFor(r, w));
            && |asked| == 1 + n && asked[0] == (r.dest, 2)
            && |ran| == 1 && ran[0].request == r && |ran[0].sources| == n
            && w.prepare(0).Got? && ran[0].dest == Some(w.prepare(0).slot)
            && (forall i :: 0 <= i < n ==>
                  ran[0].sources[i] == DescOf(w.prepare(n - i)) && asked[n - i] == (r.sources[i], 1))
  {
    hide SourceDescs, SourcesAsked, FirstFailure, DescOf;
    SourcesInOrder(r.sources, w, 1);
  }

  /** The calls for the sources go from the last to the first. */
  lemma SourcesInOrder(keys: seq<seq<byte>>, w: World, base: nat)
    ensures forall i :: 0 <= i < |keys| ==>
              && SourceDescs(w, base, |keys|)[i] == DescOf(w.prepare(base + (|keys| - 1 - i)))
              && SourcesAsked(keys, |keys|)[|keys| - 1 - i] == (keys[i], 1)
  {
    hide *;
    forall i | 0 <= i < |keys|
      ensures SourceDescs(w, base, |keys|)[i] == DescOf(w.prepare(base + (|keys| - 1 - i)))
      ensures SourcesAsked(keys, |keys|)[|keys| - 1 - i] == (keys[i], 1)
    {
      SourceDescAt(w, base, |keys|, i);
      SourceAskedAt(keys, |keys|, |keys| - 1 - i);
    }
  }

  /** Without a destination the sources are asked for in the same way. */
  lemma HookedRan(r: Request, w: World)
    requires r.Hooked? && RanFor(r, w) != []
    ensures var (n, asked, ran) := (|r.sources|, AskedFor(r, w), RanFor(r, w));
            && |asked| == n && |ran| == 1 && ran[0].request == r && |ran[0].sources| == n && ran[0].dest == None
            && (forall i :: 0 <= i < n ==>
                  ran[0].sources[i] == DescOf(w.prepare(n - 1 - i)) && asked[n - 1 - i] == (r.sources[i], 1))
  {
    hide SourceDescs, SourcesAsked, FirstFailure;
    SourcesInOrder(r.sources, w, 0);
  }

  lemma StoreWords(line: seq<byte>, atol: seq<byte> -> int)
    requires Parse(line, atol).Store?
    ensures var words := Tokens(line);
            && |words| >= 4 && ParseOp(words[1]) == Some(Parse(line, atol).op)
            && Parse(line, atol).dest == words[2] && Parse(line, atol).sources == words[3..]
  {
    hide Xxh64.Hash, KeyFits, ParseOp, SameWord;
    NoEmptyToken(line);
    hide Tokens;
    if |Tokens(line)| >= 4 {
      assert Tokens(line)[1..][2..] == Tokens(line)[3..];
    }
  }

  lemma HookedWords(line: seq<byte>, atol: seq<byte> -> int)
    requires Parse(line, atol).Hooked?
    ensures var words := Tokens(line);
            && |words| >= 4 && ParseOp(words[1]) == Some(Parse(line, atol).op)
            && Parse(line, atol).sources == words[3..]
  {
    hide Xxh64.Hash, KeyFits, ParseOp, SameWord;
    NoEmptyToken(line);
    hide Tokens;
    if |Tokens(line)| >= 4 {
      assert Tokens(line)[1..][2..] == Tokens(line)[3..];
    }
  }

  /** The keys that are asked for and how: mode 0 creates a file, 1 does not, 2 truncates it. */
  ghost function AskedFor(r: Request, w: World): seq<(seq<byte>, nat)> {
    match r
    case SetBit(key, _, _) => [(key, 0)]
    case GetBit(key, _) => [(key, 1)]
    case BitCount(key, _) => [(key, 1)]
    case Store(_, dest, sources) =>
      [(dest, 2)] + if w.prepare(0).Got? then SourcesAsked(sources, CallsMade(w, 1, |sources|)) else []
    case Hooked(_, _, sources) => SourcesAsked(sources, CallsMade(w, 0, |sources|))
    case _ => []
  }

  /** The command a request leads to, if its files could be had. */
  ghost function RanFor(r: Request, w: World): seq<Run> {
    match r
    case SetBit(_, _, _) => if w.prepare(0).Got? then [Run(r, Some(w.prepare(0).slot), [])] else []
    case GetBit(_, _) => if w.prepare(0).Got? then [Run(r, Some(w.prepare(0).slot), [])] else []
    case BitCount(key, range) =>
      if w.prepare(0).Got? && w.length(w.prepare(0).slot) != 0
      then [Run(BitCount(key, Filled(range, w.length(w.prepare(0).slot))), Some(w.prepare(0).slot), [])] else []
    case Store(_, _, sources) =>
      if w.prepare(0).Got? && FirstFailure(w, 1, |sources|) == |sources|
      then [Run(r, Some(w.prepare(0).slot), SourceDescs(w, 1, |sources|))] else []
    case Hooked(_, _, sources) =>
      if FirstFailure(w, 0, |sources|) == |sources| then [Run(r, None, SourceDescs(w, 0, |sources|))] else []
    case _ => []
  }

  lemma OnlyFirst(desc: seq<Option<nat>>)
    requires |desc| > 0 && forall i :: 1 <= i < |desc| ==> desc[i] == None
    ensures Held(desc) == Held([desc[0]])
  {
    assert desc == [desc[0]] + desc[1..];
    HeldConcat([desc[0]], desc[1..]);
    HeldNone(desc[1..]);
  }

  lemma FirstLetter(word: seq<byte>, name: seq<byte>)
    requires word != [] && name != [] && 97 <= name[0] <= 122
    ensures SameWord(word, name) ==> word[0] == name[0] || word[0] == name[0] - 32
  {}

  lemma ReleaseOne(desc: seq<Option<nat>>, i: nat)
    requires i < |desc| && desc[i].Some?
    ensures Held(desc[i := None]) + multiset{desc[i].value} == Held(desc)
  {
    HeldUpdate(desc, i, None);
    HeldOne(desc[i]);
    HeldOne(None);
  }
}
