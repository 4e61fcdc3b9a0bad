/** A request written out as a client writes it arrives as that request (clients/python/solidbits.py:37-62
    against src/parser.c:84-335), whatever the number of spaces between its words. */
module Requests {
  import opened Memory
  import opened Splitter
  import opened Wrappers
  import opened ParserSpec
  import BitOp
  import CommandHashes
  import Xxh64

  /** The line: the words of the request with gaps[i] spaces before the i-th and `trail` after the last,
      long enough not to be refused unseen. */
  ghost predicate Written(line: seq<byte>, words: seq<seq<byte>>, gaps: seq<nat>, trail: nat) {
    && |words| == |gaps| >= 1 && gaps[0] == 0
    && (forall i :: 0 < i < |gaps| ==> gaps[i] > 0)
    && (forall i :: 0 <= i < |words| ==> IsToken(words[i]))
    && line == Render(words, gaps, trail) && |line| >= CMD_MINIMUM
  }

  /** The first five bytes of the line are those of the command's name, and its tokens are the words. */
  lemma WordsArrive(line: seq<byte>, words: seq<seq<byte>>, gaps: seq<nat>, trail: nat)
    requires Written(line, words, gaps, trail) && |words[0]| >= 5
    ensures Tokens(line) == words && line[..5] == words[0][..5]
  {
    SplitRoundTrip(words, gaps, trail);
    assert line == Spaces(0) + words[0] + Render(words[1..], gaps[1..], trail);
    assert line[..5] == words[0][..5];
  }

  const SETBI: seq<byte> := [83, 69, 84, 66, 73]
  const GETBI: seq<byte> := [71, 69, 84, 66, 73]
  const BITOP_NAME: seq<byte> := [66, 73, 84, 79, 80]
  const BITCO: seq<byte> := [66, 73, 84, 67, 79]

  /** SETBIT key offset value */
  lemma SetBitArrives(line: seq<byte>, words: seq<seq<byte>>, gaps: seq<nat>, trail: nat, atol: seq<byte> -> int)
    requires Written(line, words, gaps, trail) && |words| == 4 && SETBI <= words[0]
    requires KeyFits(words[1]) && 0 <= atol(words[2]) / 8 <= FILE_SIZE_LIMIT && 0 <= atol(words[3]) <= 1
    ensures Parse(line, atol) == SetBit(words[1], atol(words[2]), atol(words[3]))
  {
    hide Xxh64.Hash, Tokens, Render, KeyFits;
    WordsArrive(line, words, gaps, trail);
    CommandHashes.SetbitHash();
    assert line[..5] == SETBI;
  }

  /** GETBIT key offset */
  lemma GetBitArrives(line: seq<byte>, words: seq<seq<byte>>, gaps: seq<nat>, trail: nat, atol: seq<byte> -> int)
    requires Written(line, words, gaps, trail) && |words| == 3 && GETBI <= words[0]
    requires KeyFits(words[1]) && 0 <= atol(words[2]) / 8 <= FILE_SIZE_LIMIT
    ensures Parse(line, atol) == GetBit(words[1], atol(words[2]))
  {
    hide Xxh64.Hash, Tokens, Render, KeyFits;
    WordsArrive(line, words, gaps, trail);
    CommandHashes.GetbitHash();
    assert line[..5] == GETBI;
  }

  /** BITCOUNT key [start [end]] */
  lemma BitCountArrives(line: seq<byte>, words: seq<seq<byte>>, gaps: seq<nat>, trail: nat, atol: seq<byte> -> int)
    requires Written(line, words, gaps, trail) && 2 <= |words| <= 4 && BITCO <= words[0]
    requires KeyFits(words[1])
    ensures var r := Parse(line, atol);
            && r.BitCount? && r.key == words[1] && |r.range| == |words| - 2
            && forall i :: 0 <= i < |r.range| ==> r.range[i] == atol(words[i + 2])
  {
    hide Xxh64.Hash, Tokens, Render, KeyFits;
    WordsArrive(line, words, gaps, trail);
    CommandHashes.BitcountHash();
    assert line[..5] == BITCO;
  }

  /** The range arguments the client writes: start and end, each only if it is given. */
  function RangeWords(start: Option<seq<byte>>, end: Option<seq<byte>>): seq<seq<byte>> {
    (if start.Some? then [start.value] else []) + (if end.Some? then [end.value] else [])
  }

  /** The range its caller means: from the first byte and to the last one where nothing else is said. */
  function RangeMeant(start: Option<seq<byte>>, end: Option<seq<byte>>, length: nat, atol: seq<byte> -> int): seq<int> {
    [if start.Some? then atol(start.value) else 0, if end.Some? then atol(end.value) else length - 1]
  }

  /** The server counts the range that is meant if and only if a start is given, or no end, or the range is
      the only byte of the file. */
  lemma RangeMeantExactly(line: seq<byte>, words: seq<seq<byte>>, gaps: seq<nat>, trail: nat, atol: seq<byte> -> int,
                          start: Option<seq<byte>>, end: Option<seq<byte>>, length: nat)
    requires |words| >= 2 && words[2..] == RangeWords(start, end)
    requires Written(line, words, gaps, trail) && BITCO <= words[0] && KeyFits(words[1])
    ensures Parse(line, atol).BitCount?
    ensures Filled(Parse(line, atol).range, length) == RangeMeant(start, end, length, atol)
       <==> start.Some? || end.None? || (atol(end.value) == 0 && length == 1)
  {
    hide Parse, KeyFits, Written;
    assert forall i :: 0 <= i < |words| - 2 ==> words[i + 2] == words[2..][i];
    BitCountArrives(line, words, gaps, trail, atol);
  }

  lemma RenderNext(words: seq<seq<byte>>, gaps: seq<nat>)
    requires |words| == |gaps| > 0
    ensures Render(words, gaps, 0) == Spaces(gaps[0]) + words[0] + Render(words[1..], gaps[1..], 0)
  {}

  lemma NoneOrOneSpace()
    ensures Spaces(0) == [] && Spaces(1) == [32]
  {}

  lemma OneWord(a: seq<byte>)
    ensures Render([a], [1], 0) == [32] + a
  {
    NoneOrOneSpace();
    assert [a][1..] == [] && [1 as nat][1..] == [];
    assert Render([], [], 0) == Spaces(0);
    hide Spaces;
    assert [32] + a + [] == [32] + a;
  }

  lemma TwoWords(a: seq<byte>, b: seq<byte>)
    ensures Render([a, b], [1, 1], 0) == [32] + a + ([32] + b)
  {
    hide Render, Spaces;
    NoneOrOneSpace();
    RenderNext([a, b], [1, 1]);
    assert [a, b][1..] == [b] && [1 as nat, 1][1..] == [1];
    OneWord(b);
  }

  /** Three words with one space between them. */
  lemma ThreeWords(a: seq<byte>, b: seq<byte>, c: seq<byte>)
    ensures Render([a, b, c], [0, 1, 1], 0) == a + ([32] + b + ([32] + c))
    ensures Render([a, b, c], [1, 1, 1], 0) == [32] + a + ([32] + b + ([32] + c))
  {
    hide Render, Spaces;
    NoneOrOneSpace();
    RenderNext([a, b, c], [0, 1, 1]);
    RenderNext([a, b, c], [1, 1, 1]);
    assert [a, b, c][1..] == [b, c] && [0 as nat, 1, 1][1..] == [1, 1] && [1 as nat, 1, 1][1..] == [1, 1];
    TwoWords(b, c);
    assert [] + a == a;
  }

  lemma FiveWords(a: seq<byte>, b: seq<byte>, c: seq<byte>, d: seq<byte>, e: seq<byte>)
    ensures Render([a, b, c, d, e], [0, 1, 1, 1, 1], 0)
         == a + ([32] + b + ([32] + c + ([32] + d + ([32] + e))))
  {
    hide Render, Spaces;
    NoneOrOneSpace();
    RenderNext([a, b, c, d, e], [0, 1, 1, 1, 1]);
    RenderNext([b, c, d, e], [1, 1, 1, 1]);
    assert [a, b, c, d, e][1..] == [b, c, d, e] && [b, c, d, e][1..] == [c, d, e];
    assert [0 as nat, 1, 1, 1, 1][1..] == [1, 1, 1, 1] && [1 as nat, 1, 1, 1][1..] == [1, 1, 1];
    ThreeWords(c, d, e);
    assert [] + a == a;
  }

  /** "BITCOUNT k 5" */
  const END_LINE: seq<byte> := [66, 73, 84, 67, 79, 85, 78, 84, 32, 107, 32, 53]

  lemma EndLineRendered()
    ensures Written(END_LINE, [[66, 73, 84, 67, 79, 85, 78, 84], [107], [53]], [0, 1, 1], 0)
  {
    ThreeWords([66, 73, 84, 67, 79, 85, 78, 84], [107], [53]);
    hide Render;
    assert END_LINE == [66, 73, 84, 67, 79, 85, 78, 84] + ([32] + [107] + ([32] + [53]));
  }

  /** bitcount(key, end=5) is sent as "BITCOUNT k 5" and counts bytes 5 to 11 of a file of 12 bytes instead of
      0 to 5. */
  lemma EndAloneExample(atol: seq<byte> -> int)
    requires atol([53]) == 5
    ensures Parse(END_LINE, atol).BitCount? && Parse(END_LINE, atol).key == [107]
    ensures Filled(Parse(END_LINE, atol).range, 12) == [5, 11]
    ensures RangeMeant(None, Some([53]), 12, atol) == [0, 5]
  {
    EndLineRendered();
    assert CString([107]) == [107];
    var words: seq<seq<byte>> := [[66, 73, 84, 67, 79, 85, 78, 84], [107], [53]];
    hide Parse, Written;
    BitCountArrives(END_LINE, words, [0, 1, 1], 0, atol);
  }

  /** The word is the name of the operation, in either case of every letter. */
  ghost predicate Names(word: seq<byte>, op: BitOp.Op) {
    var c := CString(word);
    match op
    case AND => |c| == 3 && c[0] in {97, 65} && c[1] in {110, 78} && c[2] in {100, 68}
    case OR => |c| == 2 && c[0] in {111, 79} && c[1] in {114, 82}
    case XOR => |c| == 3 && c[0] in {120, 88} && c[1] in {111, 79} && c[2] in {114, 82}
    case NOT => |c| == 3 && c[0] in {110, 78} && c[1] in {111, 79} && c[2] in {116, 84}
  }

  /** Ctrl+E and COUNTOP, in either case of every letter. */
  ghost predicate IsCountHook(word: seq<byte>) {
    && word != [] && word[0] == 5
    && var c := CString(word[1..]);
       |c| == 7 && c[0] in {99, 67} && c[1] in {111, 79} && c[2] in {117, 85} && c[3] in {110, 78}
       && c[4] in {116, 84} && c[5] in {111, 79} && c[6] in {112, 80}
  }

  /** Of a BITOP line the words behind the first are parsed. */
  lemma BitOpWords(line: seq<byte>, words: seq<seq<byte>>, gaps: seq<nat>, trail: nat, atol: seq<byte> -> int)
    requires Written(line, words, gaps, trail) && 4 <= |words| <= 19 && BITOP_NAME <= words[0]
    ensures words[2] != [] && Parse(line, atol) == ParseBitOp(words[1..])
  {
    hide Xxh64.Hash, Tokens, Render, ParseBitOp, ParseSetBit, ParseGetBit, ParseBitCount;
    WordsArrive(line, words, gaps, trail);
    CommandHashes.BitopHash();
    assert line[..5] == BITOP_NAME;
  }

  /** BITOP operation dest source... */
  lemma BitOpArrives(line: seq<byte>, words: seq<seq<byte>>, gaps: seq<nat>, trail: nat, atol: seq<byte> -> int,
                     op: BitOp.Op)
    requires Written(line, words, gaps, trail) && 4 <= |words| <= 19 && BITOP_NAME <= words[0]
    requires Names(words[1], op) && (op == BitOp.NOT ==> |words| == 4)
    requires KeyFits(words[2]) && words[2][0] != 5
    ensures Parse(line, atol) == Store(op, words[2], words[3..])
  {
    OperationWords(words[1]);
    assert ParseOp(words[1]) == Some(op);
    hide Parse, Written, KeyFits, ParseOp, Names, CString;
    BitOpWords(line, words, gaps, trail, atol);
    assert words[1..][2..] == words[3..];
  }

  /** BITOP operation ^ECOUNTOP source... */
  lemma BitCopArrives(line: seq<byte>, words: seq<seq<byte>>, gaps: seq<nat>, trail: nat, atol: seq<byte> -> int,
                      op: BitOp.Op)
    requires Written(line, words, gaps, trail) && 4 <= |words| <= 19 && BITOP_NAME <= words[0]
    requires Names(words[1], op) && (op == BitOp.NOT ==> |words| == 4) && IsCountHook(words[2])
    ensures Parse(line, atol) == Hooked(op, BitOp.COUNTOP, words[3..])
  {
    OperationWords(words[1]);
    HookWords(words[2][1..]);
    assert ParseOp(words[1]) == Some(op) && SameWord(words[2][1..], COUNTOP_WORD);
    hide Parse, Written, KeyFits, ParseOp, SameWord, Names, CString, IsCountHook;
    BitOpWords(line, words, gaps, trail, atol);
    assert words[1..][2..] == words[3..];
  }

  /** Another word in the place of the operation is refused. */
  lemma OtherOperationRefused(line: seq<byte>, words: seq<seq<byte>>, gaps: seq<nat>, trail: nat,
                              atol: seq<byte> -> int)
    requires Written(line, words, gaps, trail) && 4 <= |words| <= 19 && BITOP_NAME <= words[0]
    requires forall op :: !Names(words[1], op)
    ensures Parse(line, atol) == Refused(UnknownOption)
  {
    OperationWords(words[1]);
    assert !Names(words[1], BitOp.AND) && !Names(words[1], BitOp.OR);
    assert !Names(words[1], BitOp.XOR) && !Names(words[1], BitOp.NOT);
    hide CString, SameWord;
    assert ParseOp(words[1]) == None;
    hide Parse, Written, ParseOp, Names;
    BitOpWords(line, words, gaps, trail, atol);
  }

  /** "BITOP AND d a b" */
  const AND_LINE: seq<byte> := [66, 73, 84, 79, 80, 32, 65, 78, 68, 32, 100, 32, 97, 32, 98]

  lemma AndLineRendered()
    ensures Written(AND_LINE, [BITOP_NAME, [65, 78, 68], [100], [97], [98]], [0, 1, 1, 1, 1], 0)
  {
    FiveWords(BITOP_NAME, [65, 78, 68], [100], [97], [98]);
    hide Render;
    assert AND_LINE == BITOP_NAME + ([32] + [65, 78, 68] + ([32] + [100] + ([32] + [97] + ([32] + [98]))));
  }

  /** It asks for the and of the files a and b in the file d. */
  lemma AndLineExample(atol: seq<byte> -> int)
    ensures Parse(AND_LINE, atol) == Store(BitOp.AND, [100], [[97], [98]])
  {
    var words: seq<seq<byte>> := [BITOP_NAME, [65, 78, 68], [100], [97], [98]];
    AndLineRendered();
    assert CString([65, 78, 68]) == [65, 78, 68] && CString([100]) == [100];
    hide Parse, Written;
    BitOpArrives(AND_LINE, words, [0, 1, 1, 1, 1], 0, atol, BitOp.AND);
    assert words[3..] == [[97], [98]];
  }

  // ---------- What a line is answered with ----------

  /** A number in decimal, or that the file could not be read or written. */
  ghost predicate Reports(reply: string, result: int) {
    if result < 0 then reply == "ERR:FILE ACCESS FAILED\n"
    else |reply| > 1 && reply[|reply| - 1] == '\n' && Numeral(reply[..|reply| - 1], result)
  }

  lemma ResultReports(result: int)
    ensures Reports(ResultLine(result), result)
  {
    hide Digits, Numeral;
    if result >= 0 {
      DigitsRead(result);
      Lengths(result);
      var t := ResultLine(result);
      assert t[..|t| - 1] == Digits(result);
    }
  }

  lemma Lengths(n: nat)
    ensures |Digits(n)| >= 1
  {}

  /** A line that is too short for any command. */
  lemma ShortAnswers(line: seq<byte>, atol: seq<byte> -> int, w: World)
    requires |line| < 10
    ensures ReplyTo(Parse(line, atol), w) == Some("ERR:CMD TOO SHORT\n")
  {}

  /** SETBIT: the words are counted first, then the offset is checked, the value and the length of the key. */
  lemma SetBitAnswers(line: seq<byte>, atol: seq<byte> -> int, w: World)
    requires |line| >= 10 && line[..5] == [83, 69, 84, 66, 73]
    ensures var (words, reply) := (Tokens(line), ReplyTo(Parse(line, atol), w));
            && reply.Some?
            && if |words| != 4 then reply.value == "ERR:ARG TOO MANY OR FEW\n"
               else if !(0 <= atol(words[2]) < 0x4_0000_0000) then reply.value == "ERR:OFFSET OUT OF RANGE\n"
               else if atol(words[3]) != 0 && atol(words[3]) != 1 then reply.value == "ERR:SETBIT(3) MUST BE 1 OR 0\n"
               else if |CString(words[1])| > 64 then reply.value == "ERR:KEY TOO LONG\n"
               else if !w.prepare(0).Got? then reply.value == "ERR:FILESYSTEM FAILED\n"
               else Reports(reply.value, w.result)
  {
    CommandHashes.SetbitHash();
    ResultReports(w.result);
    hide Xxh64.Hash, Tokens, CString, ResultLine, Reports;
  }

  /** GETBIT: a file that is not there reads as 0. */
  lemma GetBitAnswers(line: seq<byte>, atol: seq<byte> -> int, w: World)
    requires |line| >= 10 && line[..5] == [71, 69, 84, 66, 73]
    ensures var (words, reply) := (Tokens(line), ReplyTo(Parse(line, atol), w));
            && reply.Some?
            && if |words| != 3 then reply.value == "ERR:ARGS TOO MANY OR FEW\n"
               else if !(0 <= atol(words[2]) < 0x4_0000_0000) then reply.value == "ERR:OFFSET OUT OF RANGE\n"
               else if |CString(words[1])| > 64 then reply.value == "ERR:KEY TOO LONG\n"
               else match w.prepare(0)
                    case Got(_) => Reports(reply.value, w.result)
                    case NoFile => reply.value == "0\n"
                    case Failed => reply.value == "ERR:FILESYSTEM FAILED\n"
  {
    CommandHashes.GetbitHash();
    ResultReports(w.result);
    hide Xxh64.Hash, Tokens, CString, ResultLine, Reports;
  }

  /** BITCOUNT: so do a file that is not there and an empty one. */
  lemma BitCountAnswers(line: seq<byte>, atol: seq<byte> -> int, w: World)
    requires |line| >= 10 && line[..5] == [66, 73, 84, 67, 79]
    ensures var (words, reply) := (Tokens(line), ReplyTo(Parse(line, atol), w));
            && reply.Some?
            && if |words| < 2 || |words| > 4 then reply.value == "ERR:ARGS TOO MANY OR FEW\n"
               else if |CString(words[1])| > 64 then reply.value == "ERR:KEY TOO LONG\n"
               else match w.prepare(0)
                    case Got(slot) =>
                      if w.length(slot) == 0 then reply.value == "0\n" else Reports(reply.value, w.result)
                    case NoFile => reply.value == "0\n"
                    case Failed => reply.value == "ERR:FILESYSTEM FAILED\n"
  {
    CommandHashes.BitcountHash();
    ResultReports(w.result);
    hide Xxh64.Hash, Tokens, CString, ResultLine, Reports;
  }

  /** BITOP: the words are counted first, then come the operation, the number of sources of NOT, the hook or the
      length of the key, and the files. */
  lemma BitOpAnswers(line: seq<byte>, atol: seq<byte> -> int, w: World)
    requires |line| >= 10 && line[..5] == [66, 73, 84, 79, 80]
    ensures var (words, reply) := (Tokens(line), ReplyTo(Parse(line, atol), w));
            && reply.Some?
            && if |words| < 4 || |words| > 19 then reply.value == "ERR:ARGS TOO MANY OR FEW\n"
               else if forall op :: !Names(words[1], op) then reply.value == "ERR:UKNOW OPTION\n"
               else if Names(words[1], BitOp.NOT) && |words| != 4 then
                 reply.value == "ERR:BITOP NOT JUST NEEDS ONE SOURCE\n"
               else if IsHook(words[2]) then
                 if !IsCountHook(words[2]) && !IsGetHook(words[2]) then reply.value == "ERR:UKNOW OPTION\n"
                 else if AnyFails(w, 0, |words| - 3) then reply.value == "ERR:FILESYSTEM FAILED\n"
                 else Reports(reply.value, w.result)
               else if |CString(words[2])| > 64 then reply.value == "ERR:KEY TOO LONG\n"
               else if !w.prepare(0).Got? || AnyFails(w, 1, |words| - 3) then reply.value == "ERR:FILESYSTEM FAILED\n"
               else Reports(reply.value, w.result)
  {
    var words := Tokens(line);
    CommandHashes.BitopHash();
    NoEmptyToken(line);
    hide Xxh64.Hash, Tokens, ParseBitOp, Names, IsHook, IsCountHook, IsGetHook, AnyFails, CString, Reports;
    if 4 <= |words| <= 19 {
      assert Parse(line, atol) == ParseBitOp(words[1..]);
      hide Parse;
      OperationAnswers(words, w);
    }
  }

  ghost predicate IsHook(word: seq<byte>) {
    word != [] && word[0] == 5
  }

  /** Ctrl+E and GETOP, in either case of every letter. */
  ghost predicate IsGetHook(word: seq<byte>) {
    && word != [] && word[0] == 5
    && var c := CString(word[1..]);
       |c| == 5 && c[0] in {103, 71} && c[1] in {101, 69} && c[2] in {116, 84} && c[3] in {111, 79} && c[4] in {112, 80}
  }

  /** One of so many files from a call on could not be had. */
  ghost predicate AnyFails(w: World, base: nat, count: nat) {
    exists k :: 0 <= k < count && Call(w, base, k).Failed?
  }

  lemma FailureIsAny(w: World, base: nat, count: nat)
    ensures FirstFailure(w, base, count) < count <==> AnyFails(w, base, count)
  {
    var k := FirstFailure(w, base, count);
    hide FirstFailure;
    if k < count {
      assert Call(w, base, k).Failed?;
    }
    if AnyFails(w, base, count) {
      var j :| 0 <= j < count && Call(w, base, j).Failed?;
    }
  }

  lemma OperationAnswers(words: seq<seq<byte>>, w: World)
    requires 4 <= |words| <= 19 && forall i :: 0 <= i < |words| ==> words[i] != []
    ensures var reply := ReplyTo(ParseBitOp(words[1..]), w);
            && reply.Some?
            && if forall op :: !Names(words[1], op) then reply.value == "ERR:UKNOW OPTION\n"
               else if Names(words[1], BitOp.NOT) && |words| != 4 then
                 reply.value == "ERR:BITOP NOT JUST NEEDS ONE SOURCE\n"
               else if IsHook(words[2]) then
                 if !IsCountHook(words[2]) && !IsGetHook(words[2]) then reply.value == "ERR:UKNOW OPTION\n"
                 else if AnyFails(w, 0, |words| - 3) then reply.value == "ERR:FILESYSTEM FAILED\n"
                 else Reports(reply.value, w.result)
               else if |CString(words[2])| > 64 then reply.value == "ERR:KEY TOO LONG\n"
               else if !w.prepare(0).Got? || AnyFails(w, 1, |words| - 3) then reply.value == "ERR:FILESYSTEM FAILED\n"
               else Reports(reply.value, w.result)
  {
    NamedOperation(words[1]);
    hide CString, Names, IsCountHook, IsGetHook, AnyFails, Reports, ParseOp, ReplyTo, IsHook;
    var r := ParseBitOp(words[1..]);
    ParsedBitOp(words);
    hide ParseBitOp;
    if r.Refused? {
      RefusedAnswers(r, w);
    } else {
      FilesAnswer(r, w);
    }
    CountHookIsHook(words[2]);
  }

  lemma CountHookIsHook(word: seq<byte>)
    ensures IsCountHook(word) || IsGetHook(word) ==> IsHook(word)
  {
    hide CString;
  }

  /** What the words behind BITOP stand for. */
  lemma ParsedBitOp(words: seq<seq<byte>>)
    requires 4 <= |words| <= 19 && forall i :: 0 <= i < |words| ==> words[i] != []
    ensures var r := ParseBitOp(words[1..]);
            if ParseOp(words[1]) == None then r == Refused(UnknownOption)
            else if ParseOp(words[1]) == Some(BitOp.NOT) && |words| != 4 then r == Refused(NotNeedsOneSource)
            else if IsHook(words[2]) then
              if !IsCountHook(words[2]) && !IsGetHook(words[2]) then r == Refused(UnknownOption)
              else r.Hooked? && |r.sources| == |words| - 3
            else if |CString(words[2])| > 64 then r == Refused(KeyTooLong)
            else r.Store? && |r.sources| == |words| - 3
  {
    NamedHook(words[2]);
    hide CString, IsCountHook, IsGetHook, ParseOp, SameWord;
  }

  lemma RefusedAnswers(r: Request, w: World)
    requires r.Refused?
    ensures r.why.UnknownOption? ==> ReplyTo(r, w) == Some("ERR:UKNOW OPTION\n")
    ensures r.why.NotNeedsOneSource? ==> ReplyTo(r, w) == Some("ERR:BITOP NOT JUST NEEDS ONE SOURCE\n")
    ensures r.why.KeyTooLong? ==> ReplyTo(r, w) == Some("ERR:KEY TOO LONG\n")
  {}

  lemma FilesAnswer(r: Request, w: World)
    requires r.Store? || r.Hooked?
    ensures ReplyTo(r, w).Some?
    ensures if (r.Store? && (!w.prepare(0).Got? || AnyFails(w, 1, |r.sources|)))
               || (r.Hooked? && AnyFails(w, 0, |r.sources|))
            then ReplyTo(r, w).value == "ERR:FILESYSTEM FAILED\n" else Reports(ReplyTo(r, w).value, w.result)
  {
    ResultReports(w.result);
    FailureIsAny(w, 0, |r.sources|);
    FailureIsAny(w, 1, |r.sources|);
    hide AnyFails, Reports, ResultLine, FirstFailure;
  }

  lemma NamedOperation(word: seq<byte>)
    ensures (forall op :: !Names(word, op)) <==> ParseOp(word) == None
    ensures Names(word, BitOp.NOT) <==> ParseOp(word) == Some(BitOp.NOT)
  {
    OperationWords(word);
    hide CString, ParseOp;
    if ParseOp(word).Some? {
      match ParseOp(word).value
      case AND => assert Names(word, BitOp.AND);
      case OR => assert Names(word, BitOp.OR);
      case XOR => assert Names(word, BitOp.XOR);
      case NOT => assert Names(word, BitOp.NOT);
    }
    forall op | Names(word, op)
      ensures ParseOp(word) == Some(op)
    {}
  }

  lemma NamedHook(word: seq<byte>)
    requires word != []
    ensures IsCountHook(word) <==> word[0] == 5 && SameWord(word[1..], COUNTOP_WORD)
    ensures IsGetHook(word) <==> word[0] == 5 && SameWord(word[1..], GETOP_WORD)
  {
    HookWords(word[1..]);
    hide CString, SameWord;
  }

  /** BITFIELD is refused with fewer than five words, and gets no answer otherwise. */
  lemma BitFieldAnswers(line: seq<byte>, atol: seq<byte> -> int, w: World)
    requires |line| >= 10 && line[..5] == [66, 73, 84, 70, 73]
    ensures ReplyTo(Parse(line, atol), w) == if |Tokens(line)| < 5 then Some("ERR:ARGS TOO FEW\n") else None
  {
    CommandHashes.BitfieldHash();
    hide Xxh64.Hash, Tokens;
  }

  /** Any other line whose first five bytes are not those of a command's hash. */
  lemma OtherAnswers(line: seq<byte>, atol: seq<byte> -> int, w: World)
    requires |line| >= 10
    requires Xxh64.Hash(0, line[..5]) !in {SETBIT_HASH, GETBIT_HASH, BITOP_HASH, BITCOUNT_HASH, BITPOS_HASH,
                                          BITFIELD_HASH}
    ensures ReplyTo(Parse(line, atol), w) == Some("ERR:UNKNOW CMD\n")
  {
    hide Xxh64.Hash, Tokens;
  }
}
