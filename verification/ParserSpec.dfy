/** What a command line asks for and what is answered (src/parser.c:84-370), in terms of the tokens of
    the line. */
module ParserSpec {
  import opened Memory
  import opened Splitter
  import opened Wrappers
  import BitOp
  import Xxh64

  const FILE_SIZE_LIMIT: int := 2147483647
  const CMD_MINIMUM: nat := 10
  const ARG_PART_MAXIMUM: nat := 17

  function Lower(b: byte): byte {
    if 65 <= b <= 90 then b + 32 else b
  }

  /** strcasecmp(s, word) == 0, for a word in lower case. */
  predicate SameWord(s: seq<byte>, word: seq<byte>) {
    var c := CString(s);
    |c| == |word| && forall i :: 0 <= i < |c| ==> Lower(c[i]) == word[i]
  }

  const AND_WORD: seq<byte> := [97, 110, 100]
  const OR_WORD: seq<byte> := [111, 114]
  const XOR_WORD: seq<byte> := [120, 111, 114]
  const NOT_WORD: seq<byte> := [110, 111, 116]
  const COUNTOP_WORD: seq<byte> := [99, 111, 117, 110, 116, 111, 112]
  const GETOP_WORD: seq<byte> := [103, 101, 116, 111, 112]

  /** Why a line is refused. */
  datatype Refusal =
    | TooShort
    | ArgTooManyOrFew
    | ArgsTooManyOrFew
    | ArgsTooFew
    | OffsetOutOfRange
    | ValueNotABit
    | KeyTooLong
    | UnknownOption
    | NotNeedsOneSource
    | UnknownCommand

  function Text(why: Refusal): string {
    match why
    case TooShort => "ERR:CMD TOO SHORT\n"
    case ArgTooManyOrFew => "ERR:ARG TOO MANY OR FEW\n"
    case ArgsTooManyOrFew => "ERR:ARGS TOO MANY OR FEW\n"
    case ArgsTooFew => "ERR:ARGS TOO FEW\n"
    case OffsetOutOfRange => "ERR:OFFSET OUT OF RANGE\n"
    case ValueNotABit => "ERR:SETBIT(3) MUST BE 1 OR 0\n"
    case KeyTooLong => "ERR:KEY TOO LONG\n"
    case UnknownOption => "ERR:UKNOW OPTION\n"
    case NotNeedsOneSource => "ERR:BITOP NOT JUST NEEDS ONE SOURCE\n"
    case UnknownCommand => "ERR:UNKNOW CMD\n"
  }

  /** What a line asks for. */
  datatype Request =
    | Refused(why: Refusal)
    | SetBit(key: seq<byte>, offset: int, value: int)
    | GetBit(key: seq<byte>, offset: int)
    | BitCount(key: seq<byte>, range: seq<int>)
    | Store(op: BitOp.Op, dest: seq<byte>, sources: seq<seq<byte>>)
    | Hooked(op: BitOp.Op, hook: BitOp.Hook, sources: seq<seq<byte>>)
    | Unanswered

  predicate KeyFits(key: seq<byte>) {
    |CString(key)| <= 64
  }

  function ParseSetBit(args: seq<seq<byte>>, atol: seq<byte> -> int): Request
    requires |args| == 3
  {
    var offset, value := atol(args[1]), atol(args[2]);
    if offset / 8 < 0 || offset / 8 > FILE_SIZE_LIMIT then Refused(OffsetOutOfRange)
    else if value != 0 && value != 1 then Refused(ValueNotABit)
    else if !KeyFits(args[0]) then Refused(KeyTooLong)
    else SetBit(args[0], offset, value)
  }

  function ParseGetBit(args: seq<seq<byte>>, atol: seq<byte> -> int): Request
    requires |args| == 2
  {
    var offset := atol(args[1]);
    if offset / 8 < 0 || offset / 8 > FILE_SIZE_LIMIT then Refused(OffsetOutOfRange)
    else if !KeyFits(args[0]) then Refused(KeyTooLong)
    else GetBit(args[0], offset)
  }

  function ParseBitCount(args: seq<seq<byte>>, atol: seq<byte> -> int): Request
    requires 1 <= |args| <= 3
  {
    if !KeyFits(args[0]) then Refused(KeyTooLong)
    else BitCount(args[0], seq(|args| - 1, i requires 0 <= i < |args| - 1 => atol(args[i + 1])))
  }

  /** The range of a BITCOUNT with what is not given filled in: from the start, to the end. */
  function Filled(range: seq<int>, length: nat): seq<int> {
    [if |range| >= 1 then range[0] else 0, if |range| >= 2 then range[1] else length - 1]
  }

  function ParseOp(word: seq<byte>): Option<BitOp.Op> {
    if SameWord(word, AND_WORD) then Some(BitOp.AND)
    else if SameWord(word, OR_WORD) then Some(BitOp.OR)
    else if SameWord(word, XOR_WORD) then Some(BitOp.XOR)
    else if SameWord(word, NOT_WORD) then Some(BitOp.NOT)
    else None
  }

  /** Each operation is named by exactly these words, in either case of every letter. */
  lemma OperationWords(word: seq<byte>)
    ensures var c := CString(word);
            && (ParseOp(word) == Some(BitOp.AND)
                <==> |c| == 3 && c[0] in {97, 65} && c[1] in {110, 78} && c[2] in {100, 68})
            && (ParseOp(word) == Some(BitOp.OR) <==> |c| == 2 && c[0] in {111, 79} && c[1] in {114, 82})
            && (ParseOp(word) == Some(BitOp.XOR)
                <==> |c| == 3 && c[0] in {120, 88} && c[1] in {111, 79} && c[2] in {114, 82})
            && (ParseOp(word) == Some(BitOp.NOT)
                <==> |c| == 3 && c[0] in {110, 78} && c[1] in {111, 79} && c[2] in {116, 84})
  {
    var c := CString(word);
    ThreeLetters(word, AND_WORD);
    TwoLetters(word, OR_WORD);
    ThreeLetters(word, XOR_WORD);
    ThreeLetters(word, NOT_WORD);
    hide CString, SameWord, Lower;
    if |c| == 3 {
      LetterIs(c[0], 97);
      LetterIs(c[1], 110);
      LetterIs(c[2], 100);
      LetterIs(c[0], 120);
      LetterIs(c[1], 111);
      LetterIs(c[2], 114);
      LetterIs(c[0], 110);
      LetterIs(c[2], 116);
    } else if |c| == 2 {
      LetterIs(c[0], 111);
      LetterIs(c[1], 114);
    }
  }

  lemma ThreeLetters(word: seq<byte>, name: seq<byte>)
    requires |name| == 3
    ensures var c := CString(word);
            SameWord(word, name)
            <==> |c| == 3 && Lower(c[0]) == name[0] && Lower(c[1]) == name[1] && Lower(c[2]) == name[2]
  {
    hide CString, Lower;
  }

  lemma TwoLetters(word: seq<byte>, name: seq<byte>)
    requires |name| == 2
    ensures var c := CString(word);
            SameWord(word, name) <==> |c| == 2 && Lower(c[0]) == name[0] && Lower(c[1]) == name[1]
  {
    hide CString, Lower;
  }

  /** So are the hooks, behind their first byte. */
  lemma HookWords(word: seq<byte>)
    ensures var c := CString(word);
            && (SameWord(word, COUNTOP_WORD)
                <==> |c| == 7 && c[0] in {99, 67} && c[1] in {111, 79} && c[2] in {117, 85} && c[3] in {110, 78}
                     && c[4] in {116, 84} && c[5] in {111, 79} && c[6] in {112, 80})
            && (SameWord(word, GETOP_WORD)
                <==> |c| == 5 && c[0] in {103, 71} && c[1] in {101, 69} && c[2] in {116, 84} && c[3] in {111, 79}
                     && c[4] in {112, 80})
  {
    var c := CString(word);
    CountopLetters(word);
    GetopLetters(word);
    hide CString, SameWord, Lower;
    if |c| == 7 {
      LetterIs(c[0], 99);
      LetterIs(c[1], 111);
      LetterIs(c[2], 117);
      LetterIs(c[3], 110);
      LetterIs(c[4], 116);
      LetterIs(c[5], 111);
      LetterIs(c[6], 112);
    } else if |c| == 5 {
      LetterIs(c[0], 103);
      LetterIs(c[1], 101);
      LetterIs(c[2], 116);
      LetterIs(c[3], 111);
      LetterIs(c[4], 112);
    }
  }

  lemma CountopLetters(word: seq<byte>)
    ensures var c := CString(word);
            SameWord(word, COUNTOP_WORD)
            <==> |c| == 7 && Lower(c[0]) == 99 && Lower(c[1]) == 111 && Lower(c[2]) == 117 && Lower(c[3]) == 110
                 && Lower(c[4]) == 116 && Lower(c[5]) == 111 && Lower(c[6]) == 112
  {
    hide CString, Lower;
  }

  lemma GetopLetters(word: seq<byte>)
    ensures var c := CString(word);
            SameWord(word, GETOP_WORD)
            <==> |c| == 5 && Lower(c[0]) == 103 && Lower(c[1]) == 101 && Lower(c[2]) == 116 && Lower(c[3]) == 111
                 && Lower(c[4]) == 112
  {
    hide CString, Lower;
  }

  lemma LetterIs(b: byte, letter: byte)
    requires 97 <= letter <= 122
    ensures Lower(b) == letter <==> b in {letter, letter - 32}
  {}

  function ParseBitOp(args: seq<seq<byte>>): Request
    requires |args| >= 3 && args[1] != []
  {
    match ParseOp(args[0])
    case None => Refused(UnknownOption)
    case Some(op) =>
      if op == BitOp.NOT && |args| != 3 then Refused(NotNeedsOneSource)
      else if args[1][0] == 5 then
        if SameWord(args[1][1..], COUNTOP_WORD) then Hooked(op, BitOp.COUNTOP, args[2..])
        else if SameWord(args[1][1..], GETOP_WORD) then Hooked(op, BitOp.GETOP, args[2..])
        else Refused(UnknownOption)
      else if !KeyFits(args[1]) then Refused(KeyTooLong)
      else Store(op, args[1], args[2..])
  }

  const SETBIT_HASH: nat := 13964470052823109277
  const GETBIT_HASH: nat := 4534844053247176213
  const BITOP_HASH: nat := 2226304069708374537
  const BITCOUNT_HASH: nat := 9951046379166068647
  const BITPOS_HASH: nat := 16475154490487774448
  const BITFIELD_HASH: nat := 16283480983475320022

  /** What a line asks for, by its tokens and the hash of its first five bytes. */
  function Parse(line: seq<byte>, atol: seq<byte> -> int): Request {
    if |line| < CMD_MINIMUM then Refused(TooShort) else Choose(line, Xxh64.Hash(0, line[..5]), atol)
  }

  function Choose(line: seq<byte>, hash: nat, atol: seq<byte> -> int): Request {
    var tokens := Tokens(line);
    if hash == SETBIT_HASH then
      if |tokens| != 4 then Refused(ArgTooManyOrFew) else ParseSetBit(tokens[1..], atol)
    else if hash == GETBIT_HASH then
      if |tokens| != 3 then Refused(ArgsTooManyOrFew) else ParseGetBit(tokens[1..], atol)
    else if hash == BITOP_HASH then
      if |tokens| < 4 || |tokens| > 19 then Refused(ArgsTooManyOrFew)
      else
        NoEmptyToken(line);
        ParseBitOp(tokens[1..])
    else if hash == BITCOUNT_HASH then
      if |tokens| < 2 || |tokens| > 4 then Refused(ArgsTooManyOrFew) else ParseBitCount(tokens[1..], atol)
    else if hash == BITPOS_HASH then Unanswered
    else if hash == BITFIELD_HASH then
      if |tokens| < 5 then Refused(ArgsTooFew) else Unanswered
    else Refused(UnknownCommand)
  }

  // ---------- Outcomes and replies ----------

  /** The k-th call of prepare_file yields a slot, finds no file (only when it may not create one) or
      fails. */
  datatype Prepared = Got(slot: nat) | NoFile | Failed

  /** What the files and commands do: the calls of prepare_file in order, the lengths of slots, and the
      result of the command that is run. */
  datatype World = World(prepare: nat -> Prepared, length: nat -> nat, result: int)

  function Call(w: World, base: nat, k: nat): Prepared {
    w.prepare(base + k)
  }

  /** The first of `count` calls from `base` on that fails; count if none does. */
  function FirstFailure(w: World, base: nat, count: nat): (k: nat)
    ensures k <= count
    ensures k < count ==> Call(w, base, k).Failed?
    ensures forall j :: 0 <= j < k ==> !Call(w, base, j).Failed?
  {
    FirstFailureFrom(w, base, 0, count)
  }

  function FirstFailureFrom(w: World, base: nat, i: nat, count: nat): (k: nat)
    requires i <= count
    ensures i <= k <= count
    ensures k < count ==> Call(w, base, k).Failed?
    ensures forall j :: i <= j < k ==> !Call(w, base, j).Failed?
    decreases count - i
  {
    if i == count || Call(w, base, i).Failed? then i else FirstFailureFrom(w, base, i + 1, count)
  }

  /** The slots that k calls from `base` on yield. */
  function SlotsGot(w: World, base: nat, k: nat): seq<nat> {
    if k == 0 then []
    else SlotsGot(w, base, k - 1) + if Call(w, base, k - 1).Got? then [Call(w, base, k - 1).slot] else []
  }

  function Digits(n: nat): string {
    if n < 10 then [('0' as int + n) as char] else Digits(n / 10) + [('0' as int + n % 10) as char]
  }

  /** Decimal text, read from the left. */
  function Reading(t: string): int {
    if t == [] then 0 else 10 * Reading(t[..|t| - 1]) + (t[|t| - 1] as int - 48)
  }

  /** The text is the decimal number n, without leading zeros. */
  ghost predicate Numeral(t: string, n: nat) {
    && t != [] && (forall i :: 0 <= i < |t| ==> '0' <= t[i] <= '9') && Reading(t) == n
    && (t[0] == '0' ==> t == "0")
  }

  /** The digits of a number read as the number. */
  lemma {:induction false} DigitsRead(n: nat)
    ensures Numeral(Digits(n), n)
    ensures n > 0 ==> Digits(n)[0] != '0'
  {
    if n < 10 {
      assert Digits(n)[..0] == [];
    } else {
      DigitsRead(n / 10);
      var t := Digits(n);
      assert t[..|t| - 1] == Digits(n / 10);
    }
  }

  /** The line that reports a result. */
  function ResultLine(result: int): string {
    if result < 0 then "ERR:FILE ACCESS FAILED\n" else Digits(result) + "\n"
  }

  /** Results below this have no more than 14 digits, which with their newline fit the 16 bytes of buf. No
      file that SETBIT can make has more than 2^34 bits. */
  const RESULT_LIMIT: nat := 100000000000000

  const FILESYSTEM_FAILED: string := "ERR:FILESYSTEM FAILED\n"

  /** The reply to a request; BITPOS and BITFIELD get none. */
  function ReplyTo(r: Request, w: World): Option<string> {
    match r
    case Refused(why) => Some(Text(why))
    case SetBit(_, _, _) => Some(if w.prepare(0).Got? then ResultLine(w.result) else FILESYSTEM_FAILED)
    case GetBit(_, _) =>
      Some(match w.prepare(0) case Got(_) => ResultLine(w.result) case NoFile => "0\n" case Failed => FILESYSTEM_FAILED)
    case BitCount(_, _) =>
      Some(match w.prepare(0)
           case Got(slot) => if w.length(slot) == 0 then "0\n" else ResultLine(w.result)
           case NoFile => "0\n"
           case Failed => FILESYSTEM_FAILED)
    case Store(_, _, sources) =>
      Some(if w.prepare(0).Got? && FirstFailure(w, 1, |sources|) == |sources| then ResultLine(w.result)
           else FILESYSTEM_FAILED)
    case Hooked(_, _, sources) =>
      Some(if FirstFailure(w, 0, |sources|) == |sources| then ResultLine(w.result) else FILESYSTEM_FAILED)
    case Unanswered => None
  }

  /** The slots prepared for a request that are never released: the sources of BITOP that were prepared
      before one of them failed. */
  function Leaked(r: Request, w: World): seq<nat> {
    match r
    case Store(_, _, sources) =>
      if w.prepare(0).Got? && FirstFailure(w, 1, |sources|) < |sources|
      then SlotsGot(w, 1, FirstFailure(w, 1, |sources|)) else []
    case Hooked(_, _, sources) =>
      if FirstFailure(w, 0, |sources|) < |sources| then SlotsGot(w, 0, FirstFailure(w, 0, |sources|)) else []
    case _ => []
  }

  // ---------- Every reply is one line ----------

  /** ASCII text with its only newline at the end. */
  predicate IsLine(t: string) {
    t != [] && t[|t| - 1] == '\n' && forall i :: 0 <= i < |t| - 1 ==> t[i] != '\n' && t[i] < 128 as char
  }

  lemma {:induction false} DigitsAreText(n: nat)
    ensures Digits(n) != [] && forall i :: 0 <= i < |Digits(n)| ==> Digits(n)[i] != '\n' && Digits(n)[i] < 128 as char
  {
    if n < 10 {
    } else {
      DigitsAreText(n / 10);
    }
  }

  lemma {:induction false} DigitsShort(n: nat, k: nat, p: nat)
    requires k >= 1 && p == Pow10(k) && n < p
    ensures |Digits(n)| <= k
    decreases k
  {
    if n < 10 {
    } else {
      DigitsShort(n / 10, k - 1, Pow10(k - 1));
    }
  }

  function Pow10(k: nat): nat {
    if k == 0 then 1 else 10 * Pow10(k - 1)
  }

  lemma ResultFits(result: nat)
    requires result < RESULT_LIMIT
    ensures |Digits(result)| <= 14
  {
    assert Pow10(7) == 10000000;
    assert Pow10(14) == 10 * (10 * (10 * (10 * (10 * (10 * (10 * Pow10(7)))))));
    DigitsShort(result, 14, Pow10(14));
  }

  /** Every reply fits the buffer that a request starts with. */
  lemma ReplyFits(r: Request, w: World)
    requires w.result < RESULT_LIMIT
    ensures ReplyTo(r, w).Some? ==> |ReplyTo(r, w).value| <= 36
  {
    hide Digits, FirstFailure, Text;
    if r.Refused? {
      TextFits(r.why);
    } else if w.result >= 0 {
      ResultFits(w.result);
    }
  }

  lemma TextFits(why: Refusal)
    ensures |Text(why)| <= 36
  {}

  lemma ResultIsLine(result: int)
    ensures IsLine(ResultLine(result))
  {
    if result >= 0 {
      DigitsAreText(result);
    }
  }

  lemma TooShortIsLine()
    ensures IsLine("ERR:CMD TOO SHORT\n")
  {}

  lemma ArgTooManyOrFewIsLine()
    ensures IsLine("ERR:ARG TOO MANY OR FEW\n")
  {}

  lemma ArgsTooManyOrFewIsLine()
    ensures IsLine("ERR:ARGS TOO MANY OR FEW\n")
  {}

  lemma ArgsTooFewIsLine()
    ensures IsLine("ERR:ARGS TOO FEW\n")
  {}

  lemma OffsetOutOfRangeIsLine()
    ensures IsLine("ERR:OFFSET OUT OF RANGE\n")
  {}

  lemma ValueNotABitIsLine()
    ensures IsLine("ERR:SETBIT(3) MUST BE 1 OR 0\n")
  {}

  lemma KeyTooLongIsLine()
    ensures IsLine("ERR:KEY TOO LONG\n")
  {}

  lemma UnknownOptionIsLine()
    ensures IsLine("ERR:UKNOW OPTION\n")
  {}

  lemma NotNeedsOneSourceIsLine()
    ensures IsLine("ERR:BITOP NOT JUST NEEDS ONE SOURCE\n")
  {}

  lemma UnknownCommandIsLine()
    ensures IsLine("ERR:UNKNOW CMD\n")
  {}

  lemma TextIsLine(why: Refusal)
    ensures IsLine(Text(why))
  {
    hide IsLine;
    match why
    case TooShort => TooShortIsLine();
    case ArgTooManyOrFew => ArgTooManyOrFewIsLine();
    case ArgsTooManyOrFew => ArgsTooManyOrFewIsLine();
    case ArgsTooFew => ArgsTooFewIsLine();
    case OffsetOutOfRange => OffsetOutOfRangeIsLine();
    case ValueNotABit => ValueNotABitIsLine();
    case KeyTooLong => KeyTooLongIsLine();
    case UnknownOption => UnknownOptionIsLine();
    case NotNeedsOneSource => NotNeedsOneSourceIsLine();
    case UnknownCommand => UnknownCommandIsLine();
  }

  lemma OtherLines()
    ensures IsLine("0\n") && IsLine(FILESYSTEM_FAILED)
  {}

  /** The commands that are not implemented: BITPOS, and BITFIELD with enough arguments. */
  predicate Unimplemented(line: seq<byte>) {
    && |line| >= CMD_MINIMUM
    && (|| Xxh64.Hash(0, line[..5]) == BITPOS_HASH
        || (Xxh64.Hash(0, line[..5]) == BITFIELD_HASH && |Tokens(line)| >= 5))
  }

  /** Every line is answered with exactly one line of text, unless its command is not implemented. */
  lemma OneReply(line: seq<byte>, atol: seq<byte> -> int, w: World)
    ensures ReplyTo(Parse(line, atol), w).None? <==> Unimplemented(line)
    ensures !Unimplemented(line) ==> IsLine(ReplyTo(Parse(line, atol), w).value)
  {
    WhenUnanswered(line, atol);
    ReplyIsLine(Parse(line, atol), w);
    hide Parse, IsLine, Unimplemented, FirstFailure;
  }

  lemma ReplyIsLine(r: Request, w: World)
    ensures ReplyTo(r, w).Some? ==> IsLine(ReplyTo(r, w).value)
  {
    hide IsLine, Text, ResultLine, FirstFailure;
    ResultIsLine(w.result);
    OtherLines();
    if r.Refused? {
      TextIsLine(r.why);
    }
  }

  lemma WhenUnanswered(line: seq<byte>, atol: seq<byte> -> int)
    ensures Parse(line, atol).Unanswered? <==> Unimplemented(line)
  {
    hide Tokens, Xxh64.Hash, KeyFits, SameWord, ParseOp;
  }

  /** A slot is leaked exactly when a source of BITOP fails after another one was prepared. */
  lemma LeakedExactly(r: Request, w: World)
    ensures Leaked(r, w) != []
       <==> (r.Store? && w.prepare(0).Got? && FailsAfterGot(w, 1, |r.sources|))
            || (r.Hooked? && FailsAfterGot(w, 0, |r.sources|))
  {
    if r.Store? {
      FailureAfterGot(w, 1, |r.sources|);
    } else if r.Hooked? {
      FailureAfterGot(w, 0, |r.sources|);
    }
  }

  /** Two sources of a BITOP, of which the one that is opened first yields slot 7 and the other fails: slot 7 is
      never released. */
  lemma LeakExample(op: BitOp.Op, dest: seq<byte>, sources: seq<seq<byte>>)
    requires |sources| == 2
    ensures var w := World((k: nat) => if k == 2 then Failed else Got(6 + k), (_: nat) => 1, 0);
            && Leaked(Store(op, dest, sources), w) == [7]
            && ReplyTo(Store(op, dest, sources), w) == Some(FILESYSTEM_FAILED)
  {
    var w := World((k: nat) => if k == 2 then Failed else Got(6 + k), (_: nat) => 1, 0);
    assert FirstFailure(w, 1, 2) == 1;
    assert SlotsGot(w, 1, 0) == [];
  }

  lemma FailureAfterGot(w: World, base: nat, count: nat)
    ensures var k := FirstFailure(w, base, count);
            k < count && SlotsGot(w, base, k) != [] <==> FailsAfterGot(w, base, count)
  {
    var k := FirstFailure(w, base, count);
    GotAny(w, base, k);
    if FailsAfterGot(w, base, count) {
      var j, l :| 0 <= j < l < count && Call(w, base, j).Got? && Call(w, base, l).Failed?
        && forall i :: 0 <= i < l ==> !Call(w, base, i).Failed?;
      assert k == l;
    }
  }

  predicate FailsAfterGot(w: World, base: nat, count: nat) {
    exists j, k :: 0 <= j < k < count && Call(w, base, j).Got? && Call(w, base, k).Failed?
      && forall i :: 0 <= i < k ==> !Call(w, base, i).Failed?
  }

  lemma {:induction false} GotAny(w: World, base: nat, k: nat)
    ensures SlotsGot(w, base, k) != [] <==> exists j :: 0 <= j < k && Call(w, base, j).Got?
  {
    if k == 0 {
    } else {
      GotAny(w, base, k - 1);
      assert Call(w, base, k - 1).Got? ==> SlotsGot(w, base, k) != [];
    }
  }
}
