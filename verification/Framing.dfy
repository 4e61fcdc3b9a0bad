/** Cutting a byte stream into lines. */
module Framing {
  import opened Memory

  const NEWLINE: byte := 10

  /** memchr: the position of the first newline, or the length if there is none. */
  function IndexOf(b: seq<byte>): (i: nat)
    ensures i <= |b|
    ensures i < |b| ==> b[i] == NEWLINE
    ensures forall k :: 0 <= k < i ==> b[k] != NEWLINE
  {
    if b == [] || b[0] == NEWLINE then 0 else 1 + IndexOf(b[1..])
  }

  predicate HasLine(b: seq<byte>) {
    IndexOf(b) < |b|
  }

  /** The complete lines of a byte stream, without their newlines. */
  function Lines(b: seq<byte>): seq<seq<byte>>
    decreases |b|
  {
    if HasLine(b) then [b[..IndexOf(b)]] + Lines(b[IndexOf(b) + 1..]) else []
  }

  /** The bytes after the last newline. */
  function Partial(b: seq<byte>): seq<byte>
    decreases |b|
  {
    if HasLine(b) then Partial(b[IndexOf(b) + 1..]) else b
  }

  /** Every line followed by a newline. */
  function Flat(lines: seq<seq<byte>>): seq<byte> {
    if lines == [] then [] else lines[0] + [NEWLINE] + Flat(lines[1..])
  }

  ghost predicate Clean(lines: seq<seq<byte>>) {
    forall i :: 0 <= i < |lines| ==> NEWLINE !in lines[i]
  }

  lemma IndexIs(b: seq<byte>, i: nat)
    requires i <= |b|
    requires i < |b| ==> b[i] == NEWLINE
    requires forall k :: 0 <= k < i ==> b[k] != NEWLINE
    ensures IndexOf(b) == i
  {}

  lemma FlatCons(line: seq<byte>, lines: seq<seq<byte>>)
    ensures Flat([line] + lines) == line + [NEWLINE] + Flat(lines)
  {
    assert ([line] + lines)[1..] == lines;
  }

  /** Taking the first line off a stream. */
  lemma FirstLine(line: seq<byte>, rest: seq<byte>)
    requires NEWLINE !in line
    ensures var b := line + [NEWLINE] + rest;
            && HasLine(b) && IndexOf(b) == |line| && b[..|line|] == line && b[|line| + 1..] == rest
  {
    IndexIs(line + [NEWLINE] + rest, |line|);
  }

  lemma LinesStep(line: seq<byte>, rest: seq<byte>)
    requires NEWLINE !in line
    ensures Lines(line + [NEWLINE] + rest) == [line] + Lines(rest)
    ensures Partial(line + [NEWLINE] + rest) == Partial(rest)
  {
    hide IndexOf;
    FirstLine(line, rest);
  }

  /** A stream is its lines and what follows them. */
  lemma {:induction false} LinesFlat(b: seq<byte>)
    ensures Flat(Lines(b)) + Partial(b) == b
    ensures Clean(Lines(b)) && !HasLine(Partial(b))
    decreases |b|
  {
    hide Lines, Partial, Flat, IndexOf;
    if HasLine(b) {
      var line, rest := b[..IndexOf(b)], b[IndexOf(b) + 1..];
      assert b == line + [NEWLINE] + rest;
      LinesFlat(rest);
      LinesStep(line, rest);
      FlatCons(line, Lines(rest));
      Associate(line + [NEWLINE], Flat(Lines(rest)), Partial(rest));
    } else {
      NoLine(b);
      assert [] + b == b;
    }
  }

  lemma NoLine(b: seq<byte>)
    requires !HasLine(b)
    ensures Lines(b) == [] && Partial(b) == b && Flat([]) == []
  {}

  lemma Associate(a: seq<byte>, b: seq<byte>, c: seq<byte>)
    ensures a + b + c == a + (b + c)
  {}

  /** Lines that have been taken off the front are the first lines of the stream. */
  lemma {:induction false} LinesOfFlat(lines: seq<seq<byte>>, rest: seq<byte>)
    requires Clean(lines)
    ensures Lines(Flat(lines) + rest) == lines + Lines(rest)
    ensures Partial(Flat(lines) + rest) == Partial(rest)
  {
    hide Lines, Partial, Flat, IndexOf;
    if lines == [] {
      FlatNone(rest);
    } else {
      var line, b := lines[0], Flat(lines[1..]) + rest;
      LinesOfFlat(lines[1..], rest);
      assert lines == [line] + lines[1..];
      FlatCons(line, lines[1..]);
      Associate(line + [NEWLINE], Flat(lines[1..]), rest);
      LinesStep(line, b);
      assert lines + Lines(rest) == [line] + (lines[1..] + Lines(rest));
    }
  }

  lemma FlatNone(rest: seq<byte>)
    ensures Flat([]) + rest == rest
  {}

  lemma {:induction false} FlatAppend(lines: seq<seq<byte>>, line: seq<byte>)
    ensures Flat(lines + [line]) == Flat(lines) + line + [NEWLINE]
  {
    if lines == [] {
      assert [line][1..] == [];
    } else {
      assert (lines + [line])[1..] == lines[1..] + [line];
      FlatAppend(lines[1..], line);
    }
  }

  /** More input only adds lines. */
  lemma LinesMonotone(b: seq<byte>, more: seq<byte>)
    ensures Lines(b) <= Lines(b + more)
  {
    hide Lines, Partial, Flat;
    LinesFlat(b);
    LinesOfFlat(Lines(b), Partial(b) + more);
    assert Flat(Lines(b)) + (Partial(b) + more) == b + more;
  }
}
