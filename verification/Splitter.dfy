/** The two scanners of src/parser.c:4-59: one counts the arguments of a line, the other cuts them out. */
module Splitter {
  import opened Memory
  import FileView

  const SPACE: byte := 32

  /** The first position from i on that is not a space. */
  function SkipSpaces(s: seq<byte>, i: nat): (j: nat)
    requires i <= |s|
    ensures i <= j <= |s|
    ensures forall k :: i <= k < j ==> s[k] == SPACE
    ensures j < |s| ==> s[j] != SPACE
    decreases |s| - i
  {
    if i < |s| && s[i] == SPACE then SkipSpaces(s, i + 1) else i
  }

  /** The first position from i on that is a space. */
  function SkipWord(s: seq<byte>, i: nat): (j: nat)
    requires i <= |s|
    ensures i <= j <= |s|
    ensures forall k :: i <= k < j ==> s[k] != SPACE
    ensures j < |s| ==> s[j] == SPACE
    decreases |s| - i
  {
    if i < |s| && s[i] != SPACE then SkipWord(s, i + 1) else i
  }

  /** The maximal runs of non-spaces from position i on. */
  function TokensFrom(s: seq<byte>, i: nat): seq<seq<byte>>
    requires i <= |s|
    decreases |s| - i
  {
    var b := SkipSpaces(s, i);
    if b == |s| then [] else [s[b..SkipWord(s, b)]] + TokensFrom(s, SkipWord(s, b))
  }

  function Tokens(s: seq<byte>): seq<seq<byte>> {
    TokensFrom(s, 0)
  }

  predicate IsToken(t: seq<byte>) {
    t != [] && SPACE !in t
  }

  lemma {:induction false} TokensAreTokens(s: seq<byte>, i: nat)
    requires i <= |s|
    ensures forall k :: 0 <= k < |TokensFrom(s, i)| ==> IsToken(TokensFrom(s, i)[k])
    decreases |s| - i
  {
    hide SkipSpaces, SkipWord;
    var b := SkipSpaces(s, i);
    if b == |s| {
    } else {
      TokensAreTokens(s, SkipWord(s, b));
    }
  }

  lemma NoEmptyToken(s: seq<byte>)
    ensures forall k :: 0 <= k < |Tokens(s)| ==> Tokens(s)[k] != []
  {
    TokensAreTokens(s, 0);
  }

  lemma SpaceSkipped(s: seq<byte>, i: nat)
    requires i < |s| && s[i] == SPACE
    ensures TokensFrom(s, i) == TokensFrom(s, i + 1)
  {}

  lemma WordTaken(s: seq<byte>, i: nat, j: nat)
    requires i < j <= |s| && (j < |s| ==> s[j] == SPACE)
    requires forall k :: i <= k < j ==> s[k] != SPACE
    ensures TokensFrom(s, i) == [s[i..j]] + TokensFrom(s, j)
  {
    SkipWordIs(s, i, j);
  }

  lemma {:induction false} SkipWordIs(s: seq<byte>, i: nat, j: nat)
    requires i <= j <= |s| && (j < |s| ==> s[j] == SPACE)
    requires forall k :: i <= k < j ==> s[k] != SPACE
    ensures SkipWord(s, i) == j
    decreases j - i
  {
    if i == j {
    } else {
      SkipWordIs(s, i + 1, j);
    }
  }

  lemma {:induction false} SkipSpacesIs(s: seq<byte>, i: nat, j: nat)
    requires i <= j <= |s| && (j < |s| ==> s[j] != SPACE)
    requires forall k :: i <= k < j ==> s[k] == SPACE
    ensures SkipSpaces(s, i) == j
    decreases j - i
  {
    if i == j {
    } else {
      SkipSpacesIs(s, i + 1, j);
    }
  }

  // ---------- get_arg_count ----------

  /** The number of maximal runs of non-spaces. l is the position after the last space seen. */
  method GetArgCount(str: seq<byte>, len: nat) returns (c: nat)
    requires len == |str|
    ensures c == |Tokens(str)|
  {
    hide SkipSpaces, SkipWord, TokensFrom;
    c := 0;
    var i, l := 0, 0;
    while i < len
      invariant l <= i <= len
      invariant forall k :: l <= k < i ==> str[k] != SPACE
      invariant l > 0 ==> str[l - 1] == SPACE
      invariant c + |TokensFrom(str, l)| == |Tokens(str)|
    {
      if str[i] == SPACE {
        if l < i {
          WordTaken(str, l, i);
        }
        SpaceSkipped(str, i);
        l := i + 1;
        if i > 0 && str[i - 1] != SPACE {
          c := c + 1;
        }
      }
      i := i + 1;
    }
    NothingAtEnd(str);
    if i > l {
      WordTaken(str, l, i);
      c := c + 1;
    }
  }

  lemma NothingAtEnd(s: seq<byte>)
    ensures TokensFrom(s, |s|) == []
  {}

  // ---------- split_fill ----------

  method SkipSpacesFrom(str: seq<byte>, start: nat) returns (pos: nat)
    requires start <= |str|
    ensures pos == SkipSpaces(str, start)
  {
    pos := start;
    while pos < |str| && str[pos] == SPACE
      invariant start <= pos <= |str|
      invariant SkipSpaces(str, pos) == SkipSpaces(str, start)
    {
      pos := pos + 1;
    }
  }

  method SkipWordFrom(str: seq<byte>, start: nat) returns (pos: nat)
    requires start <= |str|
    ensures pos == SkipWord(str, start)
  {
    pos := start;
    while pos < |str| && str[pos] != SPACE
      invariant start <= pos <= |str|
      invariant SkipWord(str, pos) == SkipWord(str, start)
    {
      pos := pos + 1;
    }
  }

  /** The arguments after the command name; where the line has fewer, they are empty. Asked for exactly
      as many as there are, it leaves nothing but spaces unread. */
  method SplitFill(str: seq<byte>, len: nat, count: nat) returns (args: seq<seq<byte>>, pos: nat)
    requires len == |str| && count >= 1
    ensures |args| == count - 1 && pos <= |str|
    ensures forall i :: 0 <= i < |args| ==> args[i] == if i + 1 < |Tokens(str)| then Tokens(str)[i + 1] else []
    ensures count == |Tokens(str)| ==>
              args == Tokens(str)[1..] && forall k :: pos <= k < |str| ==> str[k] == SPACE
  {
    hide SkipSpaces, SkipWord, TokensFrom;
    ghost var all := Tokens(str);
    pos := SkipSpacesFrom(str, 0);
    pos := SkipWordFrom(str, pos);
    CommandTaken(str);
    args := [];
    var left := count - 1;
    while left > 0
      invariant left + |args| == count - 1 && pos <= |str|
      invariant TokensFrom(str, pos) == all[FileView.Min(|args| + 1, |all|)..]
      invariant forall i :: 0 <= i < |args| ==> args[i] == if i + 1 < |all| then all[i + 1] else []
    {
      var arg;
      arg, pos := Argument(str, pos);
      args := args + [arg];
      left := left - 1;
    }
    if count == |all| {
      OnlySpaces(str, pos);
      assert args == all[1..];
    }
  }

  /** The next argument, empty at the end of the line. */
  method Argument(str: seq<byte>, start: nat) returns (arg: seq<byte>, pos: nat)
    requires start <= |str|
    ensures pos <= |str|
    ensures var t := TokensFrom(str, start);
            && arg == (if t == [] then [] else t[0])
            && TokensFrom(str, pos) == t[FileView.Min(1, |t|)..]
  {
    hide SkipSpaces, SkipWord, TokensFrom;
    NextToken(str, start);
    var b := SkipSpacesFrom(str, start);
    pos := SkipWordFrom(str, b);
    arg := str[b..pos];
  }

  lemma CommandTaken(s: seq<byte>)
    ensures TokensFrom(s, SkipWord(s, SkipSpaces(s, 0))) == Tokens(s)[FileView.Min(1, |Tokens(s)|)..]
  {
    hide SkipSpaces, SkipWord;
    NothingAtEnd(s);
  }

  lemma NextToken(s: seq<byte>, pos: nat)
    requires pos <= |s|
    ensures var b := SkipSpaces(s, pos);
            var e := SkipWord(s, b);
            var t := TokensFrom(s, pos);
            && s[b..e] == (if t == [] then [] else t[0])
            && TokensFrom(s, e) == t[FileView.Min(1, |t|)..]
  {
    hide SkipSpaces, SkipWord;
    NothingAtEnd(s);
  }

  lemma OnlySpaces(s: seq<byte>, pos: nat)
    requires pos <= |s| && TokensFrom(s, pos) == []
    ensures forall k :: pos <= k < |s| ==> s[k] == SPACE
  {
    hide SkipSpaces, SkipWord;
    assert SkipSpaces(s, pos) == |s|;
  }

  // ---------- Rendering and splitting again ----------

  function Spaces(n: nat): (s: seq<byte>)
    ensures |s| == n
  {
    seq(n, _ => SPACE)
  }

  /** Tokens written out with gaps[i] spaces before the i-th and `trail` spaces after the last. */
  function Render(tokens: seq<seq<byte>>, gaps: seq<nat>, trail: nat): seq<byte>
    requires |tokens| == |gaps|
  {
    if tokens == [] then Spaces(trail)
    else Spaces(gaps[0]) + tokens[0] + Render(tokens[1..], gaps[1..], trail)
  }

  /** Splitting undoes rendering, whatever the number of spaces, as long as there is one between tokens. */
  lemma {:induction false} SplitOfRender(tokens: seq<seq<byte>>, gaps: seq<nat>, trail: nat, front: seq<byte>)
    requires |tokens| == |gaps|
    requires forall i :: 0 <= i < |tokens| ==> IsToken(tokens[i])
    requires forall i :: 0 < i < |gaps| ==> gaps[i] > 0
    ensures TokensFrom(front + Render(tokens, gaps, trail), |front|) == tokens
  {
    hide SkipSpaces, SkipWord, TokensFrom, Render;
    var s := front + Render(tokens, gaps, trail);
    if tokens == [] {
      OnlyTrail(front, gaps, trail);
    } else {
      var rest := Render(tokens[1..], gaps[1..], trail);
      var front' := front + Spaces(gaps[0]) + tokens[0];
      RenderFirst(front, tokens, gaps, trail);
      RestStartsWithSpace(tokens[1..], gaps[1..], trail);
      SplitOfRender(tokens[1..], gaps[1..], trail, front');
      FirstOf(front, gaps[0], tokens[0], rest);
      assert tokens == [tokens[0]] + tokens[1..];
    }
  }

  lemma OnlyTrail(front: seq<byte>, gaps: seq<nat>, trail: nat)
    requires gaps == []
    ensures TokensFrom(front + Render([], gaps, trail), |front|) == []
  {
    hide SkipSpaces, SkipWord;
    var s := front + Render([], gaps, trail);
    SkipSpacesIs(s, |front|, |s|);
  }

  lemma RenderFirst(front: seq<byte>, tokens: seq<seq<byte>>, gaps: seq<nat>, trail: nat)
    requires |tokens| == |gaps| > 0
    ensures front + Render(tokens, gaps, trail)
         == front + Spaces(gaps[0]) + tokens[0] + Render(tokens[1..], gaps[1..], trail)
  {
    var rest := Render(tokens[1..], gaps[1..], trail);
    assert Render(tokens, gaps, trail) == Spaces(gaps[0]) + tokens[0] + rest;
    hide Render;
  }

  /** The first token of a line is found behind its gap, and what follows it is left. */
  lemma FirstOf(front: seq<byte>, gap: nat, token: seq<byte>, rest: seq<byte>)
    requires IsToken(token) && (rest != [] ==> rest[0] == SPACE)
    ensures var front' := front + Spaces(gap) + token;
            TokensFrom(front' + rest, |front|) == [token] + TokensFrom(front' + rest, |front'|)
  {
    hide SkipSpaces, SkipWord;
    var front' := front + Spaces(gap) + token;
    var s, b, e := front' + rest, |front| + gap, |front'|;
    assert s[b..e] == token && s[b] == token[0];
    assert forall k :: b <= k < e ==> s[k] == token[k - b];
    SkipSpacesIs(s, |front|, b);
    SkipWordIs(s, b, e);
  }

  lemma RestStartsWithSpace(tokens: seq<seq<byte>>, gaps: seq<nat>, trail: nat)
    requires |tokens| == |gaps| && (gaps != [] ==> gaps[0] > 0)
    ensures var r := Render(tokens, gaps, trail);
            r != [] ==> r[0] == SPACE
  {}

  lemma SplitRoundTrip(tokens: seq<seq<byte>>, gaps: seq<nat>, trail: nat)
    requires |tokens| == |gaps|
    requires forall i :: 0 <= i < |tokens| ==> IsToken(tokens[i])
    requires forall i :: 0 < i < |gaps| ==> gaps[i] > 0
    ensures Tokens(Render(tokens, gaps, trail)) == tokens
  {
    SplitOfRender(tokens, gaps, trail, []);
    assert [] + Render(tokens, gaps, trail) == Render(tokens, gaps, trail);
  }
}
