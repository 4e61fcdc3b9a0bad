/** Consuming a byte sequence in whole stripes from the left. A running fold together with the
    unconsumed remainder is all that has to be remembered to continue with more input. */
module Stripes {
  import opened Memory
  import Words

  function Fold<A(!new)>(step: (A, seq<byte>) --> A, width: nat, acc: A, s: seq<byte>): A
    requires width > 0
    requires forall a, w :: |w| == width ==> step.requires(a, w)
    decreases |s|
  {
    if |s| < width then acc else Fold(step, width, step(acc, s[..width]), s[width..])
  }

  function Rest(width: nat, s: seq<byte>): (r: seq<byte>)
    requires width > 0
    ensures |r| < width
    decreases |s|
  {
    if |s| < width then s else Rest(width, s[width..])
  }

  /** More input continues the fold from the remainder. */
  lemma {:induction false} FoldAppend<A(!new)>(step: (A, seq<byte>) --> A, width: nat, acc: A,
                                         s: seq<byte>, t: seq<byte>)
    requires width > 0
    requires forall a, w :: |w| == width ==> step.requires(a, w)
    ensures Fold(step, width, acc, s + t)
         == Fold(step, width, Fold(step, width, acc, s), Rest(width, s) + t)
    ensures Rest(width, s + t) == Rest(width, Rest(width, s) + t)
    decreases |s|
  {
    if |s| < width {
    } else {
      assert (s + t)[..width] == s[..width];
      assert (s + t)[width..] == s[width..] + t;
      FoldAppend(step, width, step(acc, s[..width]), s[width..], t);
    }
  }

  lemma {:induction false} RestLength(width: nat, s: seq<byte>)
    requires width > 0
    ensures |Rest(width, s)| == |s| % width
    decreases |s|
  {
    if |s| >= width {
      RestLength(width, s[width..]);
      ModStep(|s|, width);
    } else {
      Words.DivUnique(|s|, width, 0, |s|);
    }
  }

  lemma {:induction false} RestShorter(width: nat, s: seq<byte>)
    requires width > 0
    ensures |Rest(width, s)| <= |s|
    decreases |s|
  {
    if |s| < width {
    } else {
      RestShorter(width, s[width..]);
    }
  }

  lemma ModStep(n: int, m: int)
    requires m > 0
    ensures n % m == (n - m) % m
  {
    var q, r := (n - m) / m, (n - m) % m;
    assert n == (q + 1) * m + r;
    Words.DivUnique(n, m, q + 1, r);
  }

  // ---------- Input given in pieces ----------

  datatype Errorcode = OK | ERROR

  /** An input pointer and the bytes it points to. */
  datatype Buffer = Null | Bytes(data: seq<byte>)

  function Concat(pieces: seq<seq<byte>>): seq<byte> {
    if pieces == [] then [] else Concat(pieces[..|pieces| - 1]) + pieces[|pieces| - 1]
  }

  lemma ConcatPrefix(pieces: seq<seq<byte>>, i: nat)
    requires i < |pieces|
    ensures Concat(pieces[..i + 1]) == Concat(pieces[..i]) + pieces[i]
    ensures |pieces[i]| <= |Concat(pieces[..i + 1])| <= |Concat(pieces)|
    decreases |pieces|
  {
    assert pieces[..i + 1][..i] == pieces[..i];
    if i + 1 == |pieces| {
      assert pieces[..i + 1] == pieces;
    } else {
      var front := pieces[..|pieces| - 1];
      ConcatPrefix(front, i);
      assert front[..i + 1] == pieces[..i + 1] && front[..i] == pieces[..i];
    }
  }
}
