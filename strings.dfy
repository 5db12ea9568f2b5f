/** The .NET string operations the handlers rely on. */
module Strings {
  import opened Wrappers

  /** Char.IsWhiteSpace: the Unicode space, line and paragraph separators,
      the control characters U+0009 to U+000D, and U+0085. */
  predicate IsWhiteSpace(c: char) {
    || c == ' '
    || ('\t' <= c <= '\r')
    || c == '\U{0085}'
    || c == '\U{00A0}'
    || c == '\U{1680}'
    || ('\U{2000}' <= c <= '\U{200A}')
    || c == '\U{2028}'
    || c == '\U{2029}'
    || c == '\U{202F}'
    || c == '\U{205F}'
    || c == '\U{3000}'
  }

  /** string.IsNullOrWhiteSpace: null, empty, or made of white space only. */
  predicate IsNullOrWhiteSpace(s: Option<string>) {
    match s
    case None => true
    case Some(t) => forall i | 0 <= i < |t| :: IsWhiteSpace(t[i])
  }

  /** string.Join: the pieces in order, with `sep` between each two neighbours. */
  function Join(sep: string, xs: seq<string>): string
    decreases |xs|
  {
    if |xs| == 0 then ""
    else if |xs| == 1 then xs[0]
    else xs[0] + sep + Join(sep, xs[1..])
  }

  /** The offset at which piece `i` starts in Join(sep, xs): the lengths of the
      pieces before it, plus one separator after each of them. */
  function Start(sep: string, xs: seq<string>, i: nat): nat
    requires i <= |xs|
  {
    if i == 0 then 0 else Start(sep, xs, i - 1) + |xs[i - 1]| + |sep|
  }

  lemma {:induction false} StartShift(sep: string, xs: seq<string>, i: nat)
    requires i < |xs|
    ensures Start(sep, xs, i + 1) == |xs[0]| + |sep| + Start(sep, xs[1..], i)
  {
    if i > 0 {
      StartShift(sep, xs, i - 1);
    }
  }

  /** Nothing follows the last piece of a joined string. */
  lemma {:induction false} JoinLength(sep: string, xs: seq<string>)
    requires |xs| > 0
    ensures |Join(sep, xs)| == Start(sep, xs, |xs| - 1) + |xs[|xs| - 1]|
    decreases |xs|
  {
    if |xs| > 1 {
      var rest := xs[1..];
      assert Join(sep, xs) == xs[0] + sep + Join(sep, rest);
      JoinLength(sep, rest);
      StartShift(sep, xs, |xs| - 2);
      assert rest[|rest| - 1] == xs[|xs| - 1];
    }
  }

  /** Piece i of Join(sep, xs) sits at Start(sep, xs, i). */
  lemma {:induction false} JoinPiece(sep: string, xs: seq<string>, i: nat)
    requires i < |xs|
    ensures Start(sep, xs, i) + |xs[i]| <= |Join(sep, xs)|
    ensures Join(sep, xs)[Start(sep, xs, i)..Start(sep, xs, i) + |xs[i]|] == xs[i]
    decreases |xs|
  {
    var r := Join(sep, xs);
    if |xs| > 1 {
      var rest := xs[1..];
      var j := Join(sep, rest);
      assert r == xs[0] + sep + j;
      if i > 0 {
        JoinPiece(sep, rest, i - 1);
        StartShift(sep, xs, i - 1);
        var off := |xs[0]| + |sep|;
        var s := Start(sep, rest, i - 1);
        assert r[off + s..off + s + |xs[i]|] == j[s..s + |rest[i - 1]|];
      }
    }
  }

  /** The piece before piece i (0 < i) is followed by exactly one separator,
      which ends where piece i starts. */
  lemma {:induction false} JoinSeparator(sep: string, xs: seq<string>, i: nat)
    requires 0 < i < |xs|
    ensures Start(sep, xs, i) <= |Join(sep, xs)|
    ensures Join(sep, xs)[Start(sep, xs, i - 1) + |xs[i - 1]|..Start(sep, xs, i)] == sep
    decreases |xs|
  {
    var r := Join(sep, xs);
    var rest := xs[1..];
    var j := Join(sep, rest);
    assert r == xs[0] + sep + j;
    JoinPiece(sep, xs, i);
    if i > 1 {
      JoinSeparator(sep, rest, i - 1);
      StartShift(sep, xs, i - 1);
      StartShift(sep, xs, i - 2);
      var off := |xs[0]| + |sep|;
      var s := Start(sep, rest, i - 2) + |rest[i - 2]|;
      assert r[off + s..off + Start(sep, rest, i - 1)] == j[s..Start(sep, rest, i - 1)];
    }
  }
}
