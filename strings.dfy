/** Text helpers shared by the engine's components. */
module Strings {

  /** The words separated by single spaces: how the engine rebuilds the text of a
      segment or of the tail of a command. */
  function Join(ws: seq<string>): string
    decreases |ws|
  {
    if |ws| == 0 then ""
    else if |ws| == 1 then ws[0]
    else Join(ws[..|ws| - 1]) + " " + ws[|ws| - 1]
  }

  /** The engine's word-by-word join loop (a space after every word but the last). */
  method JoinWords(ws: seq<string>) returns (s: string)
    ensures s == Join(ws)
  {
    s := "";
    var i := 0;
    while i < |ws|
      invariant 0 <= i <= |ws|
      invariant s == if i == 0 then "" else if i == |ws| then Join(ws) else Join(ws[..i]) + " "
    {
      assert ws[..i + 1][..i] == ws[..i];
      if i == |ws| - 1 {
        s := s + ws[i];
      } else {
        s := s + ws[i] + " ";
      }
      i := i + 1;
      assert i == |ws| ==> ws[..i] == ws;
    }
  }

  /** QList::lastIndexOf: the last position holding `w`, or -1. */
  function LastIndexOf(ts: seq<string>, w: string): (i: int)
    ensures -1 <= i < |ts|
    ensures i >= 0 ==> ts[i] == w
    ensures forall j :: i < j < |ts| ==> ts[j] != w
    decreases |ts|
  {
    if |ts| == 0 then -1
    else if ts[|ts| - 1] == w then |ts| - 1
    else LastIndexOf(ts[..|ts| - 1], w)
  }

  /** QString::truncate: keep at most the first `n` characters. */
  function Truncate(s: string, n: nat): (r: string)
    ensures |r| <= n && r <= s
    ensures |s| >= n ==> |r| == n
    ensures |s| <= n ==> r == s
  {
    if |s| > n then s[..n] else s
  }

  /** Character-wise lowering of a whole string, with the lowering function supplied. */
  function LowerString(lower: char -> char, s: string): (r: string)
    ensures |r| == |s|
    ensures forall k :: 0 <= k < |s| ==> r[k] == lower(s[k])
  {
    seq(|s|, k requires 0 <= k < |s| => lower(s[k]))
  }

  /** Only the last word of the list may be empty. */
  predicate EmptyOnlyLast(ws: seq<string>)
  {
    forall k :: 0 <= k < |ws| - 1 ==> ws[k] != ""
  }

  /** A comparison under a case folding: equal lengths and equal folded characters. */
  predicate FoldEqual(fold: char -> char, a: string, b: string)
  {
    |a| == |b| && forall k :: 0 <= k < |a| ==> fold(a[k]) == fold(b[k])
  }
}
