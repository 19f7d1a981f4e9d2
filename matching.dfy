/** The per-block tests of the matcher: the Keywords gate (src/engine.cpp 463-494,
    819-850), the Var anchor and capture (496-520, 852-876). */
module Matching {
  import opened Strings
  import opened Grammar

  // ---------------------------------------------------------------------------
  // Keywords

  /** The word-count window of a Keywords block. */
  predicate InRange(minWord: int, maxWord: int, seg: seq<string>)
  {
    minWord <= |seg| <= maxWord
  }

  /** A Words group needs one of its words in the segment, a NoWords group none of
      them; any other child is no constraint. */
  predicate GroupPasses(g: Group, seg: seq<string>)
  {
    match g
    case Words(ws) => exists k :: 0 <= k < |ws| && ws[k] in seg
    case NoWords(ws) => forall k :: 0 <= k < |ws| ==> ws[k] !in seg
    case OtherGroup => true
  }

  /** The verdict of an in-range Keywords block. */
  predicate KeywordsPass(groups: seq<Group>, seg: seq<string>)
  {
    forall k :: 0 <= k < |groups| ==> GroupPasses(groups[k], seg)
  }

  /** The inner loop over a group's words, stopping at the first one present. */
  method ContainsAny(words: seq<string>, seg: seq<string>) returns (found: bool)
    ensures found <==> exists k :: 0 <= k < |words| && words[k] in seg
  {
    found := false;
    var i := 0;
    while i < |words| && !found
      invariant 0 <= i <= |words|
      invariant found <==> exists k :: 0 <= k < i && words[k] in seg
    {
      found := words[i] in seg;
      i := i + 1;
    }
  }

  /** The loop over the groups of an in-range Keywords block: `isOk` starts true and
      the walk stops at the first group that fails. */
  method EvalKeywords(groups: seq<Group>, seg: seq<string>) returns (ok: bool)
    ensures ok == KeywordsPass(groups, seg)
  {
    ok := true;
    var i := 0;
    while i < |groups| && ok
      invariant 0 <= i <= |groups|
      invariant ok == KeywordsPass(groups[..i], seg)
      invariant !ok ==> !KeywordsPass(groups, seg)
    {
      assert groups[..i + 1][..i] == groups[..i];
      assert groups[..i + 1][i] == groups[i];
      match groups[i] {
        case Words(ws) =>
          var isContains := ContainsAny(ws, seg);
          if !isContains { ok := false; }
        case NoWords(ws) =>
          var isContains := ContainsAny(ws, seg);
          if isContains { ok := false; }
        case OtherGroup =>
      }
      i := i + 1;
    }
    assert ok ==> groups[..i] == groups;
  }

  // ---------------------------------------------------------------------------
  // Var: the anchor

  function Max(a: int, b: int): int
  {
    if a >= b then a else b
  }

  /** Global anchor: the greatest last position of any listed anchor, -1 when none
      occurs; that is, the last position of the segment holding an anchor. */
  function MaxAnchor(seg: seq<string>, anchors: seq<string>): (r: int)
    ensures -1 <= r < |seg|
    ensures r == -1 <==> forall k :: 0 <= k < |anchors| ==> anchors[k] !in seg
    ensures r >= 0 ==> seg[r] in anchors
    ensures forall j :: r < j < |seg| ==> seg[j] !in anchors
    decreases |anchors|
  {
    if anchors == [] then -1
    else
      var front := anchors[..|anchors| - 1];
      var w := anchors[|anchors| - 1];
      assert forall k :: 0 <= k < |front| ==> front[k] == anchors[k];
      assert anchors == front + [w];
      var i := LastIndexOf(seg, w);
      assert i == -1 ==> w !in seg;
      Max(MaxAnchor(seg, front), i)
  }

  /** The source's loop for the global anchor (`if (i >= index) index = i`). */
  method GlobalAnchor(seg: seq<string>, anchors: seq<string>) returns (index: int)
    ensures index == MaxAnchor(seg, anchors)
  {
    index := -1;
    var k := 0;
    while k < |anchors|
      invariant 0 <= k <= |anchors|
      invariant index == MaxAnchor(seg, anchors[..k])
    {
      assert anchors[..k + 1][..k] == anchors[..k];
      var i := LastIndexOf(seg, anchors[k]);
      if i >= index { index := i; }
      k := k + 1;
    }
    assert anchors[..k] == anchors;
  }

  /** Follow-up anchor: the last position of the first listed anchor that occurs at
      all, -1 when none does. */
  function FirstAnchor(seg: seq<string>, anchors: seq<string>): (r: int)
    ensures -1 <= r < |seg|
    ensures r == -1 <==> forall k :: 0 <= k < |anchors| ==> anchors[k] !in seg
    ensures r >= 0 ==> exists k :: (0 <= k < |anchors| && r == LastIndexOf(seg, anchors[k])
      && forall k' :: 0 <= k' < k ==> anchors[k'] !in seg)
    decreases |anchors|
  {
    if anchors == [] then -1
    else
      var i := LastIndexOf(seg, anchors[0]);
      if i != -1 then i
      else
        assert anchors[0] !in seg;
        var r := FirstAnchor(seg, anchors[1..]);
        assert forall k :: 1 <= k < |anchors| ==> anchors[k] == anchors[1..][k - 1];
        r
  }

  /** The source's loop for the follow-up anchor, which stops at the first hit. */
  method ScopedAnchor(seg: seq<string>, anchors: seq<string>) returns (index: int)
    ensures index == FirstAnchor(seg, anchors)
  {
    index := -1;
    var k := 0;
    while k < |anchors|
      invariant 0 <= k <= |anchors|
      invariant index == -1
      invariant FirstAnchor(seg, anchors) == FirstAnchor(seg, anchors[k..])
    {
      index := LastIndexOf(seg, anchors[k]);
      if index != -1 { return; }
      assert anchors[k..][1..] == anchors[k + 1..];
      k := k + 1;
    }
  }

  // ---------------------------------------------------------------------------
  // Var: the capture

  /** The source's accumulation: a space goes before a token only once the text so
      far is non-empty. */
  function Glue(ts: seq<string>): string
    decreases |ts|
  {
    if ts == [] then ""
    else
      var g := Glue(ts[..|ts| - 1]);
      if g == "" then ts[|ts| - 1] else g + " " + ts[|ts| - 1]
  }

  /** For non-empty tokens the accumulation is the single-space join. */
  lemma {:induction false} GlueJoin(ts: seq<string>)
    requires forall k :: 0 <= k < |ts| ==> ts[k] != ""
    ensures Glue(ts) == Join(ts)
    ensures ts != [] ==> Glue(ts) != ""
    decreases |ts|
  {
    if ts != [] {
      var front := ts[..|ts| - 1];
      assert forall k :: 0 <= k < |front| ==> front[k] == ts[k];
      GlueJoin(front);
    }
  }

  /** Where the captured run of tokens ends: `max` tokens at most when max >= 1,
      every remaining token otherwise. */
  function CaptureEnd(seg: seq<string>, index: nat, max: int): (e: nat)
    requires index < |seg|
    ensures index + 1 <= e <= |seg|
    ensures max <= 0 ==> e == |seg|
    ensures max >= 1 ==> e - (index + 1) == if |seg| - (index + 1) < max then |seg| - (index + 1) else max
  {
    if max <= 0 || index + max + 1 > |seg| then |seg| else index + max + 1
  }

  /** The text a Var block captures after the anchor at `index`. */
  function Capture(seg: seq<string>, index: nat, max: int): string
    requires index < |seg|
  {
    Glue(seg[index + 1..CaptureEnd(seg, index, max)])
  }

  /** The source's capture loop, with its `break` after the token at index + max. */
  method CaptureAfter(seg: seq<string>, index: nat, max: int) returns (text: string)
    requires index < |seg|
    ensures text == Capture(seg, index, max)
  {
    text := "";
    ghost var e := CaptureEnd(seg, index, max);
    var i := index + 1;
    while i < |seg|
      invariant index + 1 <= i <= e
      invariant e < |seg| ==> i < e
      invariant text == Glue(seg[index + 1..i])
    {
      assert seg[index + 1..i + 1][..i - index - 1] == seg[index + 1..i];
      if text == "" { text := text + seg[i]; } else { text := text + " " + seg[i]; }
      assert text == Glue(seg[index + 1..i + 1]);
      if i == index + max {
        assert i + 1 == e;
        return;
      }
      i := i + 1;
    }
    assert i == e;
  }

  /** The capture vector after a Var block: the captured text is appended when an
      anchor occurs and the capture is non-empty, and nothing changes otherwise. */
  function Captured(vars: seq<string>, seg: seq<string>, index: int, max: int): (r: seq<string>)
    requires -1 <= index < |seg|
    ensures index == -1 ==> r == vars
    ensures index >= 0 ==> r == if Capture(seg, index, max) != "" then vars + [Capture(seg, index, max)] else vars
  {
    if index != -1 then
      var text := Capture(seg, index, max);
      if text != "" then vars + [text] else vars
    else vars
  }

  /** When only the last token can be empty, as in every segment `format`
      produces, the accumulation is still the single-space join, and it is empty
      exactly when every token is. */
  lemma GlueJoinLast(ts: seq<string>)
    requires EmptyOnlyLast(ts)
    ensures Glue(ts) == Join(ts)
    ensures Glue(ts) == "" <==> forall k :: 0 <= k < |ts| ==> ts[k] == ""
  {
    if ts != [] {
      var front := ts[..|ts| - 1];
      assert forall k :: 0 <= k < |front| ==> front[k] == ts[k];
      GlueJoin(front);
      assert front != [] ==> ts[0] == front[0];
    }
  }

  /** The capture is the single-space join of the tokens that follow the anchor, at
      most `max` of them when max >= 1, and it is empty exactly when every token
      after the anchor is empty (there are none, or only a trailing empty one). */
  lemma CaptureWords(seg: seq<string>, index: nat, max: int)
    requires index < |seg|
    requires EmptyOnlyLast(seg)
    ensures max <= 0 ==> Capture(seg, index, max) == Join(seg[index + 1..])
    ensures max >= 1 && index + max < |seg| ==> Capture(seg, index, max) == Join(seg[index + 1..index + max + 1])
    ensures Capture(seg, index, max) == "" <==> forall k :: index < k < |seg| ==> seg[k] == ""
  {
    var e := CaptureEnd(seg, index, max);
    var run := seg[index + 1..e];
    assert max <= 0 ==> run == seg[index + 1..];
    assert forall k :: 0 <= k < |run| ==> run[k] == seg[index + 1 + k];
    GlueJoinLast(run);
    if Capture(seg, index, max) == "" {
      forall k | index < k < |seg| ensures seg[k] == "" {
        if k < e {
          assert run[k - index - 1] == seg[k];
        }
      }
    }
  }
}
