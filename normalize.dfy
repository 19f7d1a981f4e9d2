/** The normaliser and segmenter (`Engine::format`, src/engine.cpp 328-392): the raw
    utterance is lowered, accents are folded, `!` and `?` are dropped, words are cut on
    spaces and hyphens, `,` and `&` become separator tokens, and the token list is cut
    into segments. */
module Normalize {
  import opened Strings

  /** The accented letters the engine folds. */
  const FoldTable: string := "éèêëîïûüùôöòâäàç"

  /** Characters that no token ever contains. */
  const Banned: string := " -!?" + FoldTable

  /** The engine's accent-folding table (350-356). */
  function FoldAccent(c: char): (r: char)
    ensures r !in FoldTable
    ensures c !in FoldTable ==> r == c
  {
    if c == 'é' || c == 'è' || c == 'ê' || c == 'ë' then 'e'
    else if c == 'î' || c == 'ï' then 'i'
    else if c == 'û' || c == 'ü' || c == 'ù' then 'u'
    else if c == 'ô' || c == 'ö' || c == 'ò' then 'o'
    else if c == 'â' || c == 'ä' || c == 'à' then 'a'
    else if c == 'ç' then 'c'
    else c
  }

  predicate IsGreeting(t: string)
  {
    t == "bonjour" || t == "salut" || t == "hello" || t == "coucou"
  }

  predicate IsSeparator(t: string)
  {
    t == "&" || t == ","
  }

  /** The state of the character loop: the finished tokens and the word being built. */
  datatype Scan = Scan(done: seq<string>, word: string)

  /** One iteration of the character loop (336-357), before the end-of-text flush. */
  function ScanChar(s: Scan, c: char): Scan
  {
    if c == ' ' || c == '-' then
      if s.word != "" then Scan(s.done + [s.word], "") else s
    else if c == ',' || c == '&' then
      Scan(s.done + [s.word, ","], "")
    else if c != '!' && c != '?' then
      Scan(s.done, s.word + [FoldAccent(c)])
    else s
  }

  function ScanText(text: string): Scan
    decreases |text|
  {
    if text == [] then Scan([], "") else ScanChar(ScanText(text[..|text| - 1]), text[|text| - 1])
  }

  /** The token array of an already-lowered text: the scan plus the final flush (359-362). */
  function Tokens(text: string): seq<string>
  {
    var s := ScanText(text);
    if s.word != "" then s.done + [s.word] else s.done
  }

  /** The state of the segmenting loop: the finished segments and the current one. */
  datatype Cut = Cut(segs: seq<seq<string>>, suite: seq<string>)

  /** One iteration of the segmenting loop (370-381); `first` says the token is the first. */
  function CutToken(c: Cut, txt: string, first: bool): Cut
  {
    if IsGreeting(txt) && first then Cut(c.segs + [c.suite + [txt]], [])
    else if IsSeparator(txt) && c.suite != [] then Cut(c.segs + [c.suite], [])
    else Cut(c.segs, c.suite + [txt])
  }

  function CutTokens(ts: seq<string>): Cut
    decreases |ts|
  {
    if ts == [] then Cut([], []) else CutToken(CutTokens(ts[..|ts| - 1]), ts[|ts| - 1], |ts| == 1)
  }

  /** The segments of a token array: the cut plus the final flush (383-386). */
  function Segments(ts: seq<string>): seq<seq<string>>
  {
    var c := CutTokens(ts);
    if c.suite != [] then c.segs + [c.suite] else c.segs
  }

  /** What `format` hands to `analize` for a raw utterance. */
  function Normalized(lower: char -> char, raw: string): seq<seq<string>>
  {
    Segments(Tokens(LowerString(lower, raw)))
  }

  /** `format` up to the call of `analize` (328-389): the two loops of the source. */
  method Format(lower: char -> char, raw: string) returns (segs: seq<seq<string>>)
    ensures segs == Normalized(lower, raw)
  {
    var text := LowerString(lower, raw);
    var tokens: seq<string> := [];
    var word := "";
    var i := 0;
    while i < |text|
      invariant 0 <= i <= |text|
      invariant Scan(tokens, word) == if 0 < i == |text| then Scan(Tokens(text), "") else ScanText(text[..i])
    {
      assert text[..i + 1][..i] == text[..i];
      var c := text[i];
      if c == ' ' || c == '-' {
        if word != "" {
          tokens := tokens + [word];
          word := "";
        }
      } else if c == ',' || c == '&' {
        tokens := tokens + [word];
        word := "";
        tokens := tokens + [","];
      } else if c != '!' && c != '?' {
        word := word + [FoldAccent(c)];
      }
      assert Scan(tokens, word) == ScanText(text[..i + 1]);
      if i == |text| - 1 && word != "" {
        tokens := tokens + [word];
        word := "";
      }
      i := i + 1;
      assert i == |text| ==> text[..i] == text;
    }
    assert tokens == Tokens(text);

    var arrayFinal: seq<seq<string>> := [];
    var suite: seq<string> := [];
    var k := 0;
    while k < |tokens|
      invariant 0 <= k <= |tokens|
      invariant Cut(arrayFinal, suite) == if 0 < k == |tokens| then Cut(Segments(tokens), []) else CutTokens(tokens[..k])
    {
      assert tokens[..k + 1][..k] == tokens[..k];
      var txt := tokens[k];
      if IsGreeting(txt) && k == 0 {
        suite := suite + [txt];
        arrayFinal := arrayFinal + [suite];
        suite := [];
      } else if IsSeparator(txt) && suite != [] {
        arrayFinal := arrayFinal + [suite];
        suite := [];
      } else {
        suite := suite + [txt];
      }
      assert Cut(arrayFinal, suite) == CutTokens(tokens[..k + 1]);
      if k == |tokens| - 1 && suite != [] {
        arrayFinal := arrayFinal + [suite];
        suite := [];
      }
      k := k + 1;
      assert k == |tokens| ==> tokens[..k] == tokens;
    }
    segs := arrayFinal;
  }

  // ---------------------------------------------------------------------------
  // Properties of the normaliser

  predicate Clean(w: string)
  {
    forall k :: 0 <= k < |w| ==> w[k] !in Banned
  }

  lemma {:induction false} ScanClean(text: string)
    ensures forall k :: 0 <= k < |ScanText(text).done| ==> Clean(ScanText(text).done[k])
    ensures Clean(ScanText(text).word)
    decreases |text|
  {
    if text != [] {
      ScanClean(text[..|text| - 1]);
      var c := text[|text| - 1];
      var s := ScanText(text[..|text| - 1]);
      if !(c == ' ' || c == '-' || c == ',' || c == '&' || c == '!' || c == '?') {
        var w := s.word + [FoldAccent(c)];
        assert forall k :: 0 <= k < |s.word| ==> w[k] == s.word[k];
        assert w[|s.word|] !in Banned;
      }
    }
  }

  /** No token contains a space, a hyphen, `!`, `?` or a letter of the fold table. */
  lemma TokensClean(text: string)
    ensures forall k :: 0 <= k < |Tokens(text)| ==> Clean(Tokens(text)[k])
  {
    ScanClean(text);
  }

  /** Concatenation of a list of segments. */
  function Flatten(segs: seq<seq<string>>): seq<string>
    decreases |segs|
  {
    if segs == [] then [] else Flatten(segs[..|segs| - 1]) + segs[|segs| - 1]
  }

  /** Whether the last token of `ts` is a separator that the segmenter swallows:
      it arrives while the current segment is non-empty, that is, the token before it
      was neither the opening greeting nor itself swallowed. */
  predicate DropsLast(ts: seq<string>)
    decreases |ts|
  {
    |ts| > 1 && IsSeparator(ts[|ts| - 1])
    && !(|ts| == 2 && IsGreeting(ts[0]))
    && !DropsLast(ts[..|ts| - 1])
  }

  /** The tokens that end up in some segment, in order. */
  function Kept(ts: seq<string>): seq<string>
    decreases |ts|
  {
    if ts == [] then [] else Kept(ts[..|ts| - 1]) + (if DropsLast(ts) then [] else [ts[|ts| - 1]])
  }

  /** The current segment is non-empty exactly when the last token went into it. */
  lemma {:induction false} SuiteNonEmpty(ts: seq<string>)
    ensures CutTokens(ts).suite != [] <==> ts != [] && !DropsLast(ts) && !(|ts| == 1 && IsGreeting(ts[0]))
    decreases |ts|
  {
    if ts != [] {
      var p := ts[..|ts| - 1];
      var txt := ts[|ts| - 1];
      SuiteNonEmpty(p);
      assert CutTokens(ts) == CutToken(CutTokens(p), txt, |ts| == 1);
      assert |ts| > 1 ==> p[0] == ts[0];
    }
  }

  lemma {:induction false} CutTokensShape(ts: seq<string>)
    ensures Flatten(CutTokens(ts).segs) + CutTokens(ts).suite == Kept(ts)
    decreases |ts|
  {
    if ts != [] {
      var p := ts[..|ts| - 1];
      var txt := ts[|ts| - 1];
      CutTokensShape(p);
      SuiteNonEmpty(p);
      var c := CutTokens(p);
      assert CutTokens(ts) == CutToken(c, txt, |ts| == 1);
      assert Kept(ts) == Kept(p) + (if DropsLast(ts) then [] else [txt]);
      assert |ts| > 1 ==> p[0] == ts[0];
      if IsGreeting(txt) && |ts| == 1 {
        assert c == Cut([], []);
        assert Flatten([[txt]]) == Flatten([]) + [txt];
      } else if IsSeparator(txt) && c.suite != [] {
        assert DropsLast(ts);
        var segs := c.segs + [c.suite];
        assert segs[..|segs| - 1] == c.segs;
        assert Flatten(segs) == Flatten(c.segs) + c.suite;
      } else {
        assert !DropsLast(ts);
        assert Flatten(c.segs) + (c.suite + [txt]) == (Flatten(c.segs) + c.suite) + [txt];
      }
    }
  }

  lemma {:induction false} CutSegsNonEmpty(ts: seq<string>)
    ensures forall k :: 0 <= k < |CutTokens(ts).segs| ==> CutTokens(ts).segs[k] != []
    decreases |ts|
  {
    if ts != [] {
      CutSegsNonEmpty(ts[..|ts| - 1]);
    }
  }

  /** Concatenating the segments gives the token tokens minus exactly the separators
      that arrived while the current segment was non-empty... */
  lemma SegmentsConcat(ts: seq<string>)
    ensures Flatten(Segments(ts)) == Kept(ts)
  {
    CutTokensShape(ts);
    var c := CutTokens(ts);
    if c.suite != [] {
      var segs := c.segs + [c.suite];
      assert segs[..|segs| - 1] == c.segs;
    }
  }

  /** ... and every segment holds at least one token. */
  lemma SegmentsNonEmpty(ts: seq<string>)
    ensures forall k :: 0 <= k < |Segments(ts)| ==> Segments(ts)[k] != []
  {
    CutSegsNonEmpty(ts);
  }

  lemma {:induction false} SegsGrow(ts: seq<string>, n: nat)
    requires n <= |ts|
    ensures CutTokens(ts[..n]).segs <= CutTokens(ts).segs
    decreases |ts| - n
  {
    if n < |ts| {
      SegsGrow(ts, n + 1);
      assert ts[..n + 1][..n] == ts[..n];
    } else {
      assert ts[..n] == ts;
    }
  }

  /** A greeting as the first token is a segment on its own. */
  lemma GreetingSegment(ts: seq<string>)
    requires |ts| > 0 && IsGreeting(ts[0])
    ensures |Segments(ts)| > 0 && Segments(ts)[0] == [ts[0]]
  {
    SegsGrow(ts, 1);
    var one := ts[..1];
    assert one[..0] == [] && one[0] == ts[0];
    assert CutTokens(one) == CutToken(CutTokens([]), ts[0], true);
    assert [] + [ts[0]] == [ts[0]];
    assert CutTokens(one).segs == [[ts[0]]];
  }

  lemma {:induction false} BlankScan(lower: char -> char, raw: string)
    requires forall k :: 0 <= k < |raw| ==> lower(raw[k]) in " -!?"
    ensures ScanText(LowerString(lower, raw)) == Scan([], "")
    decreases |raw|
  {
    if raw != [] {
      var p := raw[..|raw| - 1];
      BlankScan(lower, p);
      assert LowerString(lower, raw)[..|raw| - 1] == LowerString(lower, p);
    }
  }

  /** Input made only of blanks, hyphens, `!` and `?` (the empty input among them)
      yields no segment at all. */
  lemma BlankInput(lower: char -> char, raw: string)
    requires forall k :: 0 <= k < |raw| ==> lower(raw[k]) in " -!?"
    ensures Normalized(lower, raw) == []
  {
    BlankScan(lower, raw);
  }

  /** Every token of every segment is clean, whatever the lowering function does. */
  lemma NormalizedClean(lower: char -> char, raw: string)
    ensures forall s, k :: s in Normalized(lower, raw) && 0 <= k < |s| ==> Clean(s[k])
  {
    var ts := Tokens(LowerString(lower, raw));
    TokensClean(LowerString(lower, raw));
    SegmentsConcat(ts);
    forall s, k | s in Segments(ts) && 0 <= k < |s| ensures Clean(s[k]) {
      var i :| 0 <= i < |Segments(ts)| && Segments(ts)[i] == s;
      FlattenMember(Segments(ts), i, k);
      KeptMember(ts, s[k]);
    }
  }

  lemma {:induction false} FlattenMember(segs: seq<seq<string>>, i: nat, k: nat)
    requires i < |segs| && k < |segs[i]|
    ensures segs[i][k] in Flatten(segs)
    decreases |segs|
  {
    if i < |segs| - 1 {
      FlattenMember(segs[..|segs| - 1], i, k);
    }
  }

  lemma {:induction false} KeptMember(ts: seq<string>, t: string)
    requires t in Kept(ts)
    ensures t in ts
    decreases |ts|
  {
    if t !in Kept(ts[..|ts| - 1]) {
      assert t == ts[|ts| - 1];
    } else {
      KeptMember(ts[..|ts| - 1], t);
    }
  }

  /** An empty word in a token list is always the one a `,` or `&` pushed, so the
      separator token follows it. */
  predicate EmptyBeforeSeparator(ts: seq<string>)
  {
    forall k :: 0 <= k < |ts| && ts[k] == "" ==> k + 1 < |ts| && ts[k + 1] == ","
  }

  lemma {:induction false} ScanEmptyBeforeSeparator(text: string)
    ensures EmptyBeforeSeparator(ScanText(text).done)
    decreases |text|
  {
    if text != [] {
      ScanEmptyBeforeSeparator(text[..|text| - 1]);
    }
  }

  /** The token array has an empty word only in front of a separator. */
  lemma TokensEmptyBeforeSeparator(text: string)
    ensures EmptyBeforeSeparator(Tokens(text))
  {
    ScanEmptyBeforeSeparator(text);
  }

  /** The cut of the first n tokens: only the last token of a segment can be empty,
      and a current segment that ends in an empty word is cut by the next token. */
  lemma {:induction false} CutEmptyOnlyLast(ts: seq<string>, n: nat)
    requires EmptyBeforeSeparator(ts) && n <= |ts|
    ensures forall k :: 0 <= k < |CutTokens(ts[..n]).segs| ==> EmptyOnlyLast(CutTokens(ts[..n]).segs[k])
    ensures EmptyOnlyLast(CutTokens(ts[..n]).suite)
    ensures var u := CutTokens(ts[..n]).suite; u != [] && u[|u| - 1] == "" ==> n < |ts| && ts[n] == ","
    decreases n
  {
    if n > 0 {
      CutEmptyOnlyLast(ts, n - 1);
      assert ts[..n][..n - 1] == ts[..n - 1];
      assert CutTokens(ts[..n]) == CutToken(CutTokens(ts[..n - 1]), ts[n - 1], n == 1);
    }
  }

  /** In every segment only the last token can be empty. */
  lemma SegmentsEmptyOnlyLast(ts: seq<string>)
    requires EmptyBeforeSeparator(ts)
    ensures forall k :: 0 <= k < |Segments(ts)| ==> EmptyOnlyLast(Segments(ts)[k])
  {
    CutEmptyOnlyLast(ts, |ts|);
    assert ts[..|ts|] == ts;
  }

  /** What `format` hands to `analize` has an empty token only at the end of a
      segment: "a ," gives the segment ["a", ""]. */
  lemma NormalizedEmptyOnlyLast(lower: char -> char, raw: string)
    ensures forall k :: 0 <= k < |Normalized(lower, raw)| ==> EmptyOnlyLast(Normalized(lower, raw)[k])
  {
    TokensEmptyBeforeSeparator(LowerString(lower, raw));
    SegmentsEmptyOnlyLast(Tokens(LowerString(lower, raw)));
  }
}
