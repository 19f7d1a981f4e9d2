/** Action commands: splitting an action text into tokens (`Engine::executeAction`,
    src/engine.cpp 199-221, and the same loop inside the Actions blocks), the
    `condition if="…"` test, and the decisions of `Engine::execAction` (223-326). */
module Commands {
  import opened Strings
  import opened Substitution
  import opened Events

  // ---------------------------------------------------------------------------
  // Splitting an action text

  /** The splitter's accumulators: the finished tokens and the word being built. */
  datatype Splitter = Splitter(cmd: seq<string>, word: string)

  /** One character: a space closes a non-empty word, anything else extends it. */
  function SplitStep(s: Splitter, c: char): Splitter
  {
    if c == ' ' then (if s.word != "" then Splitter(s.cmd + [s.word], "") else s)
    else Splitter(s.cmd, s.word + [c])
  }

  /** The splitter run from state `s` over the characters of `t`. */
  function ScanFrom(s: Splitter, t: string): Splitter
    decreases |t|
  {
    if t == [] then s else SplitStep(ScanFrom(s, t[..|t| - 1]), t[|t| - 1])
  }

  /** Reference definition of the split: the scan, after which the last character
      pushes the pending word whatever it is (so a trailing space gives a final ""). */
  function Split(t: string): seq<string>
  {
    if t == [] then [] else var s := ScanFrom(Splitter([], ""), t); s.cmd + [s.word]
  }

  /** The source's character loop. */
  method SplitCommand(text: string) returns (cmd: seq<string>)
    ensures cmd == Split(text)
  {
    cmd := [];
    var word := "";
    var i := 0;
    while i < |text|
      invariant 0 <= i <= |text|
      invariant i < |text| || i == 0 ==> Splitter(cmd, word) == ScanFrom(Splitter([], ""), text[..i])
      invariant 0 < i == |text| ==> cmd == Split(text)
    {
      assert text[..i + 1][..i] == text[..i];
      if text[i] == ' ' {
        if word != "" {
          cmd := cmd + [word];
          word := "";
        }
      } else {
        word := word + [text[i]];
      }
      if i == |text| - 1 {
        assert text[..i + 1] == text;
        cmd := cmd + [word];
        word := "";
      }
      i := i + 1;
    }
  }

  predicate SpaceFree(w: string)
  {
    forall j :: 0 <= j < |w| ==> w[j] != ' '
  }

  /** A word followed by a space-free run of characters only grows. */
  lemma {:induction false} ScanWord(s: Splitter, w: string)
    requires SpaceFree(w)
    ensures ScanFrom(s, w) == Splitter(s.cmd, s.word + w)
    decreases |w|
  {
    if w != [] {
      var p := w[..|w| - 1];
      assert SpaceFree(p) by { assert forall k :: 0 <= k < |p| ==> p[k] == w[k]; }
      ScanWord(s, p);
      assert s.word + p + [w[|w| - 1]] == s.word + w;
    }
  }

  /** Scanning a concatenation is scanning one part after the other. */
  lemma {:induction false} ScanAppend(s: Splitter, a: string, b: string)
    ensures ScanFrom(s, a + b) == ScanFrom(ScanFrom(s, a), b)
    decreases |b|
  {
    if b == [] {
      assert a + b == a;
    } else {
      var p := b[..|b| - 1];
      assert (a + b)[..|a + b| - 1] == a + p;
      ScanAppend(s, a, p);
    }
  }

  /** Everything the scan produces is free of spaces, and the finished tokens are
      non-empty. */
  lemma {:induction false} ScanShape(t: string)
    ensures SpaceFree(ScanFrom(Splitter([], ""), t).word)
    ensures forall k :: 0 <= k < |ScanFrom(Splitter([], ""), t).cmd| ==>
      var w := ScanFrom(Splitter([], ""), t).cmd[k]; w != "" && SpaceFree(w)
    ensures t != [] ==> (ScanFrom(Splitter([], ""), t).word == "" <==> t[|t| - 1] == ' ')
    decreases |t|
  {
    if t != [] {
      ScanShape(t[..|t| - 1]);
    }
  }

  /** The shape of a split: no token holds a space, every token but the last is
      non-empty, and the last one is empty exactly when the text ends with a space. */
  lemma SplitShape(t: string)
    requires t != ""
    ensures |Split(t)| >= 1
    ensures forall k :: 0 <= k < |Split(t)| ==> SpaceFree(Split(t)[k])
    ensures forall k :: 0 <= k < |Split(t)| - 1 ==> Split(t)[k] != ""
    ensures Split(t)[|Split(t)| - 1] == "" <==> t[|t| - 1] == ' '
  {
    ScanShape(t);
  }

  /** Text in which spaces only ever separate words. */
  predicate Spaced(t: string)
  {
    t != "" && t[0] != ' ' && t[|t| - 1] != ' ' && forall k :: 0 <= k < |t| - 1 ==> !(t[k] == ' ' && t[k + 1] == ' ')
  }

  lemma JoinSnoc(ws: seq<string>, w: string)
    ensures Join(ws + [w]) == if ws == [] then w else Join(ws) + " " + w
  {
    assert (ws + [w])[..|ws|] == ws;
  }

  /** What the scan over such a text has built so far. */
  predicate ScanMatches(s: Splitter, p: string)
  {
    if p != [] && p[|p| - 1] == ' ' then s.word == "" && s.cmd != [] && Join(s.cmd) + " " == p
    else s.word != "" && Join(s.cmd + [s.word]) == p
  }

  lemma ScanMatchesSpace(s: Splitter, p: string)
    requires p != [] && p[|p| - 1] != ' ' && ScanMatches(s, p)
    ensures ScanMatches(SplitStep(s, ' '), p + [' '])
  {
  }

  lemma ScanMatchesAfterSpace(s: Splitter, p: string, c: char)
    requires p != [] && p[|p| - 1] == ' ' && c != ' ' && ScanMatches(s, p)
    ensures ScanMatches(SplitStep(s, c), p + [c])
  {
    JoinSnoc(s.cmd, [c]);
  }

  lemma ScanMatchesInWord(s: Splitter, p: string, c: char)
    requires p != [] && p[|p| - 1] != ' ' && c != ' ' && ScanMatches(s, p)
    ensures ScanMatches(SplitStep(s, c), p + [c])
  {
    JoinSnoc(s.cmd, s.word);
    JoinSnoc(s.cmd, s.word + [c]);
  }

  /** The invariant of the scan over text in which spaces only separate words. */
  lemma {:induction false} ScanSpaced(t: string)
    requires t != "" && t[0] != ' '
    requires forall k :: 0 <= k < |t| - 1 ==> !(t[k] == ' ' && t[k + 1] == ' ')
    ensures ScanMatches(ScanFrom(Splitter([], ""), t), t)
    decreases |t|
  {
    var p := t[..|t| - 1];
    var c := t[|t| - 1];
    assert t == p + [c];
    var s0 := ScanFrom(Splitter([], ""), p);
    assert ScanFrom(Splitter([], ""), t) == SplitStep(s0, c);
    if p == [] {
      assert t == [c];
    } else {
      assert p[0] == t[0];
      assert forall k :: 0 <= k < |p| - 1 ==> !(p[k] == ' ' && p[k + 1] == ' ') by {
        assert forall k :: 0 <= k < |p| ==> p[k] == t[k];
      }
      ScanSpaced(p);
      if c == ' ' {
        assert t[|t| - 2] == p[|p| - 1];
        ScanMatchesSpace(s0, p);
      } else if p[|p| - 1] == ' ' {
        ScanMatchesAfterSpace(s0, p, c);
      } else {
        ScanMatchesInWord(s0, p, c);
      }
    }
  }

  /** Joining the split with single spaces gives the text back when spaces only
      separate words. */
  lemma JoinSplit(t: string)
    requires Spaced(t)
    ensures Join(Split(t)) == t
  {
    ScanSpaced(t);
  }

  /** The scan over the joined words ends holding the last word, all others done. */
  lemma {:induction false} ScanJoined(ws: seq<string>)
    requires |ws| >= 1
    requires forall k :: 0 <= k < |ws| ==> ws[k] != "" && SpaceFree(ws[k])
    ensures ScanFrom(Splitter([], ""), Join(ws)) == Splitter(ws[..|ws| - 1], ws[|ws| - 1])
    decreases |ws|
  {
    var n := |ws|;
    var s0 := Splitter([], "");
    if n == 1 {
      ScanWord(s0, ws[0]);
    } else {
      var front := ws[..n - 1];
      var w := ws[n - 1];
      assert forall k :: 0 <= k < |front| ==> front[k] == ws[k];
      ScanJoined(front);
      assert Join(ws) == (Join(front) + " ") + w;
      assert front[..n - 2] + [front[n - 2]] == front;
      calc {
        ScanFrom(s0, Join(ws));
        { ScanAppend(s0, Join(front) + " ", w); }
        ScanFrom(ScanFrom(s0, Join(front) + " "), w);
        { ScanAppend(s0, Join(front), " "); ScanSpace(ScanFrom(s0, Join(front))); }
        ScanFrom(SplitStep(Splitter(front[..n - 2], front[n - 2]), ' '), w);
        ScanFrom(Splitter(front, ""), w);
        { ScanWord(Splitter(front, ""), w); }
        Splitter(front, w);
      }
    }
  }

  lemma ScanSpace(s: Splitter)
    ensures ScanFrom(s, " ") == SplitStep(s, ' ')
  {
    assert " "[..0] == [];
  }

  lemma SnocLast(ws: seq<string>)
    requires |ws| >= 1
    ensures ws[..|ws| - 1] + [ws[|ws| - 1]] == ws
  {
  }

  lemma JoinNonEmpty(ws: seq<string>)
    requires |ws| >= 1 && ws[|ws| - 1] != ""
    ensures Join(ws) != ""
  {
  }

  lemma SplitOfScan(t: string, cmd: seq<string>, word: string)
    requires t != "" && ScanFrom(Splitter([], ""), t) == Splitter(cmd, word)
    ensures Split(t) == cmd + [word]
  {
  }

  /** Splitting words joined with single spaces gives the words back. */
  lemma SplitJoin(ws: seq<string>)
    requires |ws| >= 1
    requires forall k :: 0 <= k < |ws| ==> ws[k] != "" && SpaceFree(ws[k])
    ensures Split(Join(ws)) == ws
  {
    ScanJoined(ws);
    JoinNonEmpty(ws);
    SplitOfScan(Join(ws), ws[..|ws| - 1], ws[|ws| - 1]);
    SnocLast(ws);
  }

  // ---------------------------------------------------------------------------
  // The `if` attribute of a condition

  predicate IsOp(c: char)
  {
    c == '!' || c == '='
  }

  /** The position of the first operator character, or |s| when there is none. */
  function FirstOp(s: string): (k: nat)
    ensures k <= |s|
    decreases |s|
  {
    if s == [] then 0
    else if FirstOp(s[..|s| - 1]) < |s| - 1 then FirstOp(s[..|s| - 1])
    else if IsOp(s[|s| - 1]) then |s| - 1
    else |s|
  }

  /** FirstOp finds the first operator, if any. */
  lemma {:induction false} FirstOpSpec(s: string)
    ensures forall j :: 0 <= j < FirstOp(s) ==> !IsOp(s[j])
    ensures FirstOp(s) < |s| ==> IsOp(s[FirstOp(s)])
    decreases |s|
  {
    if s != [] {
      var p := s[..|s| - 1];
      FirstOpSpec(p);
      assert forall j :: 0 <= j < |p| ==> p[j] == s[j];
    }
  }

  /** The last operator character as a string, or "" when there is none. */
  function LastOp(s: string): string
    decreases |s|
  {
    if s == [] then ""
    else if IsOp(s[|s| - 1]) then [s[|s| - 1]]
    else LastOp(s[..|s| - 1])
  }

  /** LastOp is empty exactly when no operator occurs, and is otherwise the operator
      at the last position that holds one. */
  lemma {:induction false} LastOpSpec(s: string)
    ensures LastOp(s) == "" <==> forall j :: 0 <= j < |s| ==> !IsOp(s[j])
    ensures LastOp(s) != "" ==> exists j :: 0 <= j < |s| && LastOp(s) == [s[j]] && IsOp(s[j]) && forall k :: j < k < |s| ==> !IsOp(s[k])
    decreases |s|
  {
    if s != [] {
      var p := s[..|s| - 1];
      LastOpSpec(p);
      assert forall j :: 0 <= j < |p| ==> p[j] == s[j];
      if !IsOp(s[|s| - 1]) && LastOp(p) != "" {
        var j :| 0 <= j < |p| && LastOp(p) == [p[j]] && IsOp(p[j]) && forall k :: j < k < |p| ==> !IsOp(p[k]);
        assert LastOp(s) == [s[j]];
      }
    }
  }

  /** The characters of `s` that are not operators, in order. */
  function NonOps(s: string): string
    decreases |s|
  {
    if s == [] then ""
    else NonOps(s[..|s| - 1]) + (if IsOp(s[|s| - 1]) then "" else [s[|s| - 1]])
  }

  /** NonOps holds no operator, and leaves an operator-free text as it is. */
  lemma {:induction false} NonOpsSpec(s: string)
    ensures forall j :: 0 <= j < |NonOps(s)| ==> !IsOp(NonOps(s)[j])
    ensures (forall j :: 0 <= j < |s| ==> !IsOp(s[j])) ==> NonOps(s) == s
    decreases |s|
  {
    if s != [] {
      var p := s[..|s| - 1];
      NonOpsSpec(p);
      assert forall j :: 0 <= j < |p| ==> p[j] == s[j];
      assert p + [s[|s| - 1]] == s;
    }
  }

  /** A parsed condition: left operand, operator ("!", "=" or ""), right operand. */
  datatype Test = Test(left: string, op: string, right: string)

  /** Reference reading of an `if` attribute: the left operand is everything before
      the first operator character, the operator is the LAST operator character, and
      the right operand is every non-operator character after the first one. */
  function ParseTest(s: string): Test
  {
    Test(s[..FirstOp(s)], LastOp(s), NonOps(s[FirstOp(s)..]))
  }

  /** The variables of the source's character loop: both operands, the operator,
      and whether the left operand is still being read. */
  datatype Parse = Parse(left: string, op: string, right: string, isLeft: bool)

  function ParseChar(q: Parse, c: char): Parse
  {
    if c == '!' then q.(op := "!", isLeft := false)
    else if c == '=' then q.(op := "=", isLeft := false)
    else if q.isLeft then q.(left := q.left + [c])
    else q.(right := q.right + [c])
  }

  /** The loop's variables after reading `s`. */
  function ParseScan(s: string): Parse
    decreases |s|
  {
    if s == [] then Parse("", "", "", true) else ParseChar(ParseScan(s[..|s| - 1]), s[|s| - 1])
  }

  /** The source's character loop over the `if` attribute. */
  method ParseCondition(s: string) returns (t: Test)
    ensures t == ParseTest(s)
  {
    var left, op, right := "", "", "";
    var isLeft := true;
    var i := 0;
    while i < |s|
      invariant 0 <= i <= |s|
      invariant Parse(left, op, right, isLeft) == ParseScan(s[..i])
    {
      assert s[..i + 1][..i] == s[..i];
      if s[i] == '!' {
        op := "!";
        isLeft := false;
      } else if s[i] == '=' {
        op := "=";
        isLeft := false;
      } else if isLeft {
        left := left + [s[i]];
      } else {
        right := right + [s[i]];
      }
      i := i + 1;
    }
    assert s[..i] == s;
    ParseScanTest(s);
    t := Test(left, op, right);
  }

  /** The loop computes the reference reading: the left operand and the flag. */
  lemma {:induction false} ParseScanLeft(s: string)
    ensures ParseScan(s).left == s[..FirstOp(s)] && ParseScan(s).isLeft == (FirstOp(s) == |s|)
    decreases |s|
  {
    if s != [] {
      var p, c := s[..|s| - 1], s[|s| - 1];
      ParseScanLeft(p);
      assert s == p + [c];
      FirstOpSnoc(p, c);
      if FirstOp(p) < |p| || IsOp(c) {
        assert s[..FirstOp(p)] == p[..FirstOp(p)];
      } else {
        LeftGrows(p, c);
      }
    }
  }

  /** The operator. */
  lemma {:induction false} ParseScanOp(s: string)
    ensures ParseScan(s).op == LastOp(s)
    decreases |s|
  {
    if s != [] {
      var p, c := s[..|s| - 1], s[|s| - 1];
      ParseScanOp(p);
      assert s == p + [c];
      FirstOpSnoc(p, c);
    }
  }

  /** The right operand. */
  lemma {:induction false} ParseScanRight(s: string)
    ensures ParseScan(s).right == NonOps(s[FirstOp(s)..])
    decreases |s|
  {
    if s != [] {
      var p, c := s[..|s| - 1], s[|s| - 1];
      ParseScanRight(p);
      ParseScanLeft(p);
      assert s == p + [c];
      FirstOpSnoc(p, c);
      if FirstOp(p) < |p| { NonOpsSnoc(p, c, FirstOp(p)); } else { RightEmpty(p, c); }
    }
  }

  lemma ParseScanTest(s: string)
    ensures ParseScan(s) == Parse(s[..FirstOp(s)], LastOp(s), NonOps(s[FirstOp(s)..]), FirstOp(s) == |s|)
  {
    ParseScanLeft(s);
    ParseScanOp(s);
    ParseScanRight(s);
  }

  lemma FirstOpSnoc(p: string, c: char)
    ensures FirstOp(p + [c]) == if FirstOp(p) < |p| then FirstOp(p) else if IsOp(c) then |p| else |p| + 1
    ensures LastOp(p + [c]) == if IsOp(c) then [c] else LastOp(p)
  {
    assert (p + [c])[..|p|] == p;
  }

  lemma NonOpsSnoc(p: string, c: char, f: nat)
    requires f <= |p|
    ensures NonOps((p + [c])[f..]) == NonOps(p[f..]) + (if IsOp(c) then "" else [c])
  {
    var q := p + [c];
    assert q[f..] == p[f..] + [c];
    assert (p[f..] + [c])[..|p[f..]|] == p[f..];
  }

  lemma LeftGrows(p: string, c: char)
    ensures (p + [c])[..|p| + 1] == p[..|p|] + [c]
  {
    assert p[..|p|] == p;
  }

  lemma RightEmpty(p: string, c: char)
    ensures NonOps((p + [c])[|p|..]) == if IsOp(c) then "" else [c]
    ensures NonOps((p + [c])[|p| + 1..]) == ""
  {
    assert (p + [c])[|p|..] == [c];
    assert (p + [c])[|p| + 1..] == [];
    assert [c][..0] == [];
  }

  /** The outcome of a parsed test once both operands are substituted; with no
      operator it is false. */
  predicate Holds(t: Test, vals: Values)
  {
    (t.op == "!" && Substitute(t.left, vals) != Substitute(t.right, vals))
    || (t.op == "=" && Substitute(t.left, vals) == Substitute(t.right, vals))
  }

  predicate ConditionHolds(ifAttr: string, vals: Values)
  {
    Holds(ParseTest(ifAttr), vals)
  }

  /** The source's evaluation of a condition: parse, substitute both operands, then
      compare by the operator; `result` stays false without one. */
  method EvalCondition(ifAttr: string, vals: Values) returns (result: bool)
    ensures result == ConditionHolds(ifAttr, vals)
  {
    var t := ParseCondition(ifAttr);
    var a := ReadVarInText(t.left, vals);
    var b := ReadVarInText(t.right, vals);
    result := false;
    if t.op == "!" {
      result := a != b;
    }
    if t.op == "=" {
      result := a == b;
    }
  }

  predicate OperatorFree(s: string)
  {
    forall j :: 0 <= j < |s| ==> !IsOp(s[j])
  }

  /** FirstOp and LastOp on a text with one operator-free part before the operators. */
  lemma {:induction false} FirstOpAfter(a: string, b: string)
    requires OperatorFree(a) && b != [] && IsOp(b[0])
    ensures FirstOp(a + b) == |a|
    decreases |b|
  {
    var s := a + b;
    if |b| == 1 {
      assert s[..|s| - 1] == a;
      NoOperatorFirst(a);
    } else {
      assert s[..|s| - 1] == a + b[..|b| - 1];
      FirstOpAfter(a, b[..|b| - 1]);
    }
  }

  lemma NotEqualParse(a: string, b: string)
    requires OperatorFree(a) && OperatorFree(b)
    ensures ParseTest(a + "!=" + b) == Test(a, "=", b)
  {
    var tail := "!=" + b;
    var s := a + tail;
    assert a + "!=" + b == s;
    FirstOpAfter(a, tail);
    assert s[..|a|] == a;
    assert s[|a|..] == tail;
    assert forall j :: |a| + 1 < j < |s| ==> s[j] == b[j - |a| - 2];
    LastOpAt(s, |a| + 1);
    NonOpsConcat("!=", b);
    NonOpsSpec(b);
    assert "!="[..1] == "!";
    assert "!"[..0] == "";
  }

  /** Written `a!=b`, a condition is an equality test: the `=` is the last operator. */
  lemma NotEqualIsEquality(a: string, b: string, vals: Values)
    requires OperatorFree(a) && OperatorFree(b)
    ensures ParseTest(a + "!=" + b) == Test(a, "=", b)
    ensures ConditionHolds(a + "!=" + b, vals) <==> Substitute(a, vals) == Substitute(b, vals)
  {
    NotEqualParse(a, b);
  }

  /** LastOp is the operator at the last position that holds one. */
  lemma {:induction false} LastOpAt(s: string, j: nat)
    requires j < |s| && IsOp(s[j]) && forall k :: j < k < |s| ==> !IsOp(s[k])
    ensures LastOp(s) == [s[j]]
    decreases |s|
  {
    if j < |s| - 1 {
      var p := s[..|s| - 1];
      assert forall k :: j < k < |p| ==> p[k] == s[k];
      LastOpAt(p, j);
    }
  }

  lemma {:induction false} NonOpsConcat(a: string, b: string)
    ensures NonOps(a + b) == NonOps(a) + NonOps(b)
    decreases |b|
  {
    if b == [] {
      assert a + b == a;
    } else {
      var p := b[..|b| - 1];
      assert (a + b)[..|a + b| - 1] == a + p;
      NonOpsConcat(a, p);
    }
  }

  lemma {:induction false} NoOperatorFirst(s: string)
    requires OperatorFree(s)
    ensures FirstOp(s) == |s|
    decreases |s|
  {
    if s != [] {
      var p := s[..|s| - 1];
      assert forall j :: 0 <= j < |p| ==> p[j] == s[j];
      NoOperatorFirst(p);
    }
  }

  /** Without an operator the whole text is the left operand and the test is false. */
  lemma NoOperator(s: string, vals: Values)
    requires OperatorFree(s)
    ensures ParseTest(s) == Test(s, "", "")
    ensures !ConditionHolds(s, vals)
  {
    NoOperatorFirst(s);
    LastOpSpec(s);
    assert s[..|s|] == s;
    assert s[|s|..] == [];
  }

  // ---------------------------------------------------------------------------
  // execAction

  /** QVariant's string-to-bool conversion: false for "", "0" and "false" in any case. */
  predicate ToBool(lower: char -> char, s: string)
  {
    var l := LowerString(lower, s);
    !(l == "" || l == "0" || l == "false")
  }

  const SearchPrefix: string := "https://www.google.com/search?channel=fs&client=linux&q="

  /** The tokens each reserved command indexes without checking the length. */
  predicate WellFormedCommand(cmd: seq<string>)
  {
    && |cmd| >= 1
    && (cmd[0] == "settings" ==> |cmd| >= 2 && (cmd[1] == "name" || cmd[1] == "prop" ==> |cmd| >= 3))
    && (cmd[0] == "application" ==> |cmd| >= 2)
    && (cmd[0] == "web_message" ==> |cmd| >= 2 && WebWellFormed(cmd))
  }

  predicate WebWellFormed(cmd: seq<string>)
    requires |cmd| >= 2
  {
    cmd[1] == "without_action_btn" || cmd[1] == "with_action_btn" ==>
      |cmd| >= 3 && (cmd[2] == "search" || cmd[2] == "site" ==> |cmd| >= 4)
  }

  /** What a command changes: the stored user name and suggestion flag, and the
      signals it emits. */
  datatype Effect = Effect(userName: string, propEnabled: bool, events: seq<Event>)

  /** The reply kind of a web message, by its button flavour. */
  function WebKind(flavour: string): string
  {
    if flavour == "without_action_btn" then "web_without_action_btn" else "web_with_action_btn"
  }

  /** `web_message <flavour> search|site …` */
  function WebMessage(cmd: seq<string>, vals: Values): seq<Event>
    requires WellFormedCommand(cmd) && cmd[0] == "web_message"
  {
    if cmd[1] == "without_action_btn" || cmd[1] == "with_action_btn" then
      var kind := WebKind(cmd[1]);
      if cmd[2] == "search" then
        (if cmd[3] != "" then [Reply("", true, kind, [SearchPrefix + Join(cmd[3..])], [])] else [])
      else if cmd[2] == "site" then
        (if cmd[3] != "" then [SiteReply(kind, true, Substitute(cmd[2], vals))] else [])
      else []
    else []
  }

  /** Reference definition of `execAction`'s decisions. */
  function ExecAction(lower: char -> char, cmd: seq<string>, vals: Values): (r: Effect)
    requires WellFormedCommand(cmd)
    ensures forall k :: 0 <= k < |r.events| ==> !IsAnswer(r.events[k])
    ensures cmd[0] != "settings" ==> r.userName == vals.userName && r.propEnabled == vals.propEnabled
  {
    var keep := Effect(vals.userName, vals.propEnabled, []);
    if cmd[0] == "settings" then
      if cmd[1] == "name" then
        (if cmd[2] != "" then keep.(userName := Substitute(cmd[2], vals)) else keep)
      else if cmd[1] == "prop" then
        (if cmd[2] != "" then keep.(propEnabled := ToBool(lower, Substitute(cmd[2], vals))) else keep)
      else if cmd[1] == "show" then keep.(events := [Reply("", true, "settings", [], [])])
      else keep
    else if cmd[0] == "application" then
      (if cmd[1] != "quit" then keep.(events := [Quit]) else keep)
    else if cmd[0] == "web_message" then keep.(events := WebMessage(cmd, vals))
    else keep
  }

  /** `application` quits on every second token except "quit", and nothing ever
      hides the window. */
  lemma ApplicationNeverHides(lower: char -> char, cmd: seq<string>, vals: Values)
    requires WellFormedCommand(cmd)
    ensures HideWindow !in ExecAction(lower, cmd, vals).events
    ensures cmd[0] == "application" ==> (ExecAction(lower, cmd, vals).events == [Quit] <==> cmd[1] != "quit")
  {
  }

  /** The search URL is the fixed prefix followed by the raw search words joined
      with single spaces: no substitution and no `+` encoding take place. */
  lemma SearchIsRaw(cmd: seq<string>, vals: Values)
    requires WellFormedCommand(cmd) && cmd[0] == "web_message" && cmd[1] == "with_action_btn"
    requires cmd[2] == "search" && cmd[3] != ""
    ensures WebMessage(cmd, vals) == [Reply("", true, "web_with_action_btn", [SearchPrefix + Join(cmd[3..])], [])]
  {
  }

  /** Whether a command is handled by the engine itself rather than forwarded;
      `application` only counts where the caller routes it (`withApp`). */
  predicate Internal(cmd: seq<string>, withApp: bool)
    requires |cmd| >= 1
  {
    cmd[0] == "settings" || (withApp && cmd[0] == "application") || cmd[0] == "web_message"
  }

  /** What an action needs not to index outside its tokens. */
  predicate Dispatchable(cmd: seq<string>, withApp: bool)
  {
    |cmd| >= 1 && (Internal(cmd, withApp) ==> WellFormedCommand(cmd))
  }

  /** Every token substituted. */
  function SubstituteAll(cmd: seq<string>, vals: Values): (r: seq<string>)
    ensures |r| == |cmd| && forall k :: 0 <= k < |cmd| ==> r[k] == Substitute(cmd[k], vals)
  {
    seq(|cmd|, k requires 0 <= k < |cmd| => Substitute(cmd[k], vals))
  }

  /** The token loop before forwarding: each token is replaced in place by its
      substitution. */
  method SubstituteTokens(cmd: seq<string>, vals: Values) returns (out: seq<string>)
    ensures out == SubstituteAll(cmd, vals)
  {
    out := cmd;
    var i := 0;
    while i < |out|
      invariant 0 <= i <= |out| == |cmd|
      invariant forall k :: 0 <= k < i ==> out[k] == Substitute(cmd[k], vals)
      invariant forall k :: i <= k < |out| ==> out[k] == cmd[k]
    {
      var s := ReadVarInText(out[i], vals);
      out := out[i := s];
      i := i + 1;
    }
  }

  /** One action of an Actions block: reserved commands go to `execAction`, anything
      else goes, substituted, to the extension that owns the document. */
  function Dispatch(lower: char -> char, cmd: seq<string>, withApp: bool, iid: string, vals: Values): (e: Effect)
    requires Dispatchable(cmd, withApp)
    ensures !Internal(cmd, withApp) ==> e == Effect(vals.userName, vals.propEnabled, [PluginAction(iid, SubstituteAll(cmd, vals))])
    ensures Internal(cmd, withApp) ==> forall k :: 0 <= k < |e.events| ==> !e.events[k].PluginAction?
    ensures forall k :: 0 <= k < |e.events| ==> !IsAnswer(e.events[k])
  {
    if Internal(cmd, withApp) then ExecAction(lower, cmd, vals)
    else Effect(vals.userName, vals.propEnabled, [PluginAction(iid, SubstituteAll(cmd, vals))])
  }

  /** Outside the unconditional actions of a global pass, `application` commands are
      forwarded to the extension. */
  lemma ApplicationForwarded(lower: char -> char, cmd: seq<string>, iid: string, vals: Values)
    requires |cmd| >= 1 && cmd[0] == "application"
    ensures Dispatch(lower, cmd, false, iid, vals).events == [PluginAction(iid, SubstituteAll(cmd, vals))]
  {
  }
}
