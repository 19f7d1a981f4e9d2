/** Placeholder substitution (`Engine::readVarInText`, src/engine.cpp 1180-1227): one
    forward pass over the template, no recursion and no escapes. */
module Substitution {

  /** The three renderings of the current time, taken as inputs. */
  datatype Clock = Clock(date: string, hour: string, dateTime: string)

  /** The runtime values a template can refer to: the capture vector, the stored user
      name and suggestion flag, and the clock. */
  datatype Values = Values(vars: seq<string>, userName: string, propEnabled: bool, clock: Clock)

  predicate IsSlotDigit(c: char)
  {
    c == '0' || c == '1' || c == '2'
  }

  /** The expansion of the capture slot `d` (0..2): dropped when out of range. */
  function Slot(vals: Values, c: char): string
    requires IsSlotDigit(c)
  {
    var d := (c as int) - ('0' as int);
    if d < |vals.vars| then vals.vars[d] else ""
  }

  function PropWord(on: bool): string
  {
    if on then "activé" else "desactivé"
  }

  /** Whether `text` holds, from position i, `?` followed by the letters a, b, c, d. */
  predicate NamedAt(text: string, i: nat, a: char, b: char, c: char, d: char)
  {
    i + 4 < |text| && text[i] == '?' && text[i + 1] == a && text[i + 2] == b && text[i + 3] == c && text[i + 4] == d
  }

  /** What a template position starts: a placeholder or one literal character. */
  datatype Token = SlotRef(digit: char) | UserName | PropFlag | Date | Hour | DateTime | Literal(c: char)

  /** The token a template suffix starts with. Placeholders are recognised in this
      order: `?0`-`?2`, `?name`, `?prop`, `?date`, `?hour`, `?dt`; any other
      character, a lone `?` included, is a literal. */
  function TokenOf(s: string): (t: Token)
    requires s != []
    ensures t.Literal? ==> t.c == s[0]
    ensures !t.Literal? ==> s[0] == '?'
    ensures Width(t) <= |s|
  {
    if s[0] != '?' then Literal(s[0])
    else if 1 < |s| && IsSlotDigit(s[1]) then SlotRef(s[1])
    else if NamedAt(s, 0, 'n', 'a', 'm', 'e') then UserName
    else if NamedAt(s, 0, 'p', 'r', 'o', 'p') then PropFlag
    else if NamedAt(s, 0, 'd', 'a', 't', 'e') then Date
    else if NamedAt(s, 0, 'h', 'o', 'u', 'r') then Hour
    else if 2 < |s| && s[1] == 'd' && s[2] == 't' then DateTime
    else Literal('?')
  }

  /** How many template characters a token spans. */
  function Width(t: Token): nat
  {
    match t
    case SlotRef(_) => 2
    case DateTime => 3
    case Literal(_) => 1
    case _ => 5
  }

  /** What a token expands to. */
  function Expand(t: Token, vals: Values): string
  {
    match t
    case SlotRef(d) => if IsSlotDigit(d) then Slot(vals, d) else ""
    case UserName => vals.userName
    case PropFlag => PropWord(vals.propEnabled)
    case Date => vals.clock.date
    case Hour => vals.clock.hour
    case DateTime => vals.clock.dateTime
    case Literal(c) => [c]
  }

  /** Reference definition: the expansion of a template, token by token from the
      front. Each token is read from the text that follows it, so expansion only
      looks forward. */
  function Substitute(text: string, vals: Values): string
    decreases |text|
  {
    if text == [] then ""
    else Expand(TokenOf(text), vals) + Substitute(text[Width(TokenOf(text))..], vals)
  }

  /** One token of the reference definition moves from the rest into the reply. */
  lemma Step(text: string, i: nat, vals: Values, reply: string, piece: string, j: nat)
    requires i < |text| && piece == Expand(TokenOf(text[i..]), vals) && j == i + Width(TokenOf(text[i..]))
    ensures j <= |text|
    ensures (reply + piece) + Substitute(text[j..], vals) == reply + Substitute(text[i..], vals)
  {
    assert text[i..][j - i..] == text[j..];
  }

  /** The source's loop. Near the end of the text the look-ahead indices are clamped
      back onto the `?` itself; the comparisons on them then fail before any index
      past the end is read, which the bounds checks of this method establish. */
  method ReadVarInText(text: string, vals: Values) returns (reply: string)
    ensures reply == Substitute(text, vals)
  {
    reply := "";
    var i := 0;
    ghost var goal := Substitute(text, vals);
    assert text[0..] == text;
    while i < |text|
      invariant 0 <= i <= |text|
      invariant reply + Substitute(text[i..], vals) == goal
      decreases |text| - i
    {
      ghost var i0, tok := i, TokenOf(text[i..]);
      var piece: string;
      var ch := text[i];
      var nextIndex := if i + 1 == |text| then i else i + 1;
      var nextIndexB := if i + 2 == |text| then i else i + 2;
      var nextIndexC := if i + 3 == |text| then i else i + 3;
      var nextIndexD := if i + 4 == |text| then i else i + 4;
      if ch == '?' && IsSlotDigit(text[nextIndex]) {
        assert tok == SlotRef(text[nextIndex]);
        piece := Slot(vals, text[nextIndex]);
        i := i + 2;
      } else if ch == '?' && text[nextIndex] == 'n' && text[nextIndexB] == 'a' && text[nextIndexC] == 'm' && text[nextIndexD] == 'e' {
        assert tok == UserName;
        piece := vals.userName;
        i := i + 5;
      } else if ch == '?' && text[nextIndex] == 'p' && text[nextIndexB] == 'r' && text[nextIndexC] == 'o' && text[nextIndexD] == 'p' {
        assert tok == PropFlag;
        piece := PropWord(vals.propEnabled);
        i := i + 5;
      } else if ch == '?' && text[nextIndex] == 'd' && text[nextIndexB] == 'a' && text[nextIndexC] == 't' && text[nextIndexD] == 'e' {
        assert tok == Date;
        piece := vals.clock.date;
        i := i + 5;
      } else if ch == '?' && text[nextIndex] == 'h' && text[nextIndexB] == 'o' && text[nextIndexC] == 'u' && text[nextIndexD] == 'r' {
        assert tok == Hour;
        piece := vals.clock.hour;
        i := i + 5;
      } else if ch == '?' && text[nextIndex] == 'd' && text[nextIndexB] == 't' {
        assert tok == DateTime;
        piece := vals.clock.dateTime;
        i := i + 3;
      } else {
        assert tok == Literal(ch);
        piece := [ch];
        i := i + 1;
      }
      Step(text, i0, vals, reply, piece, i);
      reply := reply + piece;
    }
  }

  // ---------------------------------------------------------------------------
  // Properties of the substitution

  /** A template without `?` comes back unchanged. */
  lemma {:induction false} NoPlaceholder(t: string, vals: Values)
    requires '?' !in t
    ensures Substitute(t, vals) == t
    decreases |t|
  {
    if t != [] {
      assert t[0] != '?';
      assert '?' !in t[1..];
      NoPlaceholder(t[1..], vals);
      assert [t[0]] + t[1..] == t;
    }
  }

  /** A placeholder at the front of a template expands and the rest follows. */
  lemma PlaceholderPrefix(ph: string, rest: string, vals: Values)
    requires ph != [] && |ph| == Width(TokenOf(ph + rest))
    ensures Substitute(ph + rest, vals) == Expand(TokenOf(ph + rest), vals) + Substitute(rest, vals)
  {
    assert (ph + rest)[|ph|..] == rest;
  }

  /** A capture slot expands to the captured text when it exists and is dropped
      otherwise. */
  lemma SlotExpansion(d: char, rest: string, vals: Values)
    requires IsSlotDigit(d)
    ensures Substitute(['?', d] + rest, vals)
         == (if (d as int) - ('0' as int) < |vals.vars| then vals.vars[(d as int) - ('0' as int)] else "")
            + Substitute(rest, vals)
  {
    PlaceholderPrefix(['?', d], rest, vals);
  }

  /** `?name` and `?prop` expand to the stored settings. */
  lemma SettingsExpansion(rest: string, vals: Values)
    ensures Substitute("?name" + rest, vals) == vals.userName + Substitute(rest, vals)
    ensures Substitute("?prop" + rest, vals) == (if vals.propEnabled then "activé" else "desactivé") + Substitute(rest, vals)
  {
    var name, prop := "?name" + rest, "?prop" + rest;
    assert TokenOf(name) == UserName by {
      assert !IsSlotDigit(name[1]) && NamedAt(name, 0, 'n', 'a', 'm', 'e');
    }
    PlaceholderPrefix("?name", rest, vals);
    assert TokenOf(prop) == PropFlag by {
      assert !IsSlotDigit(prop[1]) && !NamedAt(prop, 0, 'n', 'a', 'm', 'e') && NamedAt(prop, 0, 'p', 'r', 'o', 'p');
    }
    PlaceholderPrefix("?prop", rest, vals);
  }

  /** Literal text without `?` in front of a template passes through. */
  lemma {:induction false} LiteralPrefix(lit: string, rest: string, vals: Values)
    requires '?' !in lit
    ensures Substitute(lit + rest, vals) == lit + Substitute(rest, vals)
    decreases |lit|
  {
    if lit != [] {
      var t := lit + rest;
      assert t[0] == lit[0] && t[0] != '?';
      assert t[1..] == lit[1..] + rest;
      assert '?' !in lit[1..];
      LiteralPrefix(lit[1..], rest, vals);
      assert [lit[0]] + lit[1..] == lit;
    } else {
      assert lit + rest == rest;
    }
  }

  /** `?date`, `?hour` and `?dt` expand to the three renderings of the clock. */
  lemma ClockExpansion(rest: string, vals: Values)
    ensures Substitute("?date" + rest, vals) == vals.clock.date + Substitute(rest, vals)
    ensures Substitute("?hour" + rest, vals) == vals.clock.hour + Substitute(rest, vals)
    ensures Substitute("?dt" + rest, vals) == vals.clock.dateTime + Substitute(rest, vals)
  {
    var date, hour, dt := "?date" + rest, "?hour" + rest, "?dt" + rest;
    assert TokenOf(date) == Date by {
      assert !IsSlotDigit(date[1]) && !NamedAt(date, 0, 'n', 'a', 'm', 'e') && !NamedAt(date, 0, 'p', 'r', 'o', 'p');
      assert NamedAt(date, 0, 'd', 'a', 't', 'e');
    }
    PlaceholderPrefix("?date", rest, vals);
    assert TokenOf(hour) == Hour by {
      assert !IsSlotDigit(hour[1]) && !NamedAt(hour, 0, 'n', 'a', 'm', 'e') && !NamedAt(hour, 0, 'p', 'r', 'o', 'p');
      assert !NamedAt(hour, 0, 'd', 'a', 't', 'e') && NamedAt(hour, 0, 'h', 'o', 'u', 'r');
    }
    PlaceholderPrefix("?hour", rest, vals);
    assert TokenOf(dt) == DateTime by {
      assert !IsSlotDigit(dt[1]) && !NamedAt(dt, 0, 'n', 'a', 'm', 'e') && !NamedAt(dt, 0, 'p', 'r', 'o', 'p');
      assert !NamedAt(dt, 0, 'd', 'a', 't', 'e') && !NamedAt(dt, 0, 'h', 'o', 'u', 'r');
      assert dt[1] == 'd' && dt[2] == 't';
    }
    PlaceholderPrefix("?dt", rest, vals);
  }
}
