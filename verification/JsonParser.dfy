/**
 `_parse` with its two contexts: `default_parse_context`, which builds the value, and
 `null_parse_context`, which skips it.
 */
module JsonParser {
  import opened Bytes
  import opened JsonGrammar
  import opened JsonInput

  datatype Outcome = Accepted(value: Value) | Rejected | Raised

  /** The outcome and the cursor are those of the grammar function. */
  ghost predicate Agrees(p: Parsed<Value>, r: Outcome, rest: Text, pending: bool) {
    match p
    case Ok(v, t) => r == Accepted(v) && rest == t
    case Bad(t, q) => r == Rejected && rest == t && pending == q
    case Thrown => r == Raised
  }

  lemma NumberStart(s: Text)
    requires s != [] && IsNumberChar(s[0])
    ensures NumberLength(s) >= 1
  {
  }

  method Parse(strtod: Text -> Reading, input: Input) returns (r: Outcome)
    requires input.Valid()
    modifies input
    ensures input.Valid() && input.Pos() >= old(input.Pos())
    ensures Agrees(ParseValue(strtod, old(input.Rest())), r, input.Rest(), input.consumed)
    ensures r.Accepted? ==> input.Pos() > old(input.Pos())
    decreases |input.data| - input.Pos(), 2
  {
    hide Newlines, StringBody, AfterMatch, ParseArray, ParseObject, NumberLength, SkipSpace;
    ghost var start := input.Pos();
    input.SkipWs();
    ghost var t := input.Rest();
    var ch := input.Getc();
    if ch == -1 {
      return Rejected;
    }
    assert t[0] == ch && t[1..] == input.Rest();
    assert start < input.Pos();
    if ch == LETTER_N {
      var ok := input.Match(ULL);
      r := if ok then Accepted(Null) else Rejected;
    } else if ch == LETTER_F {
      var ok := input.Match(ALSE);
      r := if ok then Accepted(Bool(false)) else Rejected;
    } else if ch == LETTER_T {
      var ok := input.Match(RUE);
      r := if ok then Accepted(Bool(true)) else Rejected;
    } else if ch == QUOTE {
      var ok, text := ParseString(input);
      r := if ok then Accepted(String(text)) else Rejected;
    } else if ch == LBRACKET {
      r := ParseArrayItems(strtod, input);
    } else if ch == LBRACE {
      r := ParseObjectMembers(strtod, input);
    } else if IsDigit(ch) || ch == MINUS {
      input.Ungetc();
      assert input.Rest() == t;
      NumberStart(t);
      var num := ParseNumber(input);
      match strtod(num) {
        case Partly => r := Rejected;
        case Finite(x) => r := Accepted(Number(x));
        case Infinite => r := Raised;
      }
    } else {
      input.Ungetc();
      assert input.Rest() == t;
      r := Rejected;
    }
  }

  /** `_parse_array` */
  method ParseArrayItems(strtod: Text -> Reading, input: Input) returns (r: Outcome)
    requires input.Valid()
    modifies input
    ensures input.Valid() && input.Pos() >= old(input.Pos())
    ensures Agrees(ParseArray(strtod, old(input.Rest())), r, input.Rest(), input.consumed)
    decreases |input.data| - input.Pos(), 3
  {
    hide Newlines, ParseValue;
    ghost var goal := ParseArray(strtod, input.Rest());
    var items: seq<Value> := [];
    var ok := input.Expect(RBRACKET);
    if ok {
      return Accepted(Array(items));
    }
    while true
      invariant input.Valid() && input.Pos() >= old(input.Pos())
      invariant ParseItems(strtod, input.Rest(), items) == goal
      decreases |input.data| - input.Pos()
    {
      var item := Parse(strtod, input);
      match item {
        case Raised => return Raised;
        case Rejected => return Rejected;
        case Accepted(v) => items := items + [v];
      }
      ok := input.Expect(COMMA);
      if !ok {
        break;
      }
    }
    ok := input.Expect(RBRACKET);
    r := if ok then Accepted(Array(items)) else Rejected;
  }

  /** `_parse_object` */
  method ParseObjectMembers(strtod: Text -> Reading, input: Input) returns (r: Outcome)
    requires input.Valid()
    modifies input
    ensures input.Valid() && input.Pos() >= old(input.Pos())
    ensures Agrees(ParseObject(strtod, old(input.Rest())), r, input.Rest(), input.consumed)
    decreases |input.data| - input.Pos(), 3
  {
    hide Newlines, ParseValue, ParseKey, Expects, AfterExpect;
    ghost var goal := ParseObject(strtod, input.Rest());
    var members: map<Text, Value> := map[];
    var ok := input.Expect(RBRACE);
    if ok {
      return Accepted(Object(members));
    }
    while true
      invariant input.Valid() && input.Pos() >= old(input.Pos())
      invariant ParseMembers(strtod, input.Rest(), members) == goal
      decreases |input.data| - input.Pos()
    {
      var good, key := ParseMemberKey(input);
      if !good {
        return Rejected;
      }
      var member := Parse(strtod, input);
      match member {
        case Raised => return Raised;
        case Rejected => return Rejected;
        case Accepted(v) => members := members[key := v];
      }
      ok := input.Expect(COMMA);
      if !ok {
        break;
      }
    }
    ok := input.Expect(RBRACE);
    r := if ok then Accepted(Object(members)) else Rejected;
  }

  /** A key and its colon. */
  method ParseMemberKey(input: Input) returns (ok: bool, key: Text)
    requires input.Valid()
    modifies input
    ensures input.Valid() && input.Pos() >= old(input.Pos())
    ensures input.Rest() == ParseKey(old(input.Rest())).rest
    ensures ok == ParseKey(old(input.Rest())).Ok? && (ok ==> key == ParseKey(old(input.Rest())).value)
    ensures !ok ==> input.consumed == ParseKey(old(input.Rest())).pending
  {
    hide Newlines, StringBody;
    ok := input.Expect(QUOTE);
    if !ok {
      return false, [];
    }
    ok, key := ParseString(input);
    if ok {
      ok := input.Expect(COLON);
    }
  }

  // Skipping.

  datatype Skipped = Passed(rest: Text) | Refused(rest: Text)

  function SkipLiteral(s: Text, pattern: Text): (r: Skipped)
    ensures |r.rest| <= |s|
  {
    if pattern <= s then Passed(s[|pattern|..]) else Refused(AfterMatch(s, pattern))
  }

  function SkipNumber(strtod: Text -> Reading, s: Text): (r: Skipped)
    requires s != [] && IsNumberChar(s[0])
    ensures |r.rest| < |s|
  {
    var n := NumberLength(s);
    if strtod(s[..n]).Partly? then Refused(s[n..]) else Passed(s[n..])
  }

  /** `_parse` with the context that discards the value. */
  function SkipValue(strtod: Text -> Reading, s: Text): (r: Skipped)
    ensures |r.rest| <= |s| && (r.Passed? ==> |r.rest| < |s|)
    decreases |s|, 2
  {
    var t := SkipSpace(s);
    if t == [] then Refused(t)
    else if t[0] == LETTER_N then SkipLiteral(t[1..], ULL)
    else if t[0] == LETTER_F then SkipLiteral(t[1..], ALSE)
    else if t[0] == LETTER_T then SkipLiteral(t[1..], RUE)
    else if t[0] == QUOTE then
      var b := StringBody(t[1..]);
      if b.Ok? then Passed(b.rest) else Refused(b.rest)
    else if t[0] == LBRACKET then
      if Expects(t[1..], RBRACKET) then Passed(AfterExpect(t[1..], RBRACKET))
      else SkipItems(strtod, AfterExpect(t[1..], RBRACKET))
    else if t[0] == LBRACE then
      if Expects(t[1..], RBRACE) then Passed(AfterExpect(t[1..], RBRACE))
      else SkipMembers(strtod, AfterExpect(t[1..], RBRACE))
    else if IsDigit(t[0]) || t[0] == MINUS then SkipNumber(strtod, t)
    else Refused(t)
  }

  /** The closing bracket after the last item or member. */
  function SkipClose(s: Text, close: byte): (r: Skipped)
    ensures |r.rest| <= |s|
  {
    var u := AfterExpect(s, COMMA);
    if Expects(u, close) then Passed(AfterExpect(u, close)) else Refused(AfterExpect(u, close))
  }

  function SkipItems(strtod: Text -> Reading, s: Text): (r: Skipped)
    ensures |r.rest| <= |s|
    decreases |s|, 3
  {
    match SkipValue(strtod, s)
    case Refused(rest) => Refused(rest)
    case Passed(t) =>
      if Expects(t, COMMA) then SkipItems(strtod, AfterExpect(t, COMMA)) else SkipClose(t, RBRACKET)
  }

  function SkipMembers(strtod: Text -> Reading, s: Text): (r: Skipped)
    ensures |r.rest| <= |s|
    decreases |s|, 3
  {
    var k := ParseKey(s);
    if k.Bad? then Refused(k.rest)
    else
      match SkipValue(strtod, k.rest)
      case Refused(rest) => Refused(rest)
      case Passed(t) =>
        if Expects(t, COMMA) then SkipMembers(strtod, AfterExpect(t, COMMA)) else SkipClose(t, RBRACE)
  }

  ghost predicate SkipOutcome(p: Skipped, ok: bool, rest: Text) {
    ok == p.Passed? && rest == p.rest
  }

  method Skip(strtod: Text -> Reading, input: Input) returns (ok: bool)
    requires input.Valid()
    modifies input
    ensures input.Valid() && input.Pos() >= old(input.Pos())
    ensures SkipOutcome(SkipValue(strtod, old(input.Rest())), ok, input.Rest())
    ensures ok ==> input.Pos() > old(input.Pos())
    decreases |input.data| - input.Pos(), 2
  {
    hide Newlines, StringBody;
    input.SkipWs();
    ghost var t := input.Rest();
    var ch := input.Getc();
    if ch == -1 {
      return false;
    }
    assert t[0] == ch && t[1..] == input.Rest();
    if ch == LETTER_N {
      ok := input.Match(ULL);
    } else if ch == LETTER_F {
      ok := input.Match(ALSE);
    } else if ch == LETTER_T {
      ok := input.Match(RUE);
    } else if ch == QUOTE {
      var text;
      ok, text := ParseString(input);
    } else if ch == LBRACKET {
      ok := SkipArray(strtod, input);
    } else if ch == LBRACE {
      ok := SkipObject(strtod, input);
    } else if IsDigit(ch) || ch == MINUS {
      input.Ungetc();
      assert input.Rest() == t;
      NumberStart(t);
      var num := ParseNumber(input);
      ok := !strtod(num).Partly?;
    } else {
      input.Ungetc();
      assert input.Rest() == t;
      ok := false;
    }
  }

  method SkipArray(strtod: Text -> Reading, input: Input) returns (ok: bool)
    requires input.Valid()
    modifies input
    ensures input.Valid() && input.Pos() >= old(input.Pos())
    ensures var s := old(input.Rest());
            SkipOutcome(if Expects(s, RBRACKET) then Passed(AfterExpect(s, RBRACKET))
                        else SkipItems(strtod, AfterExpect(s, RBRACKET)), ok, input.Rest())
    decreases |input.data| - input.Pos(), 3
  {
    hide Newlines, SkipValue;
    ghost var s := input.Rest();
    ok := input.Expect(RBRACKET);
    if ok {
      return true;
    }
    ghost var goal := SkipItems(strtod, AfterExpect(s, RBRACKET));
    while true
      invariant input.Valid() && input.Pos() >= old(input.Pos())
      invariant SkipItems(strtod, input.Rest()) == goal
      decreases |input.data| - input.Pos()
    {
      ok := Skip(strtod, input);
      if !ok {
        return false;
      }
      ok := input.Expect(COMMA);
      if !ok {
        break;
      }
    }
    ok := input.Expect(RBRACKET);
  }

  method SkipObject(strtod: Text -> Reading, input: Input) returns (ok: bool)
    requires input.Valid()
    modifies input
    ensures input.Valid() && input.Pos() >= old(input.Pos())
    ensures var s := old(input.Rest());
            SkipOutcome(if Expects(s, RBRACE) then Passed(AfterExpect(s, RBRACE))
                        else SkipMembers(strtod, AfterExpect(s, RBRACE)), ok, input.Rest())
    decreases |input.data| - input.Pos(), 3
  {
    hide Newlines, SkipValue, ParseKey;
    ghost var s := input.Rest();
    ok := input.Expect(RBRACE);
    if ok {
      return true;
    }
    ghost var goal := SkipMembers(strtod, AfterExpect(s, RBRACE));
    while true
      invariant input.Valid() && input.Pos() >= old(input.Pos())
      invariant SkipMembers(strtod, input.Rest()) == goal
      decreases |input.data| - input.Pos()
    {
      var key;
      ok, key := ParseMemberKey(input);
      if !ok {
        return false;
      }
      ok := Skip(strtod, input);
      if !ok {
        return false;
      }
      ok := input.Expect(COMMA);
      if !ok {
        break;
      }
    }
    ok := input.Expect(RBRACE);
  }

  /** The printable bytes up to the end of the line. */
  function Near(s: Text): Text {
    if s == [] || s[0] == NEWLINE then [] else (if s[0] >= SPACE then [s[0]] else []) + Near(s[1..])
  }

  /**
   `parse` on a whole text: the outcome, the position reached, and the line and text named in an
   error. The line counts the newlines before the place where the grammar fails, less the byte before
   it if that is still pending.
   */
  method ParseText(strtod: Text -> Reading, text: Text)
    returns (r: Outcome, pos: nat, errorLine: nat, near: Text)
    ensures r.Accepted? <==> ParseValue(strtod, text).Ok?
    ensures r.Accepted? ==> 0 < pos <= |text| && ParseValue(strtod, text) == Ok(r.value, text[pos..])
    ensures r.Raised? <==> ParseValue(strtod, text).Thrown?
    ensures r.Rejected? ==> var p := ParseValue(strtod, text);
              && p.Bad? && near == Near(p.rest)
              && var cursor := |text| - |p.rest| - if p.pending then 1 else 0;
                 0 <= cursor && errorLine == 1 + Newlines(text[..cursor])
  {
    hide ParseValue;
    var input := new Input(text);
    r := Parse(strtod, input);
    errorLine, near := input.line, [];
    if r.Rejected? {
      near := RestOfLine(input);
    }
    pos := input.Cur();
  }

  method RestOfLine(input: Input) returns (near: Text)
    requires input.Valid()
    modifies input
    ensures input.Valid() && near == Near(old(input.Rest()))
  {
    hide Newlines;
    near := [];
    while true
      invariant input.Valid() && near + Near(input.Rest()) == Near(old(input.Rest()))
      decreases |input.data| - input.Pos()
    {
      ghost var rest := input.Rest();
      var ch := input.Getc();
      if ch == -1 || ch == NEWLINE {
        break;
      }
      assert rest[0] == ch && rest[1..] == input.Rest();
      if ch >= SPACE {
        near := near + [ch];
      }
    }
  }

  /** A run in which `cur` steps over a newline without counting it: position 1 is on line 2. */
  method MiscountedLine() returns (pos: nat, line: nat)
    ensures pos == 1 && line == 1 && 1 + Newlines([NEWLINE][..pos]) == 2
  {
    var input := new Input([NEWLINE]);
    var ch := input.Getc();
    pos := input.Cur();
    line := input.line;
    assert [NEWLINE][..1] == [NEWLINE];
  }
}
