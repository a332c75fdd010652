/**
 The input cursor, which reads one byte at a time and counts a byte as read only when the next one
 is asked for, and the recursive-descent parser on top of it.
 */
module JsonInput {
  import opened Bytes
  import opened JsonGrammar

  /** Number of newlines. */
  function Newlines(t: Text): nat {
    if t == [] then 0
    else Newlines(t[..|t| - 1]) + if t[|t| - 1] == NEWLINE then 1 else 0
  }

  class Input {
    const data: Text
    var cur: nat
    var consumed: bool
    var line: nat

    /** A byte is pending only if there is one at the cursor. */
    ghost predicate InRange()
      reads this
    {
      cur <= |data| && (consumed ==> cur < |data|)
    }

    /** One plus the number of newlines before the cursor. */
    ghost predicate LineRight()
      reads this
    {
      cur <= |data| && line == 1 + Newlines(data[..cur])
    }

    ghost predicate Valid()
      reads this
    {
      InRange() && LineRight()
    }

    /** The logical position, past the pending byte. */
    ghost function Pos(): nat
      reads this
    {
      cur + if consumed then 1 else 0
    }

    /** The text that is left. */
    ghost function Rest(): Text
      requires InRange()
      reads this
    {
      data[Pos()..]
    }

    constructor (text: Text)
      ensures data == text && Valid() && Rest() == text && Pos() == 0
    {
      data := text;
      cur, consumed, line := 0, false, 1;
    }

    method Getc() returns (ch: int)
      requires Valid()
      modifies this
      ensures Valid()
      ensures old(Pos()) == |data| ==> ch == -1 && Pos() == |data| && !consumed
      ensures old(Pos()) < |data| ==> ch == data[old(Pos())] && Pos() == old(Pos()) + 1 && consumed && cur == old(Pos())
    {
      if consumed {
        assert data[..cur + 1][..cur] == data[..cur];
        if data[cur] == NEWLINE {
          line := line + 1;
        }
        cur := cur + 1;
      }
      if cur == |data| {
        consumed := false;
        return -1;
      }
      consumed := true;
      return data[cur];
    }

    method Ungetc()
      requires Valid()
      modifies this
      ensures Valid() && !consumed && cur == old(cur) && Pos() == cur
    {
      consumed := false;
    }

    /** The position; a pending newline is stepped over without being counted. */
    method Cur() returns (pos: nat)
      requires Valid()
      modifies this
      ensures InRange() && pos == Pos() == old(Pos()) && !consumed && line == old(line)
      ensures LineRight() <==> !(old(consumed) && data[old(cur)] == NEWLINE)
    {
      if consumed {
        assert data[..cur + 1][..cur] == data[..cur];
        consumed := false;
        cur := cur + 1;
      }
      return cur;
    }

    method SkipWs()
      requires Valid()
      modifies this
      ensures Valid() && Rest() == SkipSpace(old(Rest())) && !consumed && Pos() >= old(Pos())
    {
      while true
        invariant Valid() && SkipSpace(Rest()) == SkipSpace(old(Rest())) && Pos() >= old(Pos())
        decreases |data| - Pos()
      {
        ghost var before := Rest();
        var ch := Getc();
        if !(ch == SPACE || ch == 0x09 || ch == NEWLINE || ch == 0x0d) {
          Ungetc();
          return;
        }
        assert before[1..] == Rest();
      }
    }

    method Expect(expected: byte) returns (ok: bool)
      requires Valid()
      modifies this
      ensures Valid() && Pos() >= old(Pos())
      ensures ok == Expects(old(Rest()), expected) && Rest() == AfterExpect(old(Rest()), expected)
      ensures !ok ==> !consumed
    {
      SkipWs();
      ghost var skipped := Rest();
      var ch := Getc();
      if ch != expected {
        Ungetc();
        return false;
      }
      assert skipped[1..] == Rest();
      return true;
    }

    method Match(pattern: Text) returns (ok: bool)
      requires Valid()
      modifies this
      ensures Valid() && Pos() >= old(Pos()) && ok == (pattern <= old(Rest()))
      ensures Rest() == if ok then old(Rest())[|pattern|..] else AfterMatch(old(Rest()), pattern)
      ensures !ok ==> !consumed
    {
      hide Newlines;
      ghost var start := Rest();
      for i := 0 to |pattern|
        invariant Valid() && Pos() >= old(Pos()) && i <= |start| && pattern[..i] == start[..i] && Rest() == start[i..]
        invariant AfterMatch(start[i..], pattern[i..]) == AfterMatch(start, pattern)
      {
        ghost var before := Rest();
        var ch := Getc();
        if ch != pattern[i] {
          Ungetc();
          assert Rest() == before;
          assert |start| == i || start[i] != pattern[i];
          return false;
        }
        assert before[0] == pattern[i] == pattern[i..][0];
        assert before[1..] == Rest() && start[i..][1..] == start[i + 1..] && pattern[i..][1..] == pattern[i + 1..];
      }
      return true;
    }
  }

  // Strings.

  /** `_parse_quadhex`; -1 on failure. */
  method ParseQuadHex(input: Input) returns (code: int)
    requires input.Valid()
    modifies input
    ensures input.Valid() && input.Pos() >= old(input.Pos())
    ensures input.Rest() == QuadHex(old(input.Rest()), 4, 0).rest
    ensures if QuadHex(old(input.Rest()), 4, 0).Ok? then code == QuadHex(old(input.Rest()), 4, 0).value else code == -1
    ensures input.consumed <==> code != -1
  {
    hide Newlines, QuadHex, HexDigit;
    code := 0;
    for i := 0 to 4
      invariant input.Valid() && input.Pos() >= old(input.Pos()) && code >= 0
      invariant QuadHex(input.Rest(), 4 - i, code) == QuadHex(old(input.Rest()), 4, 0)
      invariant i > 0 ==> input.consumed
    {
      ghost var before := input.Rest();
      QuadHexUnfold(before, 4 - i, code);
      var hex := input.Getc();
      if hex == -1 {
        return -1;
      }
      assert before[0] == hex && before[1..] == input.Rest();
      var digit := HexDigit(hex);
      if digit == -1 {
        input.Ungetc();
        assert input.Rest() == before;
        return -1;
      }
      code := code * 16 + digit;
    }
    QuadHexUnfold(input.Rest(), 0, code);
  }

  lemma QuadHexUnfold(s: Text, n: nat, code: nat)
    ensures QuadHex(s, n, code) ==
            if n == 0 then Ok(code, s)
            else if s == [] || HexDigit(s[0]) == -1 then Bad(s, false)
            else QuadHex(s[1..], n - 1, code * 16 + HexDigit(s[0]))
  {
    hide HexDigit;
  }

  /** `_parse_codepoint` */
  method ParseCodepoint(input: Input) returns (ok: bool, bytes: Text)
    requires input.Valid()
    modifies input
    ensures input.Valid() && input.Pos() >= old(input.Pos())
    ensures input.Rest() == Codepoint(old(input.Rest())).rest
    ensures ok == Codepoint(old(input.Rest())).Ok? && (ok ==> bytes == Codepoint(old(input.Rest())).value)
    ensures !ok ==> input.consumed == Codepoint(old(input.Rest())).pending
  {
    hide Newlines, QuadHex;
    ghost var start := input.Rest();
    var u := ParseQuadHex(input);
    if u == -1 {
      return false, [];
    }
    QuadHexBound(start, 4, 0, 65536);
    if 0xd800 <= u <= 0xdfff {
      if 0xdc00 <= u {
        return false, [];
      }
      ghost var t := input.Rest();
      var ch := input.Getc();
      if ch != BACKSLASH {
        input.Ungetc();
        assert input.Rest() == t;
        return false, [];
      }
      assert t[0] == BACKSLASH && t[1..] == input.Rest();
      ch := input.Getc();
      if ch != LETTER_U {
        input.Ungetc();
        assert input.Rest() == t[1..];
        return false, [];
      }
      assert t[1] == LETTER_U && t[2..] == input.Rest();
      var second := ParseQuadHex(input);
      if !(0xdc00 <= second <= 0xdfff) {
        return false, [];
      }
      u := (u - 0xd800) * 1024 + (second - 0xdc00) + 0x10000;
    }
    return true, Utf8(u);
  }

  /** `_parse_string` */
  method ParseString(input: Input) returns (ok: bool, out: Text)
    requires input.Valid()
    modifies input
    ensures input.Valid() && input.Pos() >= old(input.Pos())
    ensures input.Rest() == StringBody(old(input.Rest())).rest
    ensures ok == StringBody(old(input.Rest())).Ok? && (ok ==> out == StringBody(old(input.Rest())).value)
    ensures !ok ==> input.consumed == StringBody(old(input.Rest())).pending
  {
    hide Newlines, Codepoint;
    ghost var goal := StringBody(input.Rest());
    out := [];
    PrependNothing(goal);
    while true
      invariant input.Valid() && input.Pos() >= old(input.Pos())
      invariant Prepend(out, StringBody(input.Rest())) == goal
      decreases |input.data| - input.Pos()
    {
      ghost var s, here := input.Rest(), input.Pos();
      var ch := input.Getc();
      if ch < SPACE {
        input.Ungetc();
        assert input.Rest() == s;
        return false, out;
      }
      assert s[0] == ch && s[1..] == input.Rest();
      if ch == QUOTE {
        return true, out;
      } else if ch == BACKSLASH {
        ch := input.Getc();
        if ch == -1 {
          return false, out;
        }
        assert s[1] == ch && s[2..] == input.Rest();
        if ch == LETTER_U {
          var good, bytes := ParseCodepoint(input);
          if !good {
            return false, out;
          }
          PrependTwice(out, bytes, StringBody(input.Rest()));
          out := out + bytes;
        } else if Unescaped(ch) == [] {
          return false, out;
        } else {
          PrependTwice(out, Unescaped(ch), StringBody(input.Rest()));
          out := out + Unescaped(ch);
        }
      } else {
        PrependTwice(out, [ch], StringBody(input.Rest()));
        out := out + [ch];
      }
    }
  }

  lemma PrependNothing(r: Parsed<Text>)
    ensures Prepend([], r) == r
  {
    if r.Ok? {
      assert [] + r.value == r.value;
    }
  }

  lemma PrependTwice(a: Text, b: Text, r: Parsed<Text>)
    ensures Prepend(a, Prepend(b, r)) == Prepend(a + b, r)
  {
    if r.Ok? {
      assert a + (b + r.value) == (a + b) + r.value;
    }
  }

  /** `_parse_number` */
  method ParseNumber(input: Input) returns (num: Text)
    requires input.Valid()
    modifies input
    ensures input.Valid() && input.Pos() >= old(input.Pos())
    ensures var n := NumberLength(old(input.Rest())); num == old(input.Rest())[..n] && input.Rest() == old(input.Rest())[n..]
    ensures !input.consumed
  {
    num := [];
    ghost var start := input.Rest();
    while true
      invariant input.Valid() && input.Pos() >= old(input.Pos())
      invariant |num| <= |start| && num == start[..|num|] && input.Rest() == start[|num|..]
      invariant NumberLength(start) == |num| + NumberLength(input.Rest())
      decreases |input.data| - input.Pos()
    {
      ghost var s := input.Rest();
      var ch := input.Getc();
      if ch == -1 || !IsNumberChar(ch) {
        input.Ungetc();
        assert input.Rest() == s;
        return;
      }
      assert s[0] == ch && s[1..] == input.Rest();
      num := num + [ch];
    }
  }
}
