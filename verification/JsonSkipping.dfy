/**
 The parser that discards values against the parser that builds them: they differ only where a
 number literal is too large, and building throws.
 */
module JsonSkipping {
  import opened Bytes
  import opened JsonGrammar
  import opened JsonParser

  /** The run of number characters at the front of s. */
  function Run(s: Text): Text {
    s[..NumberLength(s)]
  }

  predicate StartsNumber(s: Text) {
    s != [] && (IsDigit(s[0]) || s[0] == MINUS)
  }

  // The number literals that the discarding parser reads, in order.

  function ValueLiterals(strtod: Text -> Reading, s: Text): seq<Text>
    decreases |s|, 2
  {
    var t := SkipSpace(s);
    if t == [] then []
    else if t[0] == LBRACKET then
      if Expects(t[1..], RBRACKET) then [] else ItemLiterals(strtod, AfterExpect(t[1..], RBRACKET))
    else if t[0] == LBRACE then
      if Expects(t[1..], RBRACE) then [] else MemberLiterals(strtod, AfterExpect(t[1..], RBRACE))
    else if StartsNumber(t) then [Run(t)]
    else []
  }

  function ItemLiterals(strtod: Text -> Reading, s: Text): seq<Text>
    decreases |s|, 3
  {
    ValueLiterals(strtod, s) +
    match SkipValue(strtod, s)
    case Refused(_) => []
    case Passed(t) => if Expects(t, COMMA) then ItemLiterals(strtod, AfterExpect(t, COMMA)) else []
  }

  function MemberLiterals(strtod: Text -> Reading, s: Text): seq<Text>
    decreases |s|, 3
  {
    var k := ParseKey(s);
    if k.Bad? then []
    else
      ValueLiterals(strtod, k.rest) +
      match SkipValue(strtod, k.rest)
      case Refused(_) => []
      case Passed(t) => if Expects(t, COMMA) then MemberLiterals(strtod, AfterExpect(t, COMMA)) else []
  }

  predicate AnyInfinite(strtod: Text -> Reading, runs: seq<Text>) {
    exists i | 0 <= i < |runs| :: strtod(runs[i]).Infinite?
  }

  lemma AnyOfBoth(strtod: Text -> Reading, a: seq<Text>, b: seq<Text>)
    ensures AnyInfinite(strtod, a + b) <==> AnyInfinite(strtod, a) || AnyInfinite(strtod, b)
  {
    if AnyInfinite(strtod, a) {
      var i :| 0 <= i < |a| && strtod(a[i]).Infinite?;
      assert (a + b)[i] == a[i];
    }
    if AnyInfinite(strtod, b) {
      var i :| 0 <= i < |b| && strtod(b[i]).Infinite?;
      assert (a + b)[|a| + i] == b[i];
    }
  }

  /** What is left of a parse when the value is forgotten. */
  function Forgotten(p: Parsed<Value>): Skipped
    requires !p.Thrown?
  {
    if p.Ok? then Passed(p.rest) else Refused(p.rest)
  }

  /** Building throws exactly if a literal is infinite, and otherwise both go the same way. */
  predicate Compares(infinite: bool, built: Parsed<Value>, skipped: Skipped) {
    if infinite then built.Thrown? else !built.Thrown? && skipped == Forgotten(built)
  }

  lemma {:induction false} ValuesCompare(strtod: Text -> Reading, s: Text)
    ensures Compares(AnyInfinite(strtod, ValueLiterals(strtod, s)), ParseValue(strtod, s), SkipValue(strtod, s))
    decreases |s|, 2
  {
    hide StringBody, AfterMatch, NumberLength, ParseItems, ParseMembers, SkipItems, SkipMembers;
    hide ItemLiterals, MemberLiterals;
    var t := SkipSpace(s);
    if t != [] && t[0] == LBRACKET && !Expects(t[1..], RBRACKET) {
      ItemsCompare(strtod, AfterExpect(t[1..], RBRACKET), []);
    } else if t != [] && t[0] == LBRACE && !Expects(t[1..], RBRACE) {
      MembersCompare(strtod, AfterExpect(t[1..], RBRACE), map[]);
    } else if StartsNumber(t) {
      assert [Run(t)][0] == Run(t);
    }
  }

  lemma {:induction false} ItemsCompare(strtod: Text -> Reading, s: Text, items: seq<Value>)
    ensures Compares(AnyInfinite(strtod, ItemLiterals(strtod, s)), ParseItems(strtod, s, items), SkipItems(strtod, s))
    decreases |s|, 3
  {
    hide ParseValue, SkipValue, ValueLiterals, AnyInfinite, Expects, AfterExpect;
    NoneInfinite(strtod);
    ValuesCompare(strtod, s);
    var p, first := ParseValue(strtod, s), ValueLiterals(strtod, s);
    match SkipValue(strtod, s) {
      case Refused(_) => AnyOfBoth(strtod, first, []);
      case Passed(t) =>
        if Expects(t, COMMA) {
          AnyOfBoth(strtod, first, ItemLiterals(strtod, AfterExpect(t, COMMA)));
          if p.Ok? {
            ItemsCompare(strtod, AfterExpect(t, COMMA), items + [p.value]);
          }
        } else {
          AnyOfBoth(strtod, first, []);
        }
    }
  }

  lemma NoneInfinite(strtod: Text -> Reading)
    ensures !AnyInfinite(strtod, [])
  {
  }

  lemma {:induction false} MembersCompare(strtod: Text -> Reading, s: Text, members: map<Text, Value>)
    ensures Compares(AnyInfinite(strtod, MemberLiterals(strtod, s)), ParseMembers(strtod, s, members),
                     SkipMembers(strtod, s))
    decreases |s|, 3
  {
    hide ParseValue, SkipValue, ValueLiterals, AnyInfinite, Expects, AfterExpect, ParseKey;
    NoneInfinite(strtod);
    var k := ParseKey(s);
    if k.Ok? {
      ValuesCompare(strtod, k.rest);
      var p, first := ParseValue(strtod, k.rest), ValueLiterals(strtod, k.rest);
      match SkipValue(strtod, k.rest) {
        case Refused(_) => AnyOfBoth(strtod, first, []);
        case Passed(t) =>
          if Expects(t, COMMA) {
            AnyOfBoth(strtod, first, MemberLiterals(strtod, AfterExpect(t, COMMA)));
            if p.Ok? {
              MembersCompare(strtod, AfterExpect(t, COMMA), members[k.value := p.value]);
            }
          } else {
            AnyOfBoth(strtod, first, []);
          }
      }
    }
  }

  /** Building throws if and only if a literal that the discarding parser reads is infinite. */
  lemma ThrowsExactly(strtod: Text -> Reading, s: Text)
    ensures ParseValue(strtod, s).Thrown? <==> AnyInfinite(strtod, ValueLiterals(strtod, s))
  {
    ValuesCompare(strtod, s);
  }

  // A condition on the text alone.

  /** Every number in the text, wherever it stands, is finite. */
  predicate FiniteText(strtod: Text -> Reading, s: Text) {
    forall i | 0 <= i <= |s| && StartsNumber(s[i..]) :: !strtod(Run(s[i..])).Infinite?
  }

  predicate Suffix(t: Text, s: Text) {
    |t| <= |s| && s[|s| - |t|..] == t
  }

  lemma SuffixTrans(a: Text, b: Text, c: Text)
    requires Suffix(a, b) && Suffix(b, c)
    ensures Suffix(a, c)
  {
    assert c[|c| - |a|..] == c[|c| - |b|..][|b| - |a|..];
  }

  lemma SuffixTail(s: Text, n: nat)
    requires n <= |s|
    ensures Suffix(s[n..], s)
  {
  }

  lemma FiniteSuffix(strtod: Text -> Reading, t: Text, s: Text)
    requires Suffix(t, s) && FiniteText(strtod, s)
    ensures FiniteText(strtod, t)
  {
    forall i | 0 <= i <= |t| && StartsNumber(t[i..]) ensures !strtod(Run(t[i..])).Infinite? {
      var k := |s| - |t| + i;
      assert s[k..] == s[|s| - |t|..][i..] == t[i..];
      assert StartsNumber(s[k..]);
    }
  }

  lemma {:induction false} SkipSpaceSuffix(s: Text)
    ensures Suffix(SkipSpace(s), s)
  {
    if s != [] && IsSpace(s[0]) {
      SkipSpaceSuffix(s[1..]);
      SuffixTrans(SkipSpace(s), s[1..], s);
    }
  }

  lemma ExpectSuffix(s: Text, c: byte)
    ensures Suffix(AfterExpect(s, c), s)
  {
    SkipSpaceSuffix(s);
    if Expects(s, c) {
      SuffixTrans(SkipSpace(s)[1..], SkipSpace(s), s);
    }
  }

  lemma {:induction false} QuadHexSuffix(s: Text, n: nat, code: nat)
    ensures Suffix(QuadHex(s, n, code).rest, s)
    decreases n
  {
    if n > 0 && s != [] && HexDigit(s[0]) != -1 {
      QuadHexSuffix(s[1..], n - 1, code * 16 + HexDigit(s[0]));
      SuffixTrans(QuadHex(s, n, code).rest, s[1..], s);
    }
  }

  lemma CodepointSuffix(s: Text)
    ensures Suffix(Codepoint(s).rest, s)
  {
    hide QuadHex;
    QuadHexSuffix(s, 4, 0);
    var t := QuadHex(s, 4, 0).rest;
    if t != [] {
      SuffixTrans(t[1..], t, s);
    }
    if |t| > 1 {
      SuffixTrans(t[2..], t, s);
      QuadHexSuffix(t[2..], 4, 0);
      SuffixTrans(QuadHex(t[2..], 4, 0).rest, t[2..], s);
    }
  }

  lemma {:induction false} StringSuffix(s: Text)
    ensures Suffix(StringBody(s).rest, s)
    decreases |s|
  {
    hide Codepoint, Unescaped;
    if s == [] || s[0] < SPACE || s[0] == QUOTE {
    } else if s[0] != BACKSLASH {
      StringSuffix(s[1..]);
      SuffixTrans(StringBody(s[1..]).rest, s[1..], s);
    } else if |s| > 1 {
      SuffixTail(s, 2);
      if s[1] == LETTER_U {
        CodepointSuffix(s[2..]);
        var c := Codepoint(s[2..]);
        SuffixTrans(c.rest, s[2..], s);
        if c.Ok? {
          StringSuffix(c.rest);
          SuffixTrans(StringBody(c.rest).rest, c.rest, s);
        }
      } else {
        StringSuffix(s[2..]);
        SuffixTrans(StringBody(s[2..]).rest, s[2..], s);
      }
    }
  }

  lemma KeySuffix(s: Text)
    ensures Suffix(ParseKey(s).rest, s)
  {
    hide StringBody, AfterExpect;
    ExpectSuffix(s, QUOTE);
    var t := AfterExpect(s, QUOTE);
    StringSuffix(t);
    var u := StringBody(t).rest;
    SuffixTrans(u, t, s);
    ExpectSuffix(u, COLON);
    SuffixTrans(AfterExpect(u, COLON), u, s);
  }

  lemma LiteralSuffix(u: Text, pattern: Text)
    requires SkipLiteral(u, pattern).Passed?
    ensures Suffix(SkipLiteral(u, pattern).rest, u)
  {
  }

  /** Values other than arrays and objects, after the space before them. */
  lemma ScalarSuffix(strtod: Text -> Reading, s: Text, t: Text)
    requires t == SkipSpace(s) && t != [] && t[0] != LBRACKET && t[0] != LBRACE && SkipValue(strtod, s).Passed?
    ensures Suffix(SkipValue(strtod, s).rest, t)
  {
    hide StringBody, AfterMatch, NumberLength, SkipItems, SkipMembers, SkipLiteral, Suffix;
    var u, r := t[1..], SkipValue(strtod, s).rest;
    SuffixTail(t, 1);
    if StartsNumber(t) {
      SuffixTail(t, NumberLength(t));
    } else {
      if t[0] == QUOTE {
        StringSuffix(u);
      } else {
        LiteralSuffix(u, if t[0] == LETTER_N then ULL else if t[0] == LETTER_F then ALSE else RUE);
      }
      SuffixTrans(r, u, t);
    }
  }

  lemma {:induction false} ArraySuffix(strtod: Text -> Reading, s: Text, t: Text)
    requires t == SkipSpace(s) && t != [] && t[0] == LBRACKET && SkipValue(strtod, s).Passed?
    ensures Suffix(SkipValue(strtod, s).rest, t)
    decreases |s|, 2
  {
    hide StringBody, SkipItems, SkipMembers, Suffix, AfterExpect, Expects;
    var u, r := t[1..], SkipValue(strtod, s).rest;
    var v := AfterExpect(u, RBRACKET);
    SuffixTail(t, 1);
    ExpectSuffix(u, RBRACKET);
    SuffixTrans(v, u, t);
    if !Expects(u, RBRACKET) {
      ItemsSuffix(strtod, v);
      SuffixTrans(r, v, t);
    }
  }

  lemma {:induction false} ObjectSuffix(strtod: Text -> Reading, s: Text, t: Text)
    requires t == SkipSpace(s) && t != [] && t[0] == LBRACE && SkipValue(strtod, s).Passed?
    ensures Suffix(SkipValue(strtod, s).rest, t)
    decreases |s|, 2
  {
    hide StringBody, SkipItems, SkipMembers, Suffix, AfterExpect, Expects;
    var u, r := t[1..], SkipValue(strtod, s).rest;
    var v := AfterExpect(u, RBRACE);
    SuffixTail(t, 1);
    ExpectSuffix(u, RBRACE);
    SuffixTrans(v, u, t);
    if !Expects(u, RBRACE) {
      MembersSuffix(strtod, v);
      SuffixTrans(r, v, t);
    }
  }

  lemma {:induction false} SkippedSuffix(strtod: Text -> Reading, s: Text)
    requires SkipValue(strtod, s).Passed?
    ensures Suffix(SkipValue(strtod, s).rest, s)
    decreases |s|, 3
  {
    var t := SkipSpace(s);
    assert t != [];
    hide SkipValue, SkipSpace, Suffix;
    SkipSpaceSuffix(s);
    if t[0] == LBRACKET {
      ArraySuffix(strtod, s, t);
    } else if t[0] == LBRACE {
      ObjectSuffix(strtod, s, t);
    } else {
      ScalarSuffix(strtod, s, t);
    }
    SuffixTrans(SkipValue(strtod, s).rest, t, s);
  }

  lemma CloseSuffix(s: Text, close: byte)
    ensures Suffix(SkipClose(s, close).rest, s)
  {
    hide AfterExpect;
    var u := AfterExpect(s, COMMA);
    ExpectSuffix(s, COMMA);
    ExpectSuffix(u, close);
    SuffixTrans(AfterExpect(u, close), u, s);
  }

  lemma {:induction false} ItemsSuffix(strtod: Text -> Reading, s: Text)
    requires SkipItems(strtod, s).Passed?
    ensures Suffix(SkipItems(strtod, s).rest, s)
    decreases |s|, 4
  {
    hide SkipValue, Expects, AfterExpect, SkipClose, Suffix;
    SkippedSuffix(strtod, s);
    var t, r := SkipValue(strtod, s).rest, SkipItems(strtod, s).rest;
    if Expects(t, COMMA) {
      var u := AfterExpect(t, COMMA);
      ExpectSuffix(t, COMMA);
      SuffixTrans(u, t, s);
      ItemsSuffix(strtod, u);
      SuffixTrans(r, u, s);
    } else {
      CloseSuffix(t, RBRACKET);
      SuffixTrans(r, t, s);
    }
  }

  lemma {:induction false} MembersSuffix(strtod: Text -> Reading, s: Text)
    requires SkipMembers(strtod, s).Passed?
    ensures Suffix(SkipMembers(strtod, s).rest, s)
    decreases |s|, 4
  {
    hide SkipValue, Expects, AfterExpect, SkipClose, Suffix, ParseKey;
    KeySuffix(s);
    var k := ParseKey(s).rest;
    SkippedSuffix(strtod, k);
    var t, r := SkipValue(strtod, k).rest, SkipMembers(strtod, s).rest;
    SuffixTrans(t, k, s);
    if Expects(t, COMMA) {
      var u := AfterExpect(t, COMMA);
      ExpectSuffix(t, COMMA);
      SuffixTrans(u, t, s);
      MembersSuffix(strtod, u);
      SuffixTrans(r, u, s);
    } else {
      CloseSuffix(t, RBRACE);
      SuffixTrans(r, t, s);
    }
  }

  lemma {:induction false} FiniteValues(strtod: Text -> Reading, s: Text)
    requires FiniteText(strtod, s)
    ensures !AnyInfinite(strtod, ValueLiterals(strtod, s))
    decreases |s|, 2
  {
    hide ItemLiterals, MemberLiterals, AfterExpect, Run;
    var t := SkipSpace(s);
    SkipSpaceSuffix(s);
    FiniteSuffix(strtod, t, s);
    if t != [] {
      var u := t[1..];
      FiniteSuffix(strtod, u, t);
      if t[0] == LBRACKET && !Expects(u, RBRACKET) {
        ExpectSuffix(u, RBRACKET);
        FiniteSuffix(strtod, AfterExpect(u, RBRACKET), u);
        FiniteItems(strtod, AfterExpect(u, RBRACKET));
      } else if t[0] == LBRACE && !Expects(u, RBRACE) {
        ExpectSuffix(u, RBRACE);
        FiniteSuffix(strtod, AfterExpect(u, RBRACE), u);
        FiniteMembers(strtod, AfterExpect(u, RBRACE));
      } else if StartsNumber(t) {
        assert t[0..] == t;
      }
    }
  }

  lemma {:induction false} FiniteItems(strtod: Text -> Reading, s: Text)
    requires FiniteText(strtod, s)
    ensures !AnyInfinite(strtod, ItemLiterals(strtod, s))
    decreases |s|, 3
  {
    hide SkipValue, ValueLiterals, AnyInfinite, Expects, AfterExpect, FiniteText, Suffix;
    NoneInfinite(strtod);
    FiniteValues(strtod, s);
    var first := ValueLiterals(strtod, s);
    AnyOfBoth(strtod, first, []);
    match SkipValue(strtod, s) {
      case Refused(_) =>
      case Passed(t) =>
        if Expects(t, COMMA) {
          var u := AfterExpect(t, COMMA);
          SkippedSuffix(strtod, s);
          ExpectSuffix(t, COMMA);
          SuffixTrans(u, t, s);
          FiniteSuffix(strtod, u, s);
          FiniteItems(strtod, u);
          AnyOfBoth(strtod, first, ItemLiterals(strtod, u));
        }
    }
  }

  lemma {:induction false} FiniteMembers(strtod: Text -> Reading, s: Text)
    requires FiniteText(strtod, s)
    ensures !AnyInfinite(strtod, MemberLiterals(strtod, s))
    decreases |s|, 3
  {
    hide SkipValue, ValueLiterals, AnyInfinite, Expects, AfterExpect, FiniteText, Suffix, ParseKey;
    NoneInfinite(strtod);
    var k := ParseKey(s);
    if k.Ok? {
      KeySuffix(s);
      FiniteSuffix(strtod, k.rest, s);
      FiniteValues(strtod, k.rest);
      var first := ValueLiterals(strtod, k.rest);
      AnyOfBoth(strtod, first, []);
      match SkipValue(strtod, k.rest) {
        case Refused(_) =>
        case Passed(t) =>
          if Expects(t, COMMA) {
            var u := AfterExpect(t, COMMA);
            SkippedSuffix(strtod, k.rest);
            ExpectSuffix(t, COMMA);
            SuffixTrans(u, t, k.rest);
            FiniteSuffix(strtod, u, k.rest);
            FiniteMembers(strtod, u);
            AnyOfBoth(strtod, first, MemberLiterals(strtod, u));
          }
      }
    }
  }

  /** On a text whose numbers are finite both parsers accept alike and stop at the same place. */
  lemma SkipAgrees(strtod: Text -> Reading, s: Text)
    requires FiniteText(strtod, s)
    ensures !ParseValue(strtod, s).Thrown? && SkipValue(strtod, s) == Forgotten(ParseValue(strtod, s))
  {
    hide ParseValue, SkipValue, ValueLiterals, AnyInfinite, FiniteText;
    FiniteValues(strtod, s);
    ValuesCompare(strtod, s);
  }

  lemma NoSpace(s: Text)
    requires s != [] && !IsSpace(s[0])
    ensures SkipSpace(s) == s
  {
  }

  /** Where building throws, skipping goes on: the literal that overflows is accepted. */
  lemma SkippingIgnoresOverflow(strtod: Text -> Reading, s: Text)
    requires NumberLength(s) == |s| > 0 && (IsDigit(s[0]) || s[0] == MINUS) && strtod(s).Infinite?
    ensures ParseValue(strtod, s).Thrown? && SkipValue(strtod, s) == Passed([])
  {
    hide NumberLength, SkipSpace, StringBody, ParseArray, ParseObject, SkipItems, SkipMembers, AfterExpect, Expects;
    NoSpace(s);
    assert s[..|s|] == s && s[|s|..] == [];
  }
}
