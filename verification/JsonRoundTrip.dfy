/**
 Parsing a serialised document gives its value back and stops where its text ends, for compact and
 pretty printing and any order of object members.
 */
module JsonRoundTrip {
  import opened Bytes
  import opened JsonGrammar
  import opened JsonPrinter

  /** strtod reads the integers that `%.f` prints. */
  ghost predicate ReadsIntegers(strtod: Text -> Reading) {
    forall n: int {:trigger Decimal(n)} | -LIMIT < n < LIMIT :: strtod(Decimal(n)) == Finite(n as real)
  }

  /** A reader of decimal integers. */
  function DigitsValue(t: Text): int {
    if t == [] then 0 else 10 * DigitsValue(t[..|t| - 1]) - 0x30 + t[|t| - 1]
  }

  function DecimalReader(t: Text): Reading {
    if t != [] && t[0] == MINUS then Finite((-DigitsValue(t[1..])) as real) else Finite(DigitsValue(t) as real)
  }

  lemma {:induction false} DigitsRead(n: nat)
    ensures DigitsValue(Digits(n)) == n
  {
    if n < 10 {
      assert Digits(n)[..0] == [];
    } else {
      DigitsRead(n / 10);
      assert Digits(n)[..|Digits(n)| - 1] == Digits(n / 10);
    }
  }

  /** Such readers exist. */
  lemma ReaderExists()
    ensures ReadsIntegers(DecimalReader)
  {
    forall n: int ensures DecimalReader(Decimal(n)) == Finite(n as real) {
      if n < 0 {
        DigitsRead(-n);
        assert Decimal(n)[1..] == Digits(-n);
      } else {
        DigitsRead(n);
        assert IsDigit(Digits(n)[0]);
      }
    }
  }

  /** No number character follows. */
  predicate NumberEnds(rest: Text) {
    rest == [] || !IsNumberChar(rest[0])
  }

  // White space.

  lemma SkipStops(s: Text)
    requires s == [] || !IsSpace(s[0])
    ensures SkipSpace(s) == s
  {
  }

  lemma {:induction false} SkipOver(t: Text, s: Text)
    requires forall i | 0 <= i < |t| :: IsSpace(t[i])
    ensures SkipSpace(t + s) == SkipSpace(s)
  {
    if t == [] {
      assert t + s == s;
    } else {
      assert (t + s)[1..] == t[1..] + s;
      SkipOver(t[1..], s);
    }
  }

  lemma SkipIndentation(indent: int, s: Text)
    ensures SkipSpace(Indentation(indent) + s) == SkipSpace(s)
  {
    SkipOver(Indentation(indent), s);
  }

  lemma ParseSkipsSpace(strtod: Text -> Reading, s: Text, t: Text)
    requires SkipSpace(s) == SkipSpace(t)
    ensures ParseValue(strtod, s) == ParseValue(strtod, t)
  {
  }

  // Strings.

  lemma HexOfNibble(d: int)
    requires 0 <= d < 16
    ensures HexDigit(LowerHex(d)) == d
  {
  }

  lemma QuadHexStep(s: Text, n: nat, code: nat)
    requires n > 0 && s != [] && HexDigit(s[0]) >= 0
    ensures QuadHex(s, n, code) == QuadHex(s[1..], n - 1, code * 16 + HexDigit(s[0]))
  {
  }

  lemma QuadHexOfControl(c: byte, t: Text)
    requires c < 0x80
    ensures QuadHex([0x30, 0x30, LowerHex(c / 16), LowerHex(c % 16)] + t, 4, 0) == Ok(c, t)
  {
    var h, l := LowerHex(c / 16), LowerHex(c % 16);
    HexOfNibble(c / 16);
    HexOfNibble(c % 16);
    var s := [0x30, 0x30, h, l] + t;
    assert s[1..] == [0x30, h, l] + t && ([0x30, h, l] + t)[1..] == [h, l] + t;
    assert ([h, l] + t)[1..] == [l] + t && ([l] + t)[1..] == t;
    QuadHexStep(s, 4, 0);
    QuadHexStep([0x30, h, l] + t, 3, 0);
    QuadHexStep([h, l] + t, 2, 0);
    QuadHexStep([l] + t, 1, c / 16);
  }

  lemma PlainStep(c: byte, t: Text)
    requires c >= SPACE && c != QUOTE && c != BACKSLASH
    ensures StringBody([c] + t) == Prepend([c], StringBody(t))
  {
    assert ([c] + t)[1..] == t;
  }

  lemma EscapeStep(b: byte, c: byte, t: Text)
    requires Unescaped(b) == [c] && b != LETTER_U
    ensures StringBody([BACKSLASH, b] + t) == Prepend([c], StringBody(t))
  {
    hide Codepoint, Unescaped;
    assert ([BACKSLASH, b] + t)[2..] == t;
  }

  lemma ControlStep(c: byte, t: Text)
    requires c < 0x80
    ensures StringBody([BACKSLASH, LETTER_U, 0x30, 0x30, LowerHex(c / 16), LowerHex(c % 16)] + t)
         == Prepend([c], StringBody(t))
  {
    var digits := [0x30, 0x30, LowerHex(c / 16), LowerHex(c % 16)];
    QuadHexOfControl(c, t);
    assert Codepoint(digits + t) == Ok([c], t);
    hide Codepoint, QuadHex, Unescaped, LowerHex;
    assert ([BACKSLASH, LETTER_U] + digits + t)[2..] == digits + t;
    assert [BACKSLASH, LETTER_U, 0x30, 0x30, LowerHex(c / 16), LowerHex(c % 16)] == [BACKSLASH, LETTER_U] + digits;
  }

  lemma CharRoundTrip(c: byte, t: Text)
    ensures StringBody(EscapedChar(c) + t) == Prepend([c], StringBody(t))
  {
    hide StringBody;
    var e := EscapedChar(c);
    if |e| == 6 {
      ControlStep(c, t);
    } else if |e| == 2 {
      EscapeStep(e[1], c, t);
    } else {
      PlainStep(c, t);
    }
  }

  lemma {:induction false} StringRoundTrip(str: Text, rest: Text)
    ensures StringBody(EscapedChars(str) + ([QUOTE] + rest)) == Ok(str, rest)
  {
    if str == [] {
      assert EscapedChars(str) + ([QUOTE] + rest) == [QUOTE] + rest;
      assert ([QUOTE] + rest)[1..] == rest;
    } else {
      var t := EscapedChars(str[1..]) + ([QUOTE] + rest);
      assert EscapedChars(str) + ([QUOTE] + rest) == EscapedChar(str[0]) + t;
      CharRoundTrip(str[0], t);
      StringRoundTrip(str[1..], rest);
      assert [str[0]] + str[1..] == str;
    }
  }

  lemma QuotedSplits(str: Text, rest: Text)
    ensures Quoted(str) + rest != [] && (Quoted(str) + rest)[0] == QUOTE
    ensures (Quoted(str) + rest)[1..] == EscapedChars(str) + ([QUOTE] + rest)
  {
  }

  // Numbers.

  lemma {:induction false} NumberLengthOf(t: Text, rest: Text)
    requires forall i | 0 <= i < |t| :: IsNumberChar(t[i])
    requires NumberEnds(rest)
    ensures NumberLength(t + rest) == |t|
  {
    if t == [] {
      assert t + rest == rest;
    } else {
      assert (t + rest)[1..] == t[1..] + rest;
      NumberLengthOf(t[1..], rest);
    }
  }

  lemma NumberRoundTrip(strtod: Text -> Reading, n: int, rest: Text)
    requires ReadsIntegers(strtod) && -LIMIT < n < LIMIT && NumberEnds(rest)
    ensures ParseValue(strtod, Decimal(n) + rest) == Ok(Number(n as real), rest)
  {
    var t := Decimal(n);
    var s := t + rest;
    assert s[0] == t[0];
    SkipStops(s);
    NumberLengthOf(t, rest);
    assert s[..|t|] == t && s[|t|..] == rest;
  }

  // Values.

  lemma LiteralRoundTrip(strtod: Text -> Reading, d: Doc, indent: int, rest: Text)
    requires (d.DNull? || d.DBool?) && indent >= COMPACT
    ensures ParseValue(strtod, Body(d, indent) + rest) == Ok(ValueOf(d), rest)
  {
    var s := Body(d, indent) + rest;
    SkipStops(s);
    var word := if d.DNull? then ULL else if d.b then RUE else ALSE;
    assert s[1..] == word + rest;
    assert word <= s[1..] && s[1..][|word|..] == rest;
  }

  lemma FirstByte(d: Doc, indent: int, rest: Text)
    requires indent >= COMPACT
    ensures Body(d, indent) != []
    ensures var b := (Body(d, indent) + rest)[0]; !IsSpace(b) && b != RBRACKET && b != RBRACE
  {
  }

  /** What follows the last item or member. */
  lemma ClosingIsNext(empty: bool, indent: int, close: byte, rest: Text)
    requires close == RBRACKET || close == RBRACE
    ensures var t := Closing(empty, indent) + [close] + rest;
            && SkipSpace(t) == [close] + rest
            && NumberEnds(t) && !Expects(t, COMMA)
            && Expects(AfterExpect(t, COMMA), close) && AfterExpect(AfterExpect(t, COMMA), close) == rest
  {
    var t := Closing(empty, indent) + [close] + rest;
    assert t == Closing(empty, indent) + ([close] + rest);
    SkipStops([close] + rest);
    if empty {
      assert t == [close] + rest;
    } else {
      SkipIndentation(indent, [close] + rest);
    }
    assert ([close] + rest)[1..] == rest;
  }

  lemma CommaIsNext(t: Text)
    ensures var s := [COMMA] + t; NumberEnds(s) && Expects(s, COMMA) && AfterExpect(s, COMMA) == t
  {
    SkipStops([COMMA] + t);
    assert ([COMMA] + t)[1..] == t;
  }

  lemma ItemsSplit(items: seq<Doc>, indent: int, tail: Text)
    requires items != [] && (indent == COMPACT || indent > 0)
    ensures ItemsText(items, true, indent) + tail
            == Indentation(indent) + (Body(items[0], indent) + (ItemsText(items[1..], false, indent) + tail))
    ensures ItemsText(items, false, indent) + tail == [COMMA] + (ItemsText(items, true, indent) + tail)
  {
    assert Lead(true, indent) == Indentation(indent);
    var b, more := Body(items[0], indent), ItemsText(items[1..], false, indent);
    Assoc(Indentation(indent) + b, more, tail);
    Assoc(Indentation(indent), b, more + tail);
    Assoc([COMMA], Indentation(indent), b);
    Assoc([COMMA], Indentation(indent) + b, more);
    Assoc([COMMA], ItemsText(items, true, indent), tail);
  }

  lemma {:induction false} ItemsRoundTrip(strtod: Text -> Reading, items: seq<Doc>, indent: int, read: seq<Value>,
                                         outer: int, rest: Text)
    requires ReadsIntegers(strtod) && items != [] && (indent == COMPACT || indent > 0)
    requires forall i | 0 <= i < |items| :: Printable(items[i])
    ensures ParseItems(strtod, ItemsText(items, true, indent) + (Closing(false, outer) + [RBRACKET] + rest), read)
            == Ok(Array(read + Values(items)), rest)
    decreases items, 0
  {
    hide Body, ItemsText, ParseValue, Closing, Expects, AfterExpect, Printable, ValueOf;
    var tail := Closing(false, outer) + [RBRACKET] + rest;
    var next := ItemsText(items[1..], false, indent) + tail;
    ItemsSplit(items, indent, tail);
    SkipIndentation(indent, Body(items[0], indent) + next);
    ParseSkipsSpace(strtod, ItemsText(items, true, indent) + tail, Body(items[0], indent) + next);
    ClosingIsNext(false, outer, RBRACKET, rest);
    ValuesStep(items, read);
    if |items| == 1 {
      NoMoreItems(items[1..], indent, tail);
      RoundTrip(strtod, items[0], indent, next);
    } else {
      ItemsSplit(items[1..], indent, tail);
      CommaIsNext(ItemsText(items[1..], true, indent) + tail);
      RoundTrip(strtod, items[0], indent, next);
      ItemsRoundTrip(strtod, items[1..], indent, read + [ValueOf(items[0])], outer, rest);
    }
  }

  lemma NoMoreItems(items: seq<Doc>, indent: int, tail: Text)
    requires items == [] && (indent == COMPACT || indent > 0)
    ensures ItemsText(items, false, indent) + tail == tail
  {
  }

  lemma ValuesUnfold(items: seq<Doc>)
    ensures items != [] ==> Values(items) == [ValueOf(items[0])] + Values(items[1..])
    ensures Values([]) == []
  {
    hide ValueOf;
  }

  lemma ValuesStep(items: seq<Doc>, read: seq<Value>)
    requires items != []
    ensures read + Values(items) == read + [ValueOf(items[0])] + Values(items[1..])
    ensures |items| == 1 ==> read + Values(items) == read + [ValueOf(items[0])]
  {
    ValuesUnfold(items);
    hide ValueOf, Values;
    if |items| == 1 {
      assert items[1..] == [];
    }
  }

  lemma MembersSplit(ms: seq<Member>, indent: int, tail: Text)
    requires ms != [] && (indent == COMPACT || indent > 0)
    ensures MembersText(ms, true, indent) + tail
            == Indentation(indent) + (Quoted(ms[0].key) + (AfterKey(indent)
               + (Body(ms[0].value, indent) + (MembersText(ms[1..], false, indent) + tail))))
    ensures MembersText(ms, false, indent) + tail == [COMMA] + (MembersText(ms, true, indent) + tail)
  {
    assert Lead(true, indent) == Indentation(indent);
    hide Body, Quoted, Indentation, AfterKey;
    var i, k, a, b, more := Indentation(indent), Quoted(ms[0].key), AfterKey(indent), Body(ms[0].value, indent),
                            MembersText(ms[1..], false, indent);
    Assoc(i + (k + (a + b)), more, tail);
    Assoc(i, k + (a + b), more + tail);
    Assoc(k, a + b, more + tail);
    Assoc(a, b, more + tail);
    Assoc([COMMA], i, k + (a + b));
    Assoc([COMMA], i + (k + (a + b)), more);
    Assoc([COMMA], MembersText(ms, true, indent), tail);
  }

  /** The key, the colon and the space after it. */
  lemma KeyRoundTrip(key: Text, indent: int, inner: int, value: Text)
    requires indent >= COMPACT
    ensures ParseKey(Indentation(inner) + (Quoted(key) + (AfterKey(indent) + value))).Ok?
    ensures var k := ParseKey(Indentation(inner) + (Quoted(key) + (AfterKey(indent) + value)));
            k.value == key && SkipSpace(k.rest) == SkipSpace(value)
  {
    var t := AfterKey(indent) + value;
    SkipIndentation(inner, Quoted(key) + t);
    QuotedSplits(key, t);
    SkipStops(Quoted(key) + t);
    StringRoundTrip(key, t);
    SkipStops(t);
    if indent == COMPACT {
      assert t[1..] == value;
    } else {
      assert t[1..] == [SPACE] + value;
      SkipOver([SPACE], value);
    }
  }

  lemma {:induction false} MembersRoundTrip(strtod: Text -> Reading, ms: seq<Member>, indent: int,
                                           read: map<Text, Value>, outer: int, rest: Text)
    requires ReadsIntegers(strtod) && ms != [] && (indent == COMPACT || indent > 0)
    requires forall i | 0 <= i < |ms| :: Printable(ms[i].value)
    ensures ParseMembers(strtod, MembersText(ms, true, indent) + (Closing(false, outer) + [RBRACE] + rest), read)
            == Ok(Object(Members(ms, read)), rest)
    decreases ms, 0
  {
    hide Body, MembersText, ParseValue, Closing, Expects, AfterExpect, Printable, ValueOf, ParseKey, Quoted, AfterKey;
    var tail := Closing(false, outer) + [RBRACE] + rest;
    var next := MembersText(ms[1..], false, indent) + tail;
    MembersSplit(ms, indent, tail);
    KeyRoundTrip(ms[0].key, indent, indent, Body(ms[0].value, indent) + next);
    var k := ParseKey(MembersText(ms, true, indent) + tail);
    ParseSkipsSpace(strtod, k.rest, Body(ms[0].value, indent) + next);
    ClosingIsNext(false, outer, RBRACE, rest);
    if |ms| == 1 {
      NoMoreMembers(ms[1..], indent, tail);
      RoundTrip(strtod, ms[0].value, indent, next);
    } else {
      MembersSplit(ms[1..], indent, tail);
      CommaIsNext(MembersText(ms[1..], true, indent) + tail);
      RoundTrip(strtod, ms[0].value, indent, next);
      MembersRoundTrip(strtod, ms[1..], indent, read[ms[0].key := ValueOf(ms[0].value)], outer, rest);
    }
  }

  lemma NoMoreMembers(ms: seq<Member>, indent: int, tail: Text)
    requires ms == [] && (indent == COMPACT || indent > 0)
    ensures MembersText(ms, false, indent) + tail == tail
  {
  }

  /** The main round trip: any document, any indentation, any text after it. */
  lemma {:induction false} RoundTrip(strtod: Text -> Reading, d: Doc, indent: int, rest: Text)
    requires ReadsIntegers(strtod) && Printable(d) && indent >= COMPACT
    requires d.DNumber? ==> NumberEnds(rest)
    ensures ParseValue(strtod, Body(d, indent) + rest) == Ok(ValueOf(d), rest)
    decreases d, 1
  {
    match d
    case DNull =>
      LiteralRoundTrip(strtod, d, indent, rest);
    case DBool(_) =>
      LiteralRoundTrip(strtod, d, indent, rest);
    case DNumber(n) =>
      NumberRoundTrip(strtod, n, rest);
    case DString(s) =>
      QuotedSplits(s, rest);
      SkipStops(Quoted(s) + rest);
      StringRoundTrip(s, rest);
    case DArray(items) =>
      ArrayRoundTrip(strtod, d, indent, rest);
    case DObject(members) =>
      ObjectRoundTrip(strtod, d, indent, rest);
  }

  lemma ArrayOpens(strtod: Text -> Reading, inside: Text)
    ensures ParseValue(strtod, [LBRACKET] + inside) == ParseArray(strtod, inside)
    ensures ParseValue(strtod, [LBRACE] + inside) == ParseObject(strtod, inside)
  {
    hide ParseArray, ParseObject;
    SkipStops([LBRACKET] + inside);
    SkipStops([LBRACE] + inside);
    assert ([LBRACKET] + inside)[1..] == inside && ([LBRACE] + inside)[1..] == inside;
  }

  lemma ArrayRoundTrip(strtod: Text -> Reading, d: Doc, indent: int, rest: Text)
    requires ReadsIntegers(strtod) && Printable(d) && indent >= COMPACT && d.DArray?
    ensures ParseValue(strtod, Body(d, indent) + rest) == Ok(ValueOf(d), rest)
    decreases d, 0
  {
    var items, inner := d.items, Deeper(indent);
    BracketSplit(Body(d, indent), LBRACKET, ItemsText(items, true, inner), Closing(items == [], indent), RBRACKET, rest);
    hide Body, ItemsText, ParseItems, ParseValue, ReadsIntegers, Closing;
    var tail := Closing(items == [], indent) + [RBRACKET] + rest;
    var inside := ItemsText(items, true, inner) + tail;
    ArrayOpens(strtod, inside);
    if items == [] {
      NoItems(items, inner, tail);
      EmptyInside(indent, RBRACKET, rest);
    } else {
      NonEmptyArray(items, inner, tail);
      ItemsRoundTrip(strtod, items, inner, [], indent, rest);
      ItemsSkipSpace(strtod, inside, []);
      assert [] + Values(items) == Values(items);
    }
  }

  lemma NoItems(items: seq<Doc>, indent: int, tail: Text)
    requires items == [] && (indent == COMPACT || indent > 0)
    ensures ItemsText(items, true, indent) + tail == tail
    ensures Values(items) == []
  {
  }

  lemma EmptyInside(indent: int, close: byte, rest: Text)
    requires close == RBRACKET || close == RBRACE
    ensures var t := Closing(true, indent) + [close] + rest; Expects(t, close) && AfterExpect(t, close) == rest
  {
    ClosingIsNext(true, indent, close, rest);
    assert ([close] + rest)[1..] == rest;
  }

  lemma NonEmptyArray(items: seq<Doc>, inner: int, tail: Text)
    requires items != [] && (inner == COMPACT || inner > 0)
    ensures var inside := ItemsText(items, true, inner) + tail;
            !Expects(inside, RBRACKET) && AfterExpect(inside, RBRACKET) == SkipSpace(inside)
  {
    ItemsSplit(items, inner, tail);
    var next := ItemsText(items[1..], false, inner) + tail;
    hide Body, ItemsText;
    SkipIndentation(inner, Body(items[0], inner) + next);
    FirstByte(items[0], inner, next);
    SkipStops(Body(items[0], inner) + next);
  }

  lemma NonEmptyObject(ms: seq<Member>, inner: int, tail: Text)
    requires ms != [] && (inner == COMPACT || inner > 0)
    ensures var inside := MembersText(ms, true, inner) + tail;
            !Expects(inside, RBRACE) && AfterExpect(inside, RBRACE) == SkipSpace(inside)
  {
    MembersSplit(ms, inner, tail);
    var next := AfterKey(inner) + (Body(ms[0].value, inner) + (MembersText(ms[1..], false, inner) + tail));
    hide Body, MembersText, AfterKey;
    SkipIndentation(inner, Quoted(ms[0].key) + next);
    QuotedSplits(ms[0].key, next);
    SkipStops(Quoted(ms[0].key) + next);
  }

  lemma BracketSplit(body: Text, opening: byte, inside: Text, closing: Text, close: byte, rest: Text)
    requires body == [opening] + (inside + (closing + [close]))
    ensures body + rest == [opening] + (inside + (closing + [close] + rest))
  {
    Assoc([opening], inside + (closing + [close]), rest);
    Assoc(inside, closing + [close], rest);
  }

  lemma ItemsSkipSpace(strtod: Text -> Reading, s: Text, read: seq<Value>)
    ensures ParseItems(strtod, SkipSpace(s), read) == ParseItems(strtod, s, read)
  {
    hide ParseValue;
    SkipStops(SkipSpace(s));
    ParseSkipsSpace(strtod, SkipSpace(s), s);
  }

  lemma MembersSkipSpace(strtod: Text -> Reading, s: Text, read: map<Text, Value>)
    ensures ParseMembers(strtod, SkipSpace(s), read) == ParseMembers(strtod, s, read)
  {
    hide ParseValue;
    SkipStops(SkipSpace(s));
  }

  lemma ObjectRoundTrip(strtod: Text -> Reading, d: Doc, indent: int, rest: Text)
    requires ReadsIntegers(strtod) && Printable(d) && indent >= COMPACT && d.DObject?
    ensures ParseValue(strtod, Body(d, indent) + rest) == Ok(ValueOf(d), rest)
    decreases d, 0
  {
    var ms, inner := d.members, Deeper(indent);
    BracketSplit(Body(d, indent), LBRACE, MembersText(ms, true, inner), Closing(ms == [], indent), RBRACE, rest);
    hide Body, MembersText, ParseMembers, ParseValue, ReadsIntegers, Closing;
    var tail := Closing(ms == [], indent) + [RBRACE] + rest;
    var inside := MembersText(ms, true, inner) + tail;
    ArrayOpens(strtod, inside);
    if ms == [] {
      NoMembers(ms, inner, tail);
      EmptyInside(indent, RBRACE, rest);
    } else {
      NonEmptyObject(ms, inner, tail);
      MembersRoundTrip(strtod, ms, inner, map[], indent, rest);
      MembersSkipSpace(strtod, inside, map[]);
    }
  }

  lemma NoMembers(ms: seq<Member>, indent: int, tail: Text)
    requires ms == [] && (indent == COMPACT || indent > 0)
    ensures MembersText(ms, true, indent) + tail == tail
  {
  }

  /** `parse(serialize(v))`: the whole text, whose pretty form ends with a newline. */
  lemma SerializedRoundTrip(strtod: Text -> Reading, d: Doc, pretty: bool)
    requires ReadsIntegers(strtod) && Printable(d)
    ensures ParseValue(strtod, Serialized(d, if pretty then 0 else COMPACT))
            == Ok(ValueOf(d), if pretty then [NEWLINE] else [])
  {
    RoundTrip(strtod, d, if pretty then 0 else COMPACT, if pretty then [NEWLINE] else []);
    assert Body(d, COMPACT) + [] == Body(d, COMPACT);
  }

  // The order of members.

  predicate Integral(v: Value) {
    match v
    case Number(n) => n == n.Floor as real && -LIMIT < n.Floor < LIMIT
    case Array(items) => forall i | 0 <= i < |items| :: Integral(items[i])
    case Object(members) => forall k | k in members :: Integral(members[k])
    case _ => true
  }

  /** The members have the keys of m, each once, in whatever order. */
  predicate ListsKeys(ms: seq<Member>, m: map<Text, Value>) {
    && (forall i, j | 0 <= i < j < |ms| :: ms[i].key != ms[j].key)
    && (forall i | 0 <= i < |ms| :: ms[i].key in m)
    && (forall k | k in m :: HasKey(ms, k))
  }

  predicate HasKey(ms: seq<Member>, k: Text) {
    exists i | 0 <= i < |ms| :: ms[i].key == k
  }

  /** d writes v, with the members of every object in some order. */
  predicate Depicts(d: Doc, v: Value)
    decreases d
  {
    match (d, v)
    case (DNull, Null) => true
    case (DBool(b), Bool(c)) => b == c
    case (DNumber(n), Number(x)) => n as real == x
    case (DString(s), String(t)) => s == t
    case (DArray(docs), Array(items)) =>
      |docs| == |items| && forall i | 0 <= i < |docs| :: Depicts(docs[i], items[i])
    case (DObject(ms), Object(m)) =>
      ListsKeys(ms, m) && forall i | 0 <= i < |ms| :: Depicts(ms[i].value, m[ms[i].key])
    case _ => false
  }

  lemma {:induction false} ValuesAre(docs: seq<Doc>, items: seq<Value>)
    requires |docs| == |items| && forall i | 0 <= i < |docs| :: ValueOf(docs[i]) == items[i]
    ensures Values(docs) == items
  {
    hide ValueOf;
    ValuesUnfold(docs);
    if docs != [] {
      ValuesAre(docs[1..], items[1..]);
    }
  }

  /** Reading members one after the other keeps all of them, whatever their order. */
  lemma {:induction false} MembersAre(ms: seq<Member>, read: map<Text, Value>, m: map<Text, Value>)
    requires forall i, j | 0 <= i < j < |ms| :: ms[i].key != ms[j].key
    requires forall i | 0 <= i < |ms| :: ms[i].key in m && ValueOf(ms[i].value) == m[ms[i].key]
    requires forall k | k in read :: k in m && read[k] == m[k]
    requires forall k | k in m :: k in read || HasKey(ms, k)
    ensures Members(ms, read) == m
  {
    hide ValueOf;
    if ms == [] {
      assert read == m;
    } else {
      var rest := ms[1..];
      forall k | k in m ensures k in read[ms[0].key := ValueOf(ms[0].value)] || HasKey(rest, k) {
        if k !in read && k != ms[0].key {
          var i :| 0 <= i < |ms| && ms[i].key == k;
          assert rest[i - 1].key == k;
        }
      }
      MembersAre(rest, read[ms[0].key := ValueOf(ms[0].value)], m);
    }
  }

  /** A document that writes a value, in any order, has that value. */
  lemma {:induction false} DepictsValue(d: Doc, v: Value)
    requires Depicts(d, v)
    ensures ValueOf(d) == v
    decreases d
  {
    match (d, v)
    case (DArray(docs), Array(items)) =>
      forall i | 0 <= i < |docs| ensures ValueOf(docs[i]) == items[i] {
        DepictsValue(docs[i], items[i]);
      }
      ValuesAre(docs, items);
    case (DObject(ms), Object(m)) =>
      forall i | 0 <= i < |ms| ensures ValueOf(ms[i].value) == m[ms[i].key] {
        DepictsValue(ms[i].value, m[ms[i].key]);
      }
      MembersAre(ms, map[], m);
    case _ =>
  }

  lemma {:induction false} DepictsPrintable(d: Doc, v: Value)
    requires Depicts(d, v) && Integral(v)
    ensures Printable(d)
    decreases d
  {
    match (d, v)
    case (DArray(docs), Array(items)) =>
      forall i | 0 <= i < |docs| ensures Printable(docs[i]) {
        DepictsPrintable(docs[i], items[i]);
      }
    case (DObject(ms), Object(m)) =>
      forall i | 0 <= i < |ms| ensures Printable(ms[i].value) {
        DepictsPrintable(ms[i].value, m[ms[i].key]);
      }
    case _ =>
  }

  /** Parsing gives a value back whatever order its objects were written in, compact or pretty. */
  lemma AnyOrderRoundTrip(strtod: Text -> Reading, v: Value, d: Doc, pretty: bool)
    requires ReadsIntegers(strtod) && Integral(v) && Depicts(d, v)
    ensures ParseValue(strtod, Serialized(d, if pretty then 0 else COMPACT)) == Ok(v, if pretty then [NEWLINE] else [])
  {
    hide ReadsIntegers, Integral, Depicts, ParseValue, Serialized;
    DepictsValue(d, v);
    DepictsPrintable(d, v);
    SerializedRoundTrip(strtod, d, pretty);
  }

  /** Every value with integral numbers can be written. */
  lemma {:induction false} DocumentOf(v: Value) returns (d: Doc)
    requires Integral(v)
    ensures Depicts(d, v)
    decreases v
  {
    match v
    case Null => d := DNull;
    case Bool(b) => d := DBool(b);
    case Number(n) => d := DNumber(n.Floor);
    case String(s) => d := DString(s);
    case Array(items) =>
      var docs: seq<Doc> := [];
      for i := 0 to |items|
        invariant |docs| == i && forall j | 0 <= j < i :: Depicts(docs[j], items[j])
      {
        var item := DocumentOf(items[i]);
        docs := docs + [item];
      }
      d := DArray(docs);
    case Object(members) =>
      var ms := DocumentsOf(v, members.Keys);
      d := DObject(ms);
  }

  lemma {:induction false} DocumentsOf(v: Value, keys: set<Text>) returns (ms: seq<Member>)
    requires v.Object? && Integral(v) && keys <= v.members.Keys
    ensures forall i, j | 0 <= i < j < |ms| :: ms[i].key != ms[j].key
    ensures forall i | 0 <= i < |ms| :: ms[i].key in keys && Depicts(ms[i].value, v.members[ms[i].key])
    ensures forall k | k in keys :: HasKey(ms, k)
    decreases v, keys
  {
    hide Depicts;
    if keys == {} {
      ms := [];
    } else {
      var k :| k in keys;
      var rest := DocumentsOf(v, keys - {k});
      var item := DocumentOf(v.members[k]);
      ms := rest + [Member(k, item)];
      forall q | q in keys ensures HasKey(ms, q) {
        if q == k {
          assert ms[|rest|].key == k;
        } else {
          assert q in keys - {k} && HasKey(rest, q);
          var i :| 0 <= i < |rest| && rest[i].key == q;
          assert ms[i].key == q;
        }
      }
    }
  }
}
