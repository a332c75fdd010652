/**
 JSON texts as byte strings, and the parser of picojson as a function from a text to the value it
 starts with and the text that is left. `Bad` carries the text left
 where parsing stopped, and whether the byte before it is still pending in the cursor.
 */
module JsonGrammar {
  import opened Bytes

  type Text = seq<byte>

  function Ascii(s: string): Text
    requires forall i | 0 <= i < |s| :: s[i] < 128 as char
  {
    seq(|s|, i requires 0 <= i < |s| => s[i] as int)
  }

  const QUOTE: byte := 0x22
  const BACKSLASH: byte := 0x5c
  const SLASH: byte := 0x2f
  const COMMA: byte := 0x2c
  const COLON: byte := 0x3a
  const MINUS: byte := 0x2d
  const LBRACKET: byte := 0x5b
  const RBRACKET: byte := 0x5d
  const LBRACE: byte := 0x7b
  const RBRACE: byte := 0x7d
  const SPACE: byte := 0x20
  const NEWLINE: byte := 0x0a
  const LETTER_U: byte := 0x75

  // The texts null, false and true without their first letter, which selects them.
  const ULL: Text := [0x75, 0x6c, 0x6c]
  const ALSE: Text := [0x61, 0x6c, 0x73, 0x65]
  const RUE: Text := [0x72, 0x75, 0x65]
  const LETTER_N: byte := 0x6e
  const LETTER_F: byte := 0x66
  const LETTER_T: byte := 0x74

  datatype Value =
    | Null
    | Bool(b: bool)
    | Number(n: real)
    | String(s: Text)
    | Array(items: seq<Value>)
    | Object(members: map<Text, Value>)

  /** What strtod makes of a run of number characters. */
  datatype Reading = Partly | Finite(n: real) | Infinite

  datatype Parsed<T> = Ok(value: T, rest: Text) | Bad(rest: Text, pending: bool) | Thrown

  predicate IsSpace(b: byte) {
    b == SPACE || b == 0x09 || b == NEWLINE || b == 0x0d
  }

  predicate IsDigit(b: byte) {
    0x30 <= b <= 0x39
  }

  /** The characters collected by `_parse_number`. */
  predicate IsNumberChar(b: byte) {
    IsDigit(b) || b == 0x2b || b == MINUS || b == 0x65 || b == 0x45 || b == 0x2e
  }

  function SkipSpace(s: Text): (r: Text)
    ensures |r| <= |s| && (r != [] ==> !IsSpace(r[0]))
  {
    if s != [] && IsSpace(s[0]) then SkipSpace(s[1..]) else s
  }

  /** `expect`: skip white space and take the byte c if it is next. */
  predicate Expects(s: Text, c: byte) {
    SkipSpace(s) != [] && SkipSpace(s)[0] == c
  }

  function AfterExpect(s: Text, c: byte): (r: Text)
    ensures |r| <= |s| && (Expects(s, c) ==> |r| < |s|)
  {
    if Expects(s, c) then SkipSpace(s)[1..] else SkipSpace(s)
  }

  /** `match`: what is left after the longest common prefix. */
  function AfterMatch(s: Text, pattern: Text): (r: Text)
    ensures |r| <= |s|
  {
    if pattern == [] || s == [] || s[0] != pattern[0] then s else AfterMatch(s[1..], pattern[1..])
  }

  // Strings.

  function HexDigit(b: byte): (d: int)
    ensures -1 <= d < 16
  {
    if IsDigit(b) then b - 0x30
    else if 0x41 <= b <= 0x46 then b - 0x41 + 10
    else if 0x61 <= b <= 0x66 then b - 0x61 + 10
    else -1
  }

  /** `_parse_quadhex`, with n digits to go. */
  function QuadHex(s: Text, n: nat, code: nat): (r: Parsed<nat>)
    ensures !r.Thrown? && |r.rest| <= |s|
    decreases n
  {
    if n == 0 then Ok(code, s)
    else if s == [] || HexDigit(s[0]) == -1 then Bad(s, false)
    else QuadHex(s[1..], n - 1, code * 16 + HexDigit(s[0]))
  }

  /** The UTF-8 form of a code point. */
  function Utf8(u: nat): Text
    requires u < 0x110000
  {
    if u < 0x80 then [u]
    else if u < 0x800 then [0xc0 + u / 64, 0x80 + u % 64]
    else if u < 0x10000 then [0xe0 + u / 4096, 0x80 + u / 64 % 64, 0x80 + u % 64]
    else [0xf0 + u / 262144, 0x80 + u / 4096 % 64, 0x80 + u / 64 % 64, 0x80 + u % 64]
  }

  lemma {:induction false} QuadHexBound(s: Text, n: nat, code: nat, limit: nat)
    requires QuadHex(s, n, code).Ok? && n <= 4
    requires limit == (if n == 0 then 1 else if n == 1 then 16 else if n == 2 then 256 else if n == 3 then 4096 else 65536)
    ensures QuadHex(s, n, code).value < (code + 1) * limit
    decreases n
  {
    if n > 0 {
      QuadHexBound(s[1..], n - 1, code * 16 + HexDigit(s[0]), limit / 16);
    }
  }

  /** `_parse_codepoint`: four hex digits, or a surrogate pair, as UTF-8 bytes. */
  function Codepoint(s: Text): (r: Parsed<Text>)
    ensures !r.Thrown? && |r.rest| <= |s|
  {
    var first := QuadHex(s, 4, 0);
    if first.Bad? then Bad(first.rest, false)
    else
      assert first.value < 0x10000 by { QuadHexBound(s, 4, 0, 65536); }
      var u, t := first.value, first.rest;
      if u < 0xd800 || 0xdfff < u then Ok(Utf8(u), t)
      else if 0xdc00 <= u then Bad(t, true)
      else if t == [] || t[0] != BACKSLASH then Bad(t, false)
      else if |t| == 1 || t[1] != LETTER_U then Bad(t[1..], false)
      else
        var second := QuadHex(t[2..], 4, 0);
        if second.Bad? then Bad(second.rest, false)
        else if second.value < 0xdc00 || 0xdfff < second.value then Bad(second.rest, true)
        else Ok(Utf8((u - 0xd800) * 1024 + (second.value - 0xdc00) + 0x10000), second.rest)
  }

  /** The byte a one-letter escape stands for. */
  function Unescaped(b: byte): (r: seq<byte>)
    ensures |r| <= 1
  {
    if b == QUOTE || b == BACKSLASH || b == SLASH then [b]
    else if b == 0x62 then [0x08]
    else if b == 0x66 then [0x0c]
    else if b == 0x6e then [0x0a]
    else if b == 0x72 then [0x0d]
    else if b == 0x74 then [0x09]
    else []
  }

  function Prepend(t: Text, r: Parsed<Text>): Parsed<Text> {
    match r
    case Ok(value, rest) => Ok(t + value, rest)
    case Bad(rest, pending) => Bad(rest, pending)
    case Thrown => Thrown
  }

  /** `_parse_string`, after the opening quote. */
  function StringBody(s: Text): (r: Parsed<Text>)
    ensures !r.Thrown? && |r.rest| <= |s| && (r.Ok? ==> |r.rest| < |s|)
    decreases |s|
  {
    if s == [] || s[0] < SPACE then Bad(s, false)
    else if s[0] == QUOTE then Ok([], s[1..])
    else if s[0] != BACKSLASH then Prepend([s[0]], StringBody(s[1..]))
    else if |s| == 1 then Bad([], false)
    else if s[1] == LETTER_U then
      var c := Codepoint(s[2..]);
      if c.Bad? then Bad(c.rest, c.pending) else Prepend(c.value, StringBody(c.rest))
    else if Unescaped(s[1]) == [] then Bad(s[2..], true)
    else Prepend(Unescaped(s[1]), StringBody(s[2..]))
  }

  // Numbers.

  /** Length of the run of number characters. */
  function NumberLength(s: Text): (n: nat)
    ensures n <= |s|
  {
    if s != [] && IsNumberChar(s[0]) then 1 + NumberLength(s[1..]) else 0
  }

  function NumberValue(strtod: Text -> Reading, s: Text): (r: Parsed<Value>)
    requires s != [] && IsNumberChar(s[0])
    ensures !r.Thrown? ==> |r.rest| <= |s| && |r.rest| < |s|
  {
    var n := NumberLength(s);
    match strtod(s[..n])
    case Partly => Bad(s[n..], false)
    case Finite(x) => Ok(Number(x), s[n..])
    case Infinite => Thrown
  }

  // Values.

  function Literal(v: Value, s: Text, pattern: Text): (r: Parsed<Value>)
    ensures !r.Thrown? && |r.rest| <= |s|
  {
    if pattern <= s then Ok(v, s[|pattern|..]) else Bad(AfterMatch(s, pattern), false)
  }

  function StringValue(s: Text): (r: Parsed<Value>)
    ensures !r.Thrown? && |r.rest| <= |s|
  {
    var b := StringBody(s);
    if b.Ok? then Ok(String(b.value), b.rest) else Bad(b.rest, b.pending)
  }

  /** `_parse` with the context that builds a value. */
  function ParseValue(strtod: Text -> Reading, s: Text): (r: Parsed<Value>)
    ensures !r.Thrown? ==> |r.rest| <= |s|
    ensures r.Ok? ==> |r.rest| < |s|
    decreases |s|, 2
  {
    var t := SkipSpace(s);
    if t == [] then Bad(t, false)
    else if t[0] == LETTER_N then Literal(Null, t[1..], ULL)
    else if t[0] == LETTER_F then Literal(Bool(false), t[1..], ALSE)
    else if t[0] == LETTER_T then Literal(Bool(true), t[1..], RUE)
    else if t[0] == QUOTE then StringValue(t[1..])
    else if t[0] == LBRACKET then ParseArray(strtod, t[1..])
    else if t[0] == LBRACE then ParseObject(strtod, t[1..])
    else if IsDigit(t[0]) || t[0] == MINUS then NumberValue(strtod, t)
    else Bad(t, false)
  }

  /** `_parse_array`, after the bracket. */
  function ParseArray(strtod: Text -> Reading, s: Text): (r: Parsed<Value>)
    ensures !r.Thrown? ==> |r.rest| <= |s|
    decreases |s|, 4
  {
    if Expects(s, RBRACKET) then Ok(Array([]), AfterExpect(s, RBRACKET))
    else ParseItems(strtod, AfterExpect(s, RBRACKET), [])
  }

  /** The item loop of `_parse_array`, with the items read so far. */
  function ParseItems(strtod: Text -> Reading, s: Text, items: seq<Value>): (r: Parsed<Value>)
    ensures !r.Thrown? ==> |r.rest| <= |s|
    decreases |s|, 3
  {
    match ParseValue(strtod, s)
    case Thrown => Thrown
    case Bad(rest, pending) => Bad(rest, pending)
    case Ok(v, t) =>
      if Expects(t, COMMA) then ParseItems(strtod, AfterExpect(t, COMMA), items + [v])
      else
        var u := AfterExpect(t, COMMA);
        if Expects(u, RBRACKET) then Ok(Array(items + [v]), AfterExpect(u, RBRACKET))
        else Bad(AfterExpect(u, RBRACKET), false)
  }

  /** `_parse_object`, after the brace. */
  function ParseObject(strtod: Text -> Reading, s: Text): (r: Parsed<Value>)
    ensures !r.Thrown? ==> |r.rest| <= |s|
    decreases |s|, 4
  {
    if Expects(s, RBRACE) then Ok(Object(map[]), AfterExpect(s, RBRACE))
    else ParseMembers(strtod, AfterExpect(s, RBRACE), map[])
  }

  /** The key of an object member up to the colon. */
  function ParseKey(s: Text): (r: Parsed<Text>)
    ensures !r.Thrown? && |r.rest| <= |s| && (r.Ok? ==> |r.rest| < |s|)
  {
    if !Expects(s, QUOTE) then Bad(AfterExpect(s, QUOTE), false)
    else
      var b := StringBody(AfterExpect(s, QUOTE));
      if b.Bad? then Bad(b.rest, b.pending)
      else if Expects(b.rest, COLON) then Ok(b.value, AfterExpect(b.rest, COLON))
      else Bad(AfterExpect(b.rest, COLON), false)
  }

  /** The member loop of `_parse_object`, with the members read so far. */
  function ParseMembers(strtod: Text -> Reading, s: Text, members: map<Text, Value>): (r: Parsed<Value>)
    ensures !r.Thrown? ==> |r.rest| <= |s|
    decreases |s|, 3
  {
    var k := ParseKey(s);
    if k.Bad? then Bad(k.rest, k.pending)
    else
      match ParseValue(strtod, k.rest)
      case Thrown => Thrown
      case Bad(rest, pending) => Bad(rest, pending)
      case Ok(v, t) =>
        if Expects(t, COMMA) then ParseMembers(strtod, AfterExpect(t, COMMA), members[k.value := v])
        else
          var u := AfterExpect(t, COMMA);
          if Expects(u, RBRACE) then Ok(Object(members[k.value := v]), AfterExpect(u, RBRACE))
          else Bad(AfterExpect(u, RBRACE), false)
  }
}
