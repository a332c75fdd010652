/**
 The language of the parser. A tree is one way of writing a value, with its white space and
 escapes; the parser reads exactly the texts of well-formed trees, as the values they mean.
 */
module JsonLanguage {
  import opened Bytes
  import opened JsonGrammar
  import JsonPrinter
  import opened JsonRoundTrip
  import opened JsonUnicode

  // Characters.

  predicate Blank(t: Text) {
    forall i | 0 <= i < |t| :: t[i] as char in " \t\n\r"
  }

  predicate IsNumeric(t: Text) {
    forall i | 0 <= i < |t| :: t[i] as char in "0123456789+-.eE"
  }

  /** The escapes of one letter. */
  const ESCAPES: map<char, byte> :=
    map['"' := 0x22, '\\' := 0x5c, '/' := 0x2f, 'b' := 0x08, 'f' := 0x0c, 'n' := 0x0a, 'r' := 0x0d, 't' := 0x09]

  lemma SpaceExactly(b: byte)
    ensures IsSpace(b) <==> b as char in " \t\n\r"
  {
    assert " \t\n\r" == [' ', '\t', '\n', '\r'];
  }

  lemma NumericExactly(b: byte)
    ensures IsNumberChar(b) <==> b as char in "0123456789+-.eE"
  {
    assert "0123456789+-.eE" == ['0', '1', '2', '3', '4', '5', '6', '7', '8', '9', '+', '-', '.', 'e', 'E'];
    assert IsDigit(b) <==> b as char in ['0', '1', '2', '3', '4', '5', '6', '7', '8', '9'];
  }

  lemma EscapeExactly(b: byte)
    ensures Unescaped(b) == if b as char in ESCAPES then [ESCAPES[b as char]] else []
  {
  }

  lemma EscapeValues(b: byte)
    ensures b in ESCAPES.Values
            <==> b == 0x22 || b == 0x5c || b == 0x2f || b == 0x08 || b == 0x0c || b == 0x0a || b == 0x0d || b == 0x09
  {
    assert ESCAPES['"'] == 0x22 && ESCAPES['\\'] == 0x5c && ESCAPES['/'] == 0x2f && ESCAPES['b'] == 0x08;
    assert ESCAPES['f'] == 0x0c && ESCAPES['n'] == 0x0a && ESCAPES['r'] == 0x0d && ESCAPES['t'] == 0x09;
  }

  // Strings.

  /** How one character, or one code point, is written in a string. */
  datatype Piece = Itself(b: byte) | Short(letter: byte, b: byte) | Named(digits: Text, u: CodePoint)

  type CodePoint = u: nat | u < CODE_LIMIT

  predicate GoodPiece(p: Piece) {
    match p
    case Itself(b) => b >= 0x20 && b as char !in "\"\\"
    case Short(letter, b) => letter as char in ESCAPES && ESCAPES[letter as char] == b
    case Named(digits, u) => Names(digits, u, |digits|)
  }

  function PieceText(p: Piece): Text {
    match p
    case Itself(b) => [b]
    case Short(letter, _) => ['\\' as int, letter]
    case Named(digits, _) => ['\\' as int, 'u' as int] + digits
  }

  function PieceBytes(p: Piece): Text {
    match p
    case Itself(b) => [b]
    case Short(_, b) => [b]
    case Named(_, u) => Utf8(u)
  }

  function PiecesText(ps: seq<Piece>): Text {
    if ps == [] then [] else PieceText(ps[0]) + PiecesText(ps[1..])
  }

  predicate GoodPieces(ps: seq<Piece>) {
    forall i | 0 <= i < |ps| :: GoodPiece(ps[i])
  }

  function PiecesBytes(ps: seq<Piece>): Text {
    if ps == [] then [] else PieceBytes(ps[0]) + PiecesBytes(ps[1..])
  }

  lemma SameQuad(s: Text, t: Text, u: nat)
    requires StartsQuad(s, u) && |t| >= 4 && s[0] == t[0] && s[1] == t[1] && s[2] == t[2] && s[3] == t[3]
    ensures StartsQuad(t, u)
  {
    var a: nat, b: nat, c: nat, d: nat :| a < 16 && b < 16 && c < 16 && d < 16
      && SpellsQuad(s, a, b, c, d) && u == 4096 * a + 256 * b + 16 * c + d;
    assert SpellsQuad(t, a, b, c, d);
  }

  lemma SameName(s: Text, t: Text, u: nat, n: nat)
    requires Names(s, u, n) && n <= |s| && n <= |t| && s[..n] == t[..n]
    ensures Names(t, u, n)
  {
    hide StartsQuad;
    assert forall i | 0 <= i < n :: s[..n][i] == t[..n][i] && s[i] == t[i];
    if n == 4 {
      SameQuad(s, t, u);
    } else {
      SameQuad(s, t, 0xd800 + (u - 0x10000) / 0x400);
      assert forall i | 0 <= i < 4 :: s[6..][i] == s[i + 6] && t[6..][i] == t[i + 6];
      SameQuad(s[6..], t[6..], 0xdc00 + (u - 0x10000) % 0x400);
    }
  }

  lemma NamesPrefix(digits: Text, u: nat, t: Text)
    requires Names(digits, u, |digits|)
    ensures Names(digits + t, u, |digits|) && (digits + t)[|digits|..] == t
  {
    hide Names;
    assert (digits + t)[..|digits|] == digits[..|digits|];
    SameName(digits, digits + t, u, |digits|);
  }

  lemma NamesItself(s: Text, u: nat, n: nat)
    requires Names(s, u, n) && n <= |s|
    ensures Names(s[..n], u, n)
  {
    hide Names;
    assert s[..n][..n] == s[..n];
    SameName(s, s[..n], u, n);
  }

  lemma NamedStep(digits: Text, u: CodePoint, t: Text)
    requires Names(digits, u, |digits|)
    ensures StringBody(PieceText(Named(digits, u)) + t) == Prepend(Utf8(u), StringBody(t))
  {
    hide Names, Utf8, Codepoint, Unescaped;
    var s := PieceText(Named(digits, u)) + t;
    NamesPrefix(digits, u, t);
    NamedIsRead(digits + t, u, |digits|);
    assert s[0] == BACKSLASH && s[1] == LETTER_U && s[2..] == digits + t;
  }

  lemma PieceRead(p: Piece, t: Text)
    requires GoodPiece(p)
    ensures StringBody(PieceText(p) + t) == Prepend(PieceBytes(p), StringBody(t))
  {
    hide StringBody, Names, Utf8;
    match p
    case Itself(b) =>
      assert b as char != '"' && b as char != '\\';
      PlainStep(b, t);
    case Short(letter, b) =>
      EscapeExactly(letter);
      EscapeStep(letter, b, t);
    case Named(digits, u) =>
      NamedStep(digits, u, t);
  }

  lemma {:induction false} PiecesRead(ps: seq<Piece>, rest: Text)
    requires GoodPieces(ps)
    ensures StringBody(PiecesText(ps) + ([QUOTE] + rest)) == Ok(PiecesBytes(ps), rest)
  {
    hide GoodPiece, PieceText, PieceBytes;
    if ps == [] {
      assert PiecesText(ps) + ([QUOTE] + rest) == [QUOTE] + rest;
      assert ([QUOTE] + rest)[1..] == rest;
    } else {
      var t := PiecesText(ps[1..]) + ([QUOTE] + rest);
      assert PiecesText(ps) + ([QUOTE] + rest) == PieceText(ps[0]) + t;
      PieceRead(ps[0], t);
      PiecesRead(ps[1..], rest);
    }
  }

  lemma FirstPiece(s: Text) returns (p: Piece, t: Text)
    requires StringBody(s).Ok? && s != [] && s[0] != QUOTE
    ensures |t| < |s| && GoodPiece(p) && s == PieceText(p) + t
    ensures StringBody(s) == Prepend(PieceBytes(p), StringBody(t))
  {
    hide Names, Utf8, Codepoint, Unescaped;
    if s[0] != BACKSLASH {
      p, t := Itself(s[0]), s[1..];
      assert s[0] as char !in "\"\\";
    } else if s[1] == LETTER_U {
      var u, n := ReadIsNamed(s[2..]);
      NamedIsRead(s[2..], u, n);
      NamesItself(s[2..], u, n);
      p, t := Named(s[2..][..n], u), s[2..][n..];
      assert s == ['\\' as int, 'u' as int] + s[2..];
    } else {
      EscapeExactly(s[1]);
      p, t := Short(s[1], ESCAPES[s[1] as char]), s[2..];
    }
  }

  lemma {:induction false} PiecesParsed(s: Text) returns (ps: seq<Piece>)
    requires StringBody(s).Ok?
    ensures GoodPieces(ps) && StringBody(s).value == PiecesBytes(ps)
    ensures s == PiecesText(ps) + ([QUOTE] + StringBody(s).rest)
    decreases |s|
  {
    hide GoodPiece, PieceText, PieceBytes;
    if s[0] == QUOTE {
      ps := [];
    } else {
      var p, t := FirstPiece(s);
      var more := PiecesParsed(t);
      ps := [p] + more;
      assert ps[1..] == more;
    }
  }

  /**
   How the printer writes a byte: a short escape where there is one, the code point of other control
   characters and of delete, and every other byte as itself.
   */
  lemma EscapedExactly(c: byte) returns (p: Piece)
    ensures GoodPiece(p) && PieceText(p) == JsonPrinter.EscapedChar(c) && PieceBytes(p) == [c]
    ensures p.Short? <==> c in ESCAPES.Values
    ensures p.Named? <==> c !in ESCAPES.Values && (c < 0x20 || c == 0x7f)
  {
    EscapeValues(c);
    var e := JsonPrinter.EscapedChar(c);
    if |e| == 1 {
      p := Itself(c);
    } else if |e| == 2 {
      p := Short(e[1], c);
    } else {
      p := Named(e[2..], c);
      assert SpellsQuad(e[2..], 0, 0, c / 16, c % 16);
    }
  }

  // Values.

  /** A value as it is written; `gap` is the white space inside empty brackets. */
  datatype Tree =
    | Word(v: Value)
    | Numeral(run: Text, x: real)
    | Quotation(pieces: seq<Piece>)
    | Sequence(items: seq<Item>, gap: Text)
    | Record(entries: seq<Entry>, gap: Text)

  datatype Item = Item(before: Text, tree: Tree, after: Text)

  datatype Entry = Entry(before: Text, key: seq<Piece>, colon: Text, item: Item)

  predicate WellFormed(strtod: Text -> Reading, t: Tree) {
    match t
    case Word(v) => v.Null? || v.Bool?
    case Numeral(run, x) => run != [] && run[0] as char in "-0123456789" && IsNumeric(run) && strtod(run) == Finite(x)
    case Quotation(pieces) => GoodPieces(pieces)
    case Sequence(items, gap) => Blank(gap) && forall i | 0 <= i < |items| :: GoodItem(strtod, items[i])
    case Record(entries, gap) => Blank(gap) && forall i | 0 <= i < |entries| :: GoodEntry(strtod, entries[i])
  }

  predicate GoodItem(strtod: Text -> Reading, item: Item) {
    Blank(item.before) && WellFormed(strtod, item.tree) && Blank(item.after)
  }

  predicate GoodEntry(strtod: Text -> Reading, entry: Entry) {
    Blank(entry.before) && GoodPieces(entry.key) && Blank(entry.colon) && GoodItem(strtod, entry.item)
  }

  function QuotationText(pieces: seq<Piece>): Text {
    Ascii("\"") + PiecesText(pieces) + Ascii("\"")
  }

  function TextOf(t: Tree): Text {
    match t
    case Word(v) => Ascii(if v.Null? then "null" else if v == Bool(true) then "true" else "false")
    case Numeral(run, _) => run
    case Quotation(pieces) => QuotationText(pieces)
    case Sequence(items, gap) => Ascii("[") + (if items == [] then gap else ItemTexts(items)) + Ascii("]")
    case Record(entries, gap) => Ascii("{") + (if entries == [] then gap else EntryTexts(entries)) + Ascii("}")
  }

  function ItemText(item: Item): Text {
    item.before + TextOf(item.tree) + item.after
  }

  /** The items, with commas between them. */
  function ItemTexts(items: seq<Item>): Text
    requires items != []
  {
    if |items| == 1 then ItemText(items[0]) else ItemText(items[0]) + Ascii(",") + ItemTexts(items[1..])
  }

  function EntryText(entry: Entry): Text {
    entry.before + QuotationText(entry.key) + entry.colon + Ascii(":") + ItemText(entry.item)
  }

  function EntryTexts(entries: seq<Entry>): Text
    requires entries != []
  {
    if |entries| == 1 then EntryText(entries[0]) else EntryText(entries[0]) + Ascii(",") + EntryTexts(entries[1..])
  }

  function Meaning(t: Tree): Value {
    match t
    case Word(v) => v
    case Numeral(_, x) => Number(x)
    case Quotation(pieces) => String(PiecesBytes(pieces))
    case Sequence(items, _) => Array(Meanings(items))
    case Record(entries, _) => Object(Collected(entries, map[]))
  }

  function Meanings(items: seq<Item>): seq<Value> {
    if items == [] then [] else [Meaning(items[0].tree)] + Meanings(items[1..])
  }

  /** The members, a later entry replacing an earlier one with the same key. */
  function Collected(entries: seq<Entry>, m: map<Text, Value>): map<Text, Value> {
    if entries == [] then m
    else Collected(entries[1..], m[PiecesBytes(entries[0].key) := Meaning(entries[0].item.tree)])
  }
}
