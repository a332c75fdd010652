/**
 Serialisation. A document is a value together with the order in which the members of its objects
 are iterated, which the container does not fix.
 */
module JsonPrinter {
  import opened Bytes
  import opened JsonGrammar

  datatype Member = Member(key: Text, value: Doc)

  datatype Doc =
    | DNull
    | DBool(b: bool)
    | DNumber(n: int)
    | DString(s: Text)
    | DArray(items: seq<Doc>)
    | DObject(members: seq<Member>)

  const INDENT_WIDTH := 2
  const COMPACT := -1
  const LIMIT := 0x20_0000_0000_0000 // 2^53

  function Values(docs: seq<Doc>): (vs: seq<Value>)
    ensures |vs| == |docs|
  {
    if docs == [] then [] else [ValueOf(docs[0])] + Values(docs[1..])
  }

  function Members(ms: seq<Member>, m: map<Text, Value>): map<Text, Value> {
    if ms == [] then m else Members(ms[1..], m[ms[0].key := ValueOf(ms[0].value)])
  }

  /** The value of a document, without the order. */
  function ValueOf(d: Doc): Value {
    match d
    case DNull => Null
    case DBool(b) => Bool(b)
    case DNumber(n) => Number(n as real)
    case DString(s) => String(s)
    case DArray(items) => Array(Values(items))
    case DObject(members) => Object(Members(members, map[]))
  }

  /** All numbers are integers that print through `%.f`. */
  predicate Printable(d: Doc) {
    match d
    case DNumber(n) => -LIMIT < n < LIMIT
    case DArray(items) => forall i | 0 <= i < |items| :: Printable(items[i])
    case DObject(members) => forall i | 0 <= i < |members| :: Printable(members[i].value)
    case _ => true
  }

  // Numbers.

  function Digits(n: nat): (t: Text)
    ensures t != [] && forall i | 0 <= i < |t| :: IsDigit(t[i])
  {
    if n < 10 then [0x30 + n] else Digits(n / 10) + [0x30 + n % 10]
  }

  function Decimal(n: int): Text {
    if n < 0 then [MINUS] + Digits(-n) else Digits(n)
  }

  // Strings.

  function LowerHex(d: int): byte
    requires 0 <= d < 16
  {
    if d < 10 then 0x30 + d else 0x61 + d - 10
  }

  /** `serialize_str_char` */
  function EscapedChar(c: byte): Text {
    if c == QUOTE || c == BACKSLASH || c == SLASH then [BACKSLASH, c]
    else if c == 0x08 then [BACKSLASH, 0x62]
    else if c == 0x0c then [BACKSLASH, 0x66]
    else if c == 0x0a then [BACKSLASH, 0x6e]
    else if c == 0x0d then [BACKSLASH, 0x72]
    else if c == 0x09 then [BACKSLASH, 0x74]
    else if c < 0x20 || c == 0x7f then [BACKSLASH, LETTER_U, 0x30, 0x30, LowerHex(c / 16), LowerHex(c % 16)]
    else [c]
  }

  function EscapedChars(s: Text): Text {
    if s == [] then [] else EscapedChar(s[0]) + EscapedChars(s[1..])
  }

  function Quoted(s: Text): Text {
    [QUOTE] + EscapedChars(s) + [QUOTE]
  }

  // Values.

  function Spaces(n: nat): (t: Text)
    ensures |t| == n && forall i | 0 <= i < n :: t[i] == SPACE
  {
    seq(n, _ => SPACE)
  }

  /** `_indent`, when pretty printing. */
  function Indentation(indent: int): Text {
    if indent < 0 then [] else [NEWLINE] + Spaces(indent * INDENT_WIDTH)
  }

  function Deeper(indent: int): int {
    if indent == COMPACT then COMPACT else indent + 1
  }

  /** The separator after a key. */
  function AfterKey(indent: int): Text {
    if indent == COMPACT then [COLON] else [COLON, SPACE]
  }

  /** An item, after a comma unless it is the first, and on its own line when pretty printing. */
  function ItemText(item: Doc, first: bool, indent: int): Text
    requires indent == COMPACT || indent > 0
    decreases item, 1
  {
    Lead(first, indent) + Body(item, indent)
  }

  function Lead(first: bool, indent: int): Text {
    (if first then [] else [COMMA]) + Indentation(indent)
  }

  function MemberText(m: Member, first: bool, indent: int): Text
    requires indent == COMPACT || indent > 0
    decreases m, 1
  {
    Lead(first, indent) + (Quoted(m.key) + (AfterKey(indent) + Body(m.value, indent)))
  }

  function ItemsText(items: seq<Doc>, first: bool, indent: int): Text
    requires indent == COMPACT || indent > 0
    decreases items, 2
  {
    if items == [] then [] else ItemText(items[0], first, indent) + ItemsText(items[1..], false, indent)
  }

  function MembersText(members: seq<Member>, first: bool, indent: int): Text
    requires indent == COMPACT || indent > 0
    decreases members, 2
  {
    if members == [] then [] else MemberText(members[0], first, indent) + MembersText(members[1..], false, indent)
  }

  /** The line break before a closing bracket. */
  function Closing(empty: bool, indent: int): Text {
    if empty then [] else Indentation(indent)
  }

  /** The text of a value without the final newline. */
  function Body(d: Doc, indent: int): Text
    requires indent >= COMPACT
    decreases d, 0
  {
    match d
    case DNull => [LETTER_N] + ULL
    case DBool(b) => if b then [LETTER_T] + RUE else [LETTER_F] + ALSE
    case DNumber(n) => Decimal(n)
    case DString(s) => Quoted(s)
    case DArray(items) =>
      [LBRACKET] + (ItemsText(items, true, Deeper(indent)) + (Closing(items == [], indent) + [RBRACKET]))
    case DObject(members) =>
      [LBRACE] + (MembersText(members, true, Deeper(indent)) + (Closing(members == [], indent) + [RBRACE]))
  }

  /** `_serialize` */
  function Serialized(d: Doc, indent: int): Text
    requires indent >= COMPACT
  {
    Body(d, indent) + if indent == 0 then [NEWLINE] else []
  }

  // The serialiser, writing through an output iterator.

  class Output {
    var text: Text

    constructor ()
      ensures text == []
    {
      text := [];
    }

    method Put(b: byte)
      modifies this
      ensures text == old(text) + [b]
    {
      text := text + [b];
    }

    method Copy(t: Text)
      modifies this
      ensures text == old(text) + t
    {
      text := text + t;
    }
  }

  /** `serialize_str` */
  method SerializeString(s: Text, out: Output)
    modifies out
    ensures out.text == old(out.text) + Quoted(s)
  {
    hide EscapedChar;
    ghost var before := out.text;
    out.Put(QUOTE);
    for i := 0 to |s|
      invariant out.text + EscapedChars(s[i..]) == before + [QUOTE] + EscapedChars(s)
    {
      assert s[i..][0] == s[i] && s[i..][1..] == s[i + 1..];
      assert out.text + (EscapedChar(s[i]) + EscapedChars(s[i + 1..]))
          == (out.text + EscapedChar(s[i])) + EscapedChars(s[i + 1..]);
      out.Copy(EscapedChar(s[i]));
    }
    assert out.text == before + [QUOTE] + EscapedChars(s);
    out.Put(QUOTE);
    assert out.text == before + ([QUOTE] + EscapedChars(s) + [QUOTE]);
  }

  /** `_indent` */
  method Indent(indent: nat, out: Output)
    modifies out
    ensures out.text == old(out.text) + Indentation(indent)
  {
    ghost var before := out.text;
    out.Put(NEWLINE);
    for i := 0 to indent * INDENT_WIDTH
      invariant out.text == before + ([NEWLINE] + Spaces(i))
    {
      out.Put(SPACE);
      assert Spaces(i) + [SPACE] == Spaces(i + 1);
    }
  }

  /** `_serialize` */
  method Serialize(d: Doc, indent: int, out: Output)
    requires indent >= COMPACT
    modifies out
    ensures out.text == old(out.text) + Serialized(d, indent)
    decreases d, 1
  {
    ghost var before := out.text;
    match d {
      case DNull =>
        out.Copy([LETTER_N] + ULL);
      case DBool(b) =>
        out.Copy(if b then [LETTER_T] + RUE else [LETTER_F] + ALSE);
      case DNumber(n) =>
        out.Copy(Decimal(n));
      case DString(s) =>
        SerializeString(s, out);
      case DArray(_) =>
        SerializeArray(d, indent, out);
      case DObject(_) =>
        SerializeObject(d, indent, out);
    }
    if indent == 0 {
      out.Put(NEWLINE);
    }
    Assoc(before, Body(d, indent), if indent == 0 then [NEWLINE] else []);
  }

  lemma Assoc(a: Text, b: Text, c: Text)
    ensures (a + b) + c == a + (b + c)
  {
  }

  method WriteLead(first: bool, indent: int, out: Output)
    requires indent == COMPACT || indent > 0
    modifies out
    ensures out.text == old(out.text) + Lead(first, indent)
  {
    ghost var before := out.text;
    if !first {
      out.Put(COMMA);
    }
    if indent != COMPACT {
      Indent(indent, out);
    }
    Assoc(before, if first then [] else [COMMA], Indentation(indent));
  }

  method SerializeItem(item: Doc, first: bool, indent: int, out: Output)
    requires indent == COMPACT || indent > 0
    modifies out
    ensures out.text == old(out.text) + ItemText(item, first, indent)
    decreases item, 2
  {
    ghost var before := out.text;
    WriteLead(first, indent, out);
    Serialize(item, indent, out);
    Assoc(before, Lead(first, indent), Body(item, indent));
  }

  method SerializeMember(m: Member, first: bool, indent: int, out: Output)
    requires indent == COMPACT || indent > 0
    modifies out
    ensures out.text == old(out.text) + MemberText(m, first, indent)
    decreases m, 2
  {
    ghost var before := out.text;
    WriteLead(first, indent, out);
    SerializeString(m.key, out);
    ghost var keyed := out.text;
    out.Put(COLON);
    if indent != COMPACT {
      out.Put(SPACE);
    }
    assert out.text == keyed + AfterKey(indent);
    Serialize(m.value, indent, out);
    var lead, key, sep, value := Lead(first, indent), Quoted(m.key), AfterKey(indent), Body(m.value, indent);
    Assoc(keyed, sep, value);
    Assoc(before + lead, key, sep + value);
    Assoc(before, lead, key + (sep + value));
  }

  method SerializeArray(d: Doc, indent: int, out: Output)
    requires d.DArray? && indent >= COMPACT
    modifies out
    ensures out.text == old(out.text) + Body(d, indent)
    decreases d, 0
  {
    hide ItemText;
    var items := d.items;
    ghost var before := out.text;
    out.Put(LBRACKET);
    var inner := if indent != COMPACT then indent + 1 else indent;
    ghost var all, start := ItemsText(items, true, inner), out.text;
    assert items[0..] == items;
    for i := 0 to |items|
      invariant out.text + ItemsText(items[i..], i == 0, inner) == start + all
    {
      assert items[i..][0] == items[i] && items[i..][1..] == items[i + 1..];
      Assoc(out.text, ItemText(items[i], i == 0, inner), ItemsText(items[i + 1..], false, inner));
      SerializeItem(items[i], i == 0, inner, out);
    }
    assert out.text == start + all;
    if indent != COMPACT && items != [] {
      Indent(indent, out);
    }
    out.Put(RBRACKET);
    var closing := Closing(items == [], indent);
    Assoc(start + all, closing, [RBRACKET]);
    Assoc(start, all, closing + [RBRACKET]);
    Assoc(before, [LBRACKET], all + (closing + [RBRACKET]));
  }

  method SerializeObject(d: Doc, indent: int, out: Output)
    requires d.DObject? && indent >= COMPACT
    modifies out
    ensures out.text == old(out.text) + Body(d, indent)
    decreases d, 0
  {
    hide MemberText;
    var members := d.members;
    ghost var before := out.text;
    out.Put(LBRACE);
    var inner := if indent != COMPACT then indent + 1 else indent;
    ghost var all, start := MembersText(members, true, inner), out.text;
    assert members[0..] == members;
    for i := 0 to |members|
      invariant out.text + MembersText(members[i..], i == 0, inner) == start + all
    {
      assert members[i..][0] == members[i] && members[i..][1..] == members[i + 1..];
      Assoc(out.text, MemberText(members[i], i == 0, inner), MembersText(members[i + 1..], false, inner));
      SerializeMember(members[i], i == 0, inner, out);
    }
    assert out.text == start + all;
    if indent != COMPACT && members != [] {
      Indent(indent, out);
    }
    out.Put(RBRACE);
    var closing := Closing(members == [], indent);
    Assoc(start + all, closing, [RBRACE]);
    Assoc(start, all, closing + [RBRACE]);
    Assoc(before, [LBRACE], all + (closing + [RBRACE]));
  }
}
