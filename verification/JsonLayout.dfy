/**
 Pretty printing as a change of the compact text alone: line breaks and indentation by the number of
 open brackets, and a space after colons, outside strings.
 */
module JsonLayout {
  import opened Bytes
  import opened JsonGrammar
  import opened JsonPrinter
  import JsonRoundTrip

  predicate IsOpening(b: byte) {
    b as char in "[{"
  }

  predicate IsClosing(b: byte) {
    b as char in "]}"
  }

  predicate IsMark(b: byte) {
    b as char in "[]{},:\""
  }

  function Line(depth: int): Text {
    Ascii("\n") + seq(if depth < 0 then 0 else 2 * depth, _ => ' ' as int)
  }

  /** The compact text s laid out, inside depth brackets and inside a string or not. */
  function Laid(s: Text, depth: int, quoted: bool): Text
    decreases |s|
  {
    if s == [] then []
    else if quoted && s[0] == '\\' as int && |s| > 1 then s[..2] + Laid(s[2..], depth, true)
    else if quoted || s[0] == '"' as int then [s[0]] + Laid(s[1..], depth, quoted == (s[0] != '"' as int))
    else if IsOpening(s[0]) && |s| > 1 && IsClosing(s[1]) then s[..2] + Laid(s[2..], depth, false)
    else if IsOpening(s[0]) then [s[0]] + Line(depth + 1) + Laid(s[1..], depth + 1, false)
    else if IsClosing(s[0]) then Line(depth - 1) + [s[0]] + Laid(s[1..], depth - 1, false)
    else if s[0] == ',' as int then [s[0]] + Line(depth) + Laid(s[1..], depth, false)
    else if s[0] == ':' as int then [s[0]] + Ascii(" ") + Laid(s[1..], depth, false)
    else [s[0]] + Laid(s[1..], depth, false)
  }

  lemma MarkExactly(b: byte)
    ensures IsMark(b) <==> IsOpening(b) || IsClosing(b) || b == COMMA || b == COLON || b == QUOTE
    ensures IsOpening(b) <==> b == LBRACKET || b == LBRACE
    ensures IsClosing(b) <==> b == RBRACKET || b == RBRACE
  {
    assert "[]{},:\"" == ['[', ']', '{', '}', ',', ':', '"'];
    assert "[{" == ['[', '{'] && "]}" == [']', '}'];
  }

  lemma LineIsIndentation(depth: int)
    requires depth >= 0
    ensures Line(depth) == Indentation(depth)
  {
  }

  // One step of the layout.

  lemma LaidMark(b: byte, t: Text, depth: int)
    requires b == COMMA || b == COLON
    ensures Laid([b] + t, depth, false) == [b] + (if b == COMMA then Line(depth) else [SPACE]) + Laid(t, depth, false)
  {
    hide Line;
    MarkExactly(b);
    assert ([b] + t)[1..] == t;
    assert Ascii(" ") == [SPACE];
  }

  lemma LaidOpening(b: byte, t: Text, depth: int)
    requires (b == LBRACKET || b == LBRACE) && t != []
    ensures IsClosing(t[0]) ==> Laid([b] + t, depth, false) == [b, t[0]] + Laid(t[1..], depth, false)
    ensures !IsClosing(t[0]) ==> Laid([b] + t, depth, false) == [b] + Line(depth + 1) + Laid(t, depth + 1, false)
  {
    hide Line;
    MarkExactly(b);
    var s := [b] + t;
    assert s[1..] == t && s[2..] == t[1..] && s[..2] == [b, t[0]];
  }

  lemma LaidClosing(b: byte, t: Text, depth: int)
    requires b == RBRACKET || b == RBRACE
    ensures Laid([b] + t, depth, false) == Line(depth - 1) + [b] + Laid(t, depth - 1, false)
  {
    hide Line;
    MarkExactly(b);
    assert ([b] + t)[1..] == t;
  }

  lemma {:induction false} LaidPlain(t: Text, rest: Text, depth: int)
    requires forall i | 0 <= i < |t| :: !IsMark(t[i])
    ensures Laid(t + rest, depth, false) == t + Laid(rest, depth, false)
  {
    if t == [] {
      assert t + rest == rest;
    } else {
      hide Line, IsMark, IsOpening, IsClosing;
      MarkExactly(t[0]);
      assert (t + rest)[1..] == t[1..] + rest;
      LaidPlain(t[1..], rest, depth);
      assert t == [t[0]] + t[1..];
    }
  }

  lemma LaidChar(c: byte, rest: Text, depth: int)
    ensures Laid(EscapedChar(c) + rest, depth, true) == EscapedChar(c) + Laid(rest, depth, true)
  {
    var e := EscapedChar(c);
    var s := e + rest;
    if |e| == 1 {
      assert s[1..] == rest;
    } else if |e| == 2 {
      assert s[..2] == e && s[2..] == rest;
    } else {
      LaidDigits(e[2], e[3], e[4], e[5], rest, depth);
      assert s[..2] == e[..2] && s[2..] == [e[2], e[3], e[4], e[5]] + rest;
      assert e == e[..2] + [e[2], e[3], e[4], e[5]];
    }
  }

  lemma LaidDigit(d: byte, rest: Text, depth: int)
    requires d != BACKSLASH && d != QUOTE
    ensures Laid([d] + rest, depth, true) == [d] + Laid(rest, depth, true)
  {
    assert ([d] + rest)[1..] == rest;
  }

  lemma LaidDigits(p: byte, q: byte, x: byte, y: byte, rest: Text, depth: int)
    requires p != BACKSLASH && q != BACKSLASH && x != BACKSLASH && y != BACKSLASH
    requires p != QUOTE && q != QUOTE && x != QUOTE && y != QUOTE
    ensures Laid([p, q, x, y] + rest, depth, true) == [p, q, x, y] + Laid(rest, depth, true)
  {
    hide Laid;
    LaidDigit(y, rest, depth);
    LaidDigit(x, [y] + rest, depth);
    LaidDigit(q, [x] + ([y] + rest), depth);
    LaidDigit(p, [q] + ([x] + ([y] + rest)), depth);
    assert [p, q, x, y] + rest == [p] + ([q] + ([x] + ([y] + rest)));
    var r := Laid(rest, depth, true);
    assert [p, q, x, y] + r == [p] + ([q] + ([x] + ([y] + r)));
  }

  lemma {:induction false} LaidChars(str: Text, rest: Text, depth: int)
    ensures Laid(EscapedChars(str) + ([QUOTE] + rest), depth, true)
         == EscapedChars(str) + ([QUOTE] + Laid(rest, depth, false))
  {
    if str == [] {
      assert ([QUOTE] + rest)[1..] == rest;
      assert EscapedChars(str) + ([QUOTE] + rest) == [QUOTE] + rest;
    } else {
      hide EscapedChar, Laid;
      var more := EscapedChars(str[1..]);
      Assoc(EscapedChar(str[0]), more, [QUOTE] + rest);
      LaidChar(str[0], more + ([QUOTE] + rest), depth);
      LaidChars(str[1..], rest, depth);
      Assoc(EscapedChar(str[0]), more, [QUOTE] + Laid(rest, depth, false));
    }
  }

  lemma LaidQuoted(str: Text, rest: Text, depth: int)
    ensures Laid(Quoted(str) + rest, depth, false) == Quoted(str) + Laid(rest, depth, false)
  {
    var chars := EscapedChars(str);
    var s := Quoted(str) + rest;
    hide EscapedChars, Line;
    assert s == [QUOTE] + (chars + ([QUOTE] + rest));
    assert s[1..] == chars + ([QUOTE] + rest);
    LaidChars(str, rest, depth);
    var r := Laid(rest, depth, false);
    assert Quoted(str) + r == [QUOTE] + (chars + ([QUOTE] + r));
  }

  // Documents.

  lemma FirstIsNoClosing(d: Doc, rest: Text)
    ensures Body(d, COMPACT) != [] && !IsClosing((Body(d, COMPACT) + rest)[0])
  {
    MarkExactly((Body(d, COMPACT) + rest)[0]);
  }

  lemma ScalarLaid(d: Doc, depth: nat, rest: Text)
    requires !d.DArray? && !d.DObject?
    ensures Laid(Body(d, COMPACT) + rest, depth, false) == Body(d, depth) + Laid(rest, depth, false)
  {
    if d.DString? {
      LaidQuoted(d.s, rest, depth);
    } else {
      var t := Body(d, COMPACT);
      forall i | 0 <= i < |t| ensures !IsMark(t[i]) {
        MarkExactly(t[i]);
      }
      LaidPlain(t, rest, depth);
    }
  }

  /** The pretty text of a document is its compact text laid out. */
  lemma {:induction false} BodyLaid(d: Doc, depth: nat, rest: Text)
    ensures Laid(Body(d, COMPACT) + rest, depth, false) == Body(d, depth) + Laid(rest, depth, false)
    decreases d, 1
  {
    if d.DArray? {
      ArrayLaid(d, depth, rest);
    } else if d.DObject? {
      ObjectLaid(d, depth, rest);
    } else {
      ScalarLaid(d, depth, rest);
    }
  }

  lemma NoBreak(first: bool)
    ensures Lead(first, COMPACT) == if first then [] else [COMMA]
  {
  }

  /** The items after the first, each with its comma, up to the closing bracket. */
  lemma {:induction false} ItemsLaid(items: seq<Doc>, depth: nat, rest: Text)
    requires depth > 0
    ensures Laid(ItemsText(items, false, COMPACT) + rest, depth, false)
            == ItemsText(items, false, depth) + Laid(rest, depth, false)
    decreases items, 0
  {
    hide Laid, Body;
    if items == [] {
      NoItemsText(items, depth, rest);
    } else {
      var more := ItemsText(items[1..], false, COMPACT) + rest;
      FirstItem(items, false, COMPACT, rest);
      NoBreak(false);
      LaidMark(COMMA, Body(items[0], COMPACT) + more, depth);
      BodyLaid(items[0], depth, more);
      ItemsLaid(items[1..], depth, rest);
      FirstItem(items, false, depth, Laid(rest, depth, false));
      LineIsIndentation(depth);
      Assoc([COMMA] + Line(depth), Body(items[0], depth), Laid(more, depth, false));
    }
  }

  lemma NoItemsText(items: seq<Doc>, depth: nat, rest: Text)
    requires items == [] && depth > 0
    ensures ItemsText(items, false, COMPACT) + rest == rest
    ensures ItemsText(items, false, depth) + Laid(rest, depth, false) == Laid(rest, depth, false)
  {
    hide Laid;
  }

  lemma FirstItem(items: seq<Doc>, first: bool, indent: int, rest: Text)
    requires items != [] && (indent == COMPACT || indent > 0)
    ensures ItemsText(items, first, indent) + rest
            == Lead(first, indent) + (Body(items[0], indent) + (ItemsText(items[1..], false, indent) + rest))
  {
    hide Body, Lead;
    Assoc(Lead(first, indent) + Body(items[0], indent), ItemsText(items[1..], false, indent), rest);
    Assoc(Lead(first, indent), Body(items[0], indent), ItemsText(items[1..], false, indent) + rest);
  }

  lemma EmptyLaid(open: byte, close: byte, depth: nat, rest: Text)
    requires open == LBRACKET || open == LBRACE
    requires close == RBRACKET || close == RBRACE
    ensures Laid([open] + ([close] + rest), depth, false) == [open] + ([close] + Laid(rest, depth, false))
  {
    hide Laid;
    MarkExactly(close);
    LaidOpening(open, [close] + rest, depth);
    assert ([close] + rest)[1..] == rest;
  }

  /** The elements between brackets, of which the first starts a line. */
  lemma InsideLaid(open: byte, close: byte, depth: nat, compact: Text, pretty: Text, rest: Text)
    requires open == LBRACKET || open == LBRACE
    requires close == RBRACKET || close == RBRACE
    requires compact != [] && !IsClosing(compact[0])
    requires Indentation(depth + 1) + Laid(compact + ([close] + rest), depth + 1, false)
             == pretty + Laid([close] + rest, depth + 1, false)
    ensures Laid([open] + (compact + ([close] + rest)), depth, false)
            == [open] + (pretty + (Closing(false, depth) + [close] + Laid(rest, depth, false)))
  {
    hide Laid, Indentation;
    LaidOpening(open, compact + ([close] + rest), depth);
    LaidClosing(close, rest, depth + 1);
    LineIsIndentation(depth);
    LineIsIndentation(depth + 1);
    Assoc([open], Line(depth + 1), Laid(compact + ([close] + rest), depth + 1, false));
  }

  lemma NothingCloses(close: byte, rest: Text)
    ensures Closing(true, COMPACT) + [close] + rest == [close] + rest
    ensures Closing(false, COMPACT) + [close] + rest == [close] + rest
    ensures [] + ([close] + rest) == [close] + rest
  {
  }

  lemma FirstItemLaid(items: seq<Doc>, depth: nat, rest: Text)
    requires items != [] && depth > 0
    ensures Indentation(depth) + Laid(ItemsText(items, true, COMPACT) + rest, depth, false)
            == ItemsText(items, true, depth) + Laid(rest, depth, false)
    ensures ItemsText(items, true, COMPACT) != [] && !IsClosing(ItemsText(items, true, COMPACT)[0])
    decreases items, 1
  {
    hide Laid, Body, Indentation;
    var more := ItemsText(items[1..], false, COMPACT) + rest;
    FirstItem(items, true, COMPACT, rest);
    FirstItem(items, true, COMPACT, []);
    NoBreak(true);
    assert [] + (Body(items[0], COMPACT) + more) == Body(items[0], COMPACT) + more;
    FirstIsNoClosing(items[0], ItemsText(items[1..], false, COMPACT));
    BodyLaid(items[0], depth, more);
    ItemsLaid(items[1..], depth, rest);
    FirstItem(items, true, depth, Laid(rest, depth, false));
    LeadFirst(depth);
  }

  lemma ArrayLaid(d: Doc, depth: nat, rest: Text)
    requires d.DArray?
    ensures Laid(Body(d, COMPACT) + rest, depth, false) == Body(d, depth) + Laid(rest, depth, false)
    decreases d, 0
  {
    var items, r := d.items, Laid(rest, depth, false);
    var compact, pretty := ItemsText(items, true, COMPACT), ItemsText(items, true, depth + 1);
    JsonRoundTrip.BracketSplit(Body(d, COMPACT), LBRACKET, compact, Closing(items == [], COMPACT), RBRACKET, rest);
    JsonRoundTrip.BracketSplit(Body(d, depth), LBRACKET, pretty, Closing(items == [], depth), RBRACKET, r);
    hide Laid, Body;
    NothingCloses(RBRACKET, rest);
    if items == [] {
      EmptyLaid(LBRACKET, RBRACKET, depth, rest);
      assert compact == [] && pretty == [];
      NothingCloses(RBRACKET, r);
    } else {
      FirstItemLaid(items, depth + 1, [RBRACKET] + rest);
      InsideLaid(LBRACKET, RBRACKET, depth, compact, pretty, rest);
    }
  }

  lemma LeadFirst(depth: nat)
    ensures Lead(true, depth) == Indentation(depth) && Lead(false, depth) == [COMMA] + Indentation(depth)
  {
  }

  // Objects.

  lemma FirstMember(ms: seq<Member>, first: bool, indent: int, rest: Text)
    requires ms != [] && (indent == COMPACT || indent > 0)
    ensures MembersText(ms, first, indent) + rest
            == Lead(first, indent) + (Quoted(ms[0].key) + (AfterKey(indent) + (Body(ms[0].value, indent)
                 + (MembersText(ms[1..], false, indent) + rest))))
  {
    hide Body, Lead, Quoted, AfterKey;
    var more := MembersText(ms[1..], false, indent);
    var q, k, b := Quoted(ms[0].key), AfterKey(indent), Body(ms[0].value, indent);
    Assoc(Lead(first, indent) + (q + (k + b)), more, rest);
    Assoc(Lead(first, indent), q + (k + b), more + rest);
    Assoc(q, k + b, more + rest);
    Assoc(k, b, more + rest);
  }

  /** A key, its colon and its value. */
  lemma MemberLaid(m: Member, depth: nat, more: Text)
    requires depth > 0
    ensures Laid(Quoted(m.key) + (AfterKey(COMPACT) + (Body(m.value, COMPACT) + more)), depth, false)
            == Quoted(m.key) + (AfterKey(depth) + (Body(m.value, depth) + Laid(more, depth, false)))
    decreases m, 2
  {
    hide Laid, Body, Quoted;
    LaidQuoted(m.key, AfterKey(COMPACT) + (Body(m.value, COMPACT) + more), depth);
    LaidMark(COLON, Body(m.value, COMPACT) + more, depth);
    BodyLaid(m.value, depth, more);
  }

  lemma {:induction false} MembersLaid(ms: seq<Member>, depth: nat, rest: Text)
    requires depth > 0
    ensures Laid(MembersText(ms, false, COMPACT) + rest, depth, false)
            == MembersText(ms, false, depth) + Laid(rest, depth, false)
    decreases ms, 0
  {
    hide Laid, Body, Quoted, AfterKey;
    if ms == [] {
      NoMembersText(ms, depth, rest);
    } else {
      var more := MembersText(ms[1..], false, COMPACT) + rest;
      var member := Quoted(ms[0].key) + (AfterKey(COMPACT) + (Body(ms[0].value, COMPACT) + more));
      FirstMember(ms, false, COMPACT, rest);
      NoBreak(false);
      LaidMark(COMMA, member, depth);
      MemberLaid(ms[0], depth, more);
      MembersLaid(ms[1..], depth, rest);
      FirstMember(ms, false, depth, Laid(rest, depth, false));
      LineIsIndentation(depth);
      LeadFirst(depth);
    }
  }

  lemma NoMembersText(ms: seq<Member>, depth: nat, rest: Text)
    requires ms == [] && depth > 0
    ensures MembersText(ms, false, COMPACT) + rest == rest
    ensures MembersText(ms, false, depth) + Laid(rest, depth, false) == Laid(rest, depth, false)
  {
    hide Laid;
  }

  lemma FirstMemberLaid(ms: seq<Member>, depth: nat, rest: Text)
    requires ms != [] && depth > 0
    ensures Indentation(depth) + Laid(MembersText(ms, true, COMPACT) + rest, depth, false)
            == MembersText(ms, true, depth) + Laid(rest, depth, false)
    ensures MembersText(ms, true, COMPACT) != [] && !IsClosing(MembersText(ms, true, COMPACT)[0])
    decreases ms, 1
  {
    hide Laid, Body, Indentation, Quoted, AfterKey;
    var more := MembersText(ms[1..], false, COMPACT) + rest;
    var member := Quoted(ms[0].key) + (AfterKey(COMPACT) + (Body(ms[0].value, COMPACT) + more));
    FirstMember(ms, true, COMPACT, rest);
    FirstMember(ms, true, COMPACT, []);
    NoBreak(true);
    assert [] + member == member;
    QuotedOpens(ms[0].key, AfterKey(COMPACT) + (Body(ms[0].value, COMPACT) + MembersText(ms[1..], false, COMPACT)));
    MemberLaid(ms[0], depth, more);
    MembersLaid(ms[1..], depth, rest);
    FirstMember(ms, true, depth, Laid(rest, depth, false));
    LeadFirst(depth);
  }

  lemma ObjectLaid(d: Doc, depth: nat, rest: Text)
    requires d.DObject?
    ensures Laid(Body(d, COMPACT) + rest, depth, false) == Body(d, depth) + Laid(rest, depth, false)
    decreases d, 0
  {
    var ms, r := d.members, Laid(rest, depth, false);
    var compact, pretty := MembersText(ms, true, COMPACT), MembersText(ms, true, depth + 1);
    JsonRoundTrip.BracketSplit(Body(d, COMPACT), LBRACE, compact, Closing(ms == [], COMPACT), RBRACE, rest);
    JsonRoundTrip.BracketSplit(Body(d, depth), LBRACE, pretty, Closing(ms == [], depth), RBRACE, r);
    hide Laid, Body;
    NothingCloses(RBRACE, rest);
    if ms == [] {
      EmptyLaid(LBRACE, RBRACE, depth, rest);
      assert compact == [] && pretty == [];
      NothingCloses(RBRACE, r);
    } else {
      FirstMemberLaid(ms, depth + 1, [RBRACE] + rest);
      InsideLaid(LBRACE, RBRACE, depth, compact, pretty, rest);
    }
  }

  lemma QuotedOpens(key: Text, rest: Text)
    ensures Quoted(key) + rest != [] && !IsClosing((Quoted(key) + rest)[0])
  {
    MarkExactly(QUOTE);
  }

  /** The pretty serialisation is the compact one laid out, and a newline. */
  lemma SerializedLaid(d: Doc)
    ensures Serialized(d, 0) == Laid(Serialized(d, COMPACT), 0, false) + Ascii("\n")
  {
    hide Body;
    BodyLaid(d, 0, []);
    assert Body(d, COMPACT) + [] == Body(d, COMPACT);
    assert Ascii("\n") == [NEWLINE];
  }
}
