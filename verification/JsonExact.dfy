/**
 The parser reads exactly the texts of well-formed trees: every such text is read as its meaning,
 and whatever is read is such a text.
 */
module JsonExact {
  import opened Bytes
  import opened JsonGrammar
  import JsonPrinter
  import opened JsonRoundTrip
  import opened JsonLanguage

  // White space and punctuation.

  lemma SkipBlank(gap: Text, s: Text)
    requires Blank(gap) && (s == [] || !IsSpace(s[0]))
    ensures SkipSpace(gap + s) == s
  {
    forall i | 0 <= i < |gap| ensures IsSpace(gap[i]) {
      SpaceExactly(gap[i]);
    }
    SkipOver(gap, s);
    SkipStops(s);
  }

  lemma {:induction false} Skipped(s: Text) returns (gap: Text)
    ensures Blank(gap) && s == gap + SkipSpace(s)
  {
    if s != [] && IsSpace(s[0]) {
      var more := Skipped(s[1..]);
      SpaceExactly(s[0]);
      gap := [s[0]] + more;
      assert s == [s[0]] + s[1..];
    } else {
      gap := [];
    }
  }

  lemma Punctuation()
    ensures Ascii("[") == [LBRACKET] && Ascii("]") == [RBRACKET] && Ascii("{") == [LBRACE] && Ascii("}") == [RBRACE]
    ensures Ascii(",") == [COMMA] && Ascii(":") == [COLON] && Ascii("\"") == [QUOTE]
    ensures Ascii("null") == [LETTER_N] + ULL && Ascii("true") == [LETTER_T] + RUE && Ascii("false") == [LETTER_F] + ALSE
  {
  }

  predicate Stops(tail: Text) {
    tail != [] && (tail[0] == COMMA || tail[0] == RBRACKET || tail[0] == RBRACE)
  }

  lemma StopsAfter(after: Text, tail: Text)
    requires Blank(after) && Stops(tail)
    ensures SkipSpace(after + tail) == tail && SkipSpace(tail) == tail && NumberEnds(after + tail)
  {
    SkipBlank(after, tail);
    SkipStops(tail);
    if after != [] {
      SpaceExactly(after[0]);
    }
  }

  // Splitting texts.

  lemma ItemSplit(item: Item, tail: Text)
    ensures ItemText(item) + tail == item.before + (TextOf(item.tree) + (item.after + tail))
  {
    hide TextOf;
    JsonPrinter.Assoc(item.before + TextOf(item.tree), item.after, tail);
    JsonPrinter.Assoc(item.before, TextOf(item.tree), item.after + tail);
  }

  /** The text of a list is that of its first element, and a comma and the rest if there is more. */
  lemma ItemsSplit(items: seq<Item>, tail: Text)
    requires items != []
    ensures ItemTexts(items) + tail
            == ItemText(items[0]) + (if |items| == 1 then tail else [COMMA] + (ItemTexts(items[1..]) + tail))
  {
    hide ItemText;
    Punctuation();
    if |items| > 1 {
      JsonPrinter.Assoc(ItemText(items[0]) + [COMMA], ItemTexts(items[1..]), tail);
      JsonPrinter.Assoc(ItemText(items[0]), [COMMA], ItemTexts(items[1..]) + tail);
    }
  }

  lemma EntriesSplit(entries: seq<Entry>, tail: Text)
    requires entries != []
    ensures EntryTexts(entries) + tail
            == EntryText(entries[0]) + (if |entries| == 1 then tail else [COMMA] + (EntryTexts(entries[1..]) + tail))
  {
    hide EntryText;
    Punctuation();
    if |entries| > 1 {
      JsonPrinter.Assoc(EntryText(entries[0]) + [COMMA], EntryTexts(entries[1..]), tail);
      JsonPrinter.Assoc(EntryText(entries[0]), [COMMA], EntryTexts(entries[1..]) + tail);
    }
  }

  lemma QuotationSplit(pieces: seq<Piece>, tail: Text)
    ensures QuotationText(pieces) + tail == [QUOTE] + (PiecesText(pieces) + ([QUOTE] + tail))
  {
    Punctuation();
    hide PiecesText, Ascii;
    JsonPrinter.Assoc([QUOTE] + PiecesText(pieces), [QUOTE], tail);
    JsonPrinter.Assoc([QUOTE], PiecesText(pieces), [QUOTE] + tail);
  }

  lemma EntrySplit(entry: Entry, tail: Text)
    ensures EntryText(entry) + tail
            == entry.before + (QuotationText(entry.key) + (entry.colon + ([COLON] + (ItemText(entry.item) + tail))))
  {
    Punctuation();
    hide QuotationText, ItemText, Ascii;
    var b, q, c, item := entry.before, QuotationText(entry.key), entry.colon, ItemText(entry.item);
    JsonPrinter.Assoc(b + q + c + [COLON], item, tail);
    JsonPrinter.Assoc(b + q + c, [COLON], item + tail);
    JsonPrinter.Assoc(b + q, c, [COLON] + (item + tail));
    JsonPrinter.Assoc(b, q, c + ([COLON] + (item + tail)));
  }

  lemma BracketsSplit(opening: byte, inside: Text, close: byte, rest: Text)
    ensures [opening] + inside + [close] + rest == [opening] + (inside + ([close] + rest))
  {
    JsonPrinter.Assoc([opening] + inside, [close], rest);
    JsonPrinter.Assoc([opening], inside, [close] + rest);
  }

  // Every text of a well-formed tree is read as its meaning.

  lemma FirstOfTree(strtod: Text -> Reading, t: Tree)
    requires WellFormed(strtod, t)
    ensures TextOf(t) != [] && !IsSpace(TextOf(t)[0]) && TextOf(t)[0] != RBRACKET && TextOf(t)[0] != RBRACE
  {
    Punctuation();
    if t.Numeral? {
      SignOrDigit(t.run[0]);
    }
  }

  lemma SignOrDigit(b: byte)
    ensures b as char in "-0123456789" <==> b == MINUS || IsDigit(b)
  {
    assert "-0123456789" == ['-', '0', '1', '2', '3', '4', '5', '6', '7', '8', '9'];
  }

  lemma WordRead(strtod: Text -> Reading, v: Value, rest: Text)
    requires v.Null? || v.Bool?
    ensures ParseValue(strtod, TextOf(Word(v)) + rest) == Ok(v, rest)
  {
    Punctuation();
    var s := TextOf(Word(v)) + rest;
    SkipStops(s);
    var word := if v.Null? then ULL else if v.b then RUE else ALSE;
    assert s[1..] == word + rest;
    assert word <= s[1..] && s[1..][|word|..] == rest;
  }

  lemma NumeralRead(strtod: Text -> Reading, t: Tree, rest: Text)
    requires t.Numeral? && WellFormed(strtod, t) && NumberEnds(rest)
    ensures ParseValue(strtod, t.run + rest) == Ok(Number(t.x), rest)
  {
    var s := t.run + rest;
    SignOrDigit(t.run[0]);
    forall i | 0 <= i < |t.run| ensures IsNumberChar(t.run[i]) {
      NumericExactly(t.run[i]);
    }
    assert s[0] == t.run[0];
    SkipStops(s);
    NumberLengthOf(t.run, rest);
    assert s[..|t.run|] == t.run && s[|t.run|..] == rest;
  }

  lemma QuotationRead(strtod: Text -> Reading, pieces: seq<Piece>, rest: Text)
    requires GoodPieces(pieces)
    ensures ParseValue(strtod, QuotationText(pieces) + rest) == Ok(String(PiecesBytes(pieces)), rest)
  {
    hide QuotationText, PiecesText, PiecesBytes;
    QuotationSplit(pieces, rest);
    var s := QuotationText(pieces) + rest;
    SkipStops(s);
    assert s[1..] == PiecesText(pieces) + ([QUOTE] + rest);
    PiecesRead(pieces, rest);
  }

  lemma {:induction false} TreeRead(strtod: Text -> Reading, t: Tree, rest: Text)
    requires WellFormed(strtod, t) && (t.Numeral? ==> NumberEnds(rest))
    ensures ParseValue(strtod, TextOf(t) + rest) == Ok(Meaning(t), rest)
    decreases t, 1
  {
    match t
    case Word(v) => WordRead(strtod, v, rest);
    case Numeral(_, _) => NumeralRead(strtod, t, rest);
    case Quotation(pieces) => QuotationRead(strtod, pieces, rest);
    case Sequence(_, _) => SequenceRead(strtod, t, rest);
    case Record(_, _) => RecordRead(strtod, t, rest);
  }

  lemma ItemRead(strtod: Text -> Reading, item: Item, tail: Text)
    requires GoodItem(strtod, item) && Stops(tail)
    ensures ParseValue(strtod, ItemText(item) + tail) == Ok(Meaning(item.tree), item.after + tail)
    ensures SkipSpace(item.after + tail) == tail && SkipSpace(tail) == tail
    decreases item, 2
  {
    var after := item.after + tail;
    FirstOfTree(strtod, item.tree);
    ItemSplit(item, tail);
    StopsAfter(item.after, tail);
    hide TextOf, ParseValue, WellFormed, NumberEnds, SkipSpace, Blank;
    SkipBlank(item.before, TextOf(item.tree) + after);
    SkipStops(TextOf(item.tree) + after);
    ParseSkipsSpace(strtod, ItemText(item) + tail, TextOf(item.tree) + after);
    TreeRead(strtod, item.tree, after);
  }

  lemma {:induction false} ItemsRead(strtod: Text -> Reading, items: seq<Item>, read: seq<Value>, rest: Text)
    requires items != [] && forall i | 0 <= i < |items| :: GoodItem(strtod, items[i])
    ensures ParseItems(strtod, ItemTexts(items) + ([RBRACKET] + rest), read) == Ok(Array(read + Meanings(items)), rest)
    decreases items, 0
  {
    hide ParseValue, ItemTexts, ItemText, GoodItem, SkipSpace;
    var tail := [RBRACKET] + rest;
    ItemsSplit(items, tail);
    MeaningsStep(items, read);
    if |items| == 1 {
      ItemRead(strtod, items[0], tail);
      assert tail[1..] == rest;
    } else {
      var more := ItemTexts(items[1..]) + tail;
      ItemRead(strtod, items[0], [COMMA] + more);
      assert ([COMMA] + more)[1..] == more;
      ItemsRead(strtod, items[1..], read + [Meaning(items[0].tree)], rest);
    }
  }

  lemma MeaningsUnfold(items: seq<Item>)
    requires items != []
    ensures Meanings(items) == [Meaning(items[0].tree)] + Meanings(items[1..])
    ensures |items| == 1 ==> Meanings(items[1..]) == []
  {
    hide Meaning;
  }

  lemma MeaningsStep(items: seq<Item>, read: seq<Value>)
    requires items != []
    ensures read + Meanings(items) == read + [Meaning(items[0].tree)] + Meanings(items[1..])
    ensures |items| == 1 ==> read + Meanings(items) == read + [Meaning(items[0].tree)]
  {
    hide Meaning, Meanings;
    MeaningsUnfold(items);
  }

  lemma SequenceRead(strtod: Text -> Reading, t: Tree, rest: Text)
    requires t.Sequence? && WellFormed(strtod, t)
    ensures ParseValue(strtod, TextOf(t) + rest) == Ok(Meaning(t), rest)
    decreases t, 0
  {
    var inside := if t.items == [] then t.gap else ItemTexts(t.items);
    var tail := [RBRACKET] + rest;
    Punctuation();
    BracketsSplit(LBRACKET, inside, RBRACKET, rest);
    ArrayOpens(strtod, inside + tail);
    hide ParseValue, ParseItems, ItemTexts, Ascii;
    assert tail[1..] == rest;
    if t.items == [] {
      SkipBlank(t.gap, tail);
    } else {
      ItemsRead(strtod, t.items, [], rest);
      FirstOfItems(strtod, t.items, tail);
      ItemsSkipSpace(strtod, inside + tail, []);
      assert [] + Meanings(t.items) == Meanings(t.items);
    }
  }

  lemma FirstOfItems(strtod: Text -> Reading, items: seq<Item>, tail: Text)
    requires items != [] && forall i | 0 <= i < |items| :: GoodItem(strtod, items[i])
    ensures !Expects(ItemTexts(items) + tail, RBRACKET)
  {
    hide ItemTexts, TextOf, WellFormed;
    ItemsSplit(items, tail);
    var next := if |items| == 1 then tail else [COMMA] + (ItemTexts(items[1..]) + tail);
    assert GoodItem(strtod, items[0]);
    ItemSplit(items[0], next);
    FirstOfTree(strtod, items[0].tree);
    SkipBlank(items[0].before, TextOf(items[0].tree) + (items[0].after + next));
  }

  lemma KeyRead(entry: Entry, tail: Text)
    requires Blank(entry.before) && GoodPieces(entry.key) && Blank(entry.colon)
    ensures ParseKey(EntryText(entry) + tail) == Ok(PiecesBytes(entry.key), ItemText(entry.item) + tail)
    ensures !Expects(EntryText(entry) + tail, RBRACE)
  {
    hide ItemText, QuotationText, PiecesText, PiecesBytes, EntryText, Blank, GoodPieces;
    var item := ItemText(entry.item) + tail;
    var t := entry.colon + ([COLON] + item);
    EntrySplit(entry, tail);
    QuotationSplit(entry.key, t);
    SkipBlank(entry.before, QuotationText(entry.key) + t);
    assert (QuotationText(entry.key) + t)[1..] == PiecesText(entry.key) + ([QUOTE] + t);
    PiecesRead(entry.key, t);
    SkipBlank(entry.colon, [COLON] + item);
    assert ([COLON] + item)[1..] == item;
  }

  lemma {:induction false} EntriesRead(strtod: Text -> Reading, entries: seq<Entry>, read: map<Text, Value>, rest: Text)
    requires entries != [] && forall i | 0 <= i < |entries| :: GoodEntry(strtod, entries[i])
    ensures ParseMembers(strtod, EntryTexts(entries) + ([RBRACE] + rest), read) == Ok(Object(Collected(entries, read)), rest)
    decreases entries, 0
  {
    hide ParseValue, ParseKey, EntryTexts, EntryText, ItemText, SkipSpace, PiecesBytes, WellFormed, Blank, GoodPieces;
    var tail := [RBRACE] + rest;
    EntriesSplit(entries, tail);
    var first := entries[0];
    assert GoodEntry(strtod, first);
    if |entries| == 1 {
      KeyRead(first, tail);
      ItemRead(strtod, first.item, tail);
      assert tail[1..] == rest;
    } else {
      var more := EntryTexts(entries[1..]) + tail;
      KeyRead(first, [COMMA] + more);
      ItemRead(strtod, first.item, [COMMA] + more);
      assert ([COMMA] + more)[1..] == more;
      EntriesRead(strtod, entries[1..], read[PiecesBytes(first.key) := Meaning(first.item.tree)], rest);
    }
  }

  lemma RecordRead(strtod: Text -> Reading, t: Tree, rest: Text)
    requires t.Record? && WellFormed(strtod, t)
    ensures ParseValue(strtod, TextOf(t) + rest) == Ok(Meaning(t), rest)
    decreases t, 0
  {
    var inside := if t.entries == [] then t.gap else EntryTexts(t.entries);
    var tail := [RBRACE] + rest;
    Punctuation();
    BracketsSplit(LBRACE, inside, RBRACE, rest);
    ArrayOpens(strtod, inside + tail);
    hide ParseValue, ParseMembers, EntryTexts, EntryText, Ascii, Expects, Collected;
    assert tail[1..] == rest;
    if t.entries == [] {
      SkipBlank(t.gap, tail);
      ExpectsNext(t.gap + tail, RBRACE);
    } else {
      EntriesRead(strtod, t.entries, map[], rest);
      EntriesSplit(t.entries, tail);
      assert GoodEntry(strtod, t.entries[0]);
      KeyRead(t.entries[0], if |t.entries| == 1 then tail else [COMMA] + (EntryTexts(t.entries[1..]) + tail));
      MembersSkipSpace(strtod, inside + tail, map[]);
    }
  }

  lemma ExpectsNext(s: Text, c: byte)
    ensures Expects(s, c) <==> SkipSpace(s) != [] && SkipSpace(s)[0] == c
  {
  }

  // Whatever is read is such a text.

  /** The text s is white space, the text of a well-formed tree that means v, and rest. */
  predicate Written(strtod: Text -> Reading, s: Text, gap: Text, t: Tree, v: Value, rest: Text) {
    && Blank(gap) && WellFormed(strtod, t) && s == gap + (TextOf(t) + rest) && v == Meaning(t)
    && (t.Numeral? ==> NumberEnds(rest))
  }

  lemma {:induction false} RunOf(s: Text)
    ensures var n := NumberLength(s); IsNumeric(s[..n]) && NumberEnds(s[n..])
  {
    if s != [] && IsNumberChar(s[0]) {
      RunOf(s[1..]);
      NumericExactly(s[0]);
      var n := NumberLength(s[1..]);
      assert s[..n + 1] == [s[0]] + s[1..][..n];
      assert s[n + 1..] == s[1..][n..];
    }
  }

  lemma NumeralParsed(strtod: Text -> Reading, s: Text) returns (t: Tree)
    requires s != [] && (IsDigit(s[0]) || s[0] == MINUS) && NumberValue(strtod, s).Ok?
    ensures var r := NumberValue(strtod, s); Written(strtod, s, [], t, r.value, r.rest)
  {
    var n := NumberLength(s);
    RunOf(s);
    SignOrDigit(s[0]);
    t := Numeral(s[..n], strtod(s[..n]).n);
    assert s == [] + (s[..n] + s[n..]);
  }

  lemma WordParsed(strtod: Text -> Reading, s: Text, v: Value, first: byte, word: Text)
    requires (v.Null? || v.Bool?) && TextOf(Word(v)) == [first] + word
    requires s != [] && s[0] == first && Literal(v, s[1..], word).Ok?
    ensures Written(strtod, s, [], Word(v), v, Literal(v, s[1..], word).rest)
  {
    hide TextOf;
    assert s == [first] + (word + s[1..][|word|..]);
  }

  lemma ScalarParsed(strtod: Text -> Reading, s: Text) returns (t: Tree)
    requires s != [] && !IsSpace(s[0]) && s[0] != LBRACKET && s[0] != LBRACE && ParseValue(strtod, s).Ok?
    ensures var r := ParseValue(strtod, s); Written(strtod, s, [], t, r.value, r.rest)
  {
    Punctuation();
    SkipStops(s);
    hide Written, TextOf, NumberValue, StringBody, Literal;
    if s[0] == LETTER_N {
      t := Word(Null);
      TextOfWords();
      WordParsed(strtod, s, Null, LETTER_N, ULL);
    } else if s[0] == LETTER_F {
      t := Word(Bool(false));
      TextOfWords();
      WordParsed(strtod, s, Bool(false), LETTER_F, ALSE);
    } else if s[0] == LETTER_T {
      t := Word(Bool(true));
      TextOfWords();
      WordParsed(strtod, s, Bool(true), LETTER_T, RUE);
    } else if s[0] == QUOTE {
      t := QuotationParsed(strtod, s);
    } else {
      t := NumeralParsed(strtod, s);
    }
  }

  lemma TextOfWords()
    ensures TextOf(Word(Null)) == [LETTER_N] + ULL
    ensures TextOf(Word(Bool(false))) == [LETTER_F] + ALSE
    ensures TextOf(Word(Bool(true))) == [LETTER_T] + RUE
  {
    Punctuation();
  }

  lemma QuotationParsed(strtod: Text -> Reading, s: Text) returns (t: Tree)
    requires s != [] && s[0] == QUOTE && StringValue(s[1..]).Ok?
    ensures var r := StringValue(s[1..]); Written(strtod, s, [], t, r.value, r.rest)
  {
    hide PiecesText, PiecesBytes, QuotationText;
    var pieces := PiecesParsed(s[1..]);
    t := Quotation(pieces);
    QuotationSplit(pieces, StringBody(s[1..]).rest);
    assert s == [QUOTE] + s[1..];
  }

  /** One element up to the comma or the bracket after it. */
  lemma ItemParsed(strtod: Text -> Reading, s: Text) returns (item: Item)
    requires ParseValue(strtod, s).Ok?
    ensures GoodItem(strtod, item) && Meaning(item.tree) == ParseValue(strtod, s).value
    ensures s == ItemText(item) + SkipSpace(ParseValue(strtod, s).rest)
    decreases |s|, 3
  {
    var r := ParseValue(strtod, s);
    var gap, t := TreeParsed(strtod, s);
    var after := Skipped(r.rest);
    item := Item(gap, t, after);
    hide TextOf, ParseValue, WellFormed, Meaning;
    ItemSplit(item, SkipSpace(r.rest));
  }

  lemma AfterGap(strtod: Text -> Reading, gap: Text, s: Text, t: Tree, v: Value, rest: Text)
    requires Blank(gap) && Written(strtod, s, [], t, v, rest)
    ensures Written(strtod, gap + s, gap, t, v, rest)
  {
    hide TextOf, WellFormed, Meaning, Blank, NumberEnds;
    assert [] + (TextOf(t) + rest) == TextOf(t) + rest;
  }

  lemma {:induction false} TreeParsed(strtod: Text -> Reading, s: Text) returns (gap: Text, t: Tree)
    requires ParseValue(strtod, s).Ok?
    ensures var r := ParseValue(strtod, s); Written(strtod, s, gap, t, r.value, r.rest)
    decreases |s|, 2
  {
    hide Written, ParseArray, ParseObject, Literal, NumberValue, StringValue;
    gap := Skipped(s);
    var u := SkipSpace(s);
    SkipStops(u);
    ParseSkipsSpace(strtod, s, u);
    if u[0] == LBRACKET {
      t := SequenceParsed(strtod, u);
    } else if u[0] == LBRACE {
      t := RecordParsed(strtod, u);
    } else {
      t := ScalarParsed(strtod, u);
    }
    AfterGap(strtod, gap, u, t, ParseValue(strtod, s).value, ParseValue(strtod, s).rest);
  }

  lemma {:induction false} ItemsParsed(strtod: Text -> Reading, s: Text, read: seq<Value>) returns (items: seq<Item>)
    requires ParseItems(strtod, s, read).Ok?
    ensures items != [] && forall i | 0 <= i < |items| :: GoodItem(strtod, items[i])
    ensures var r := ParseItems(strtod, s, read);
            s == ItemTexts(items) + ([RBRACKET] + r.rest) && r.value == Array(read + Meanings(items))
    decreases |s|, 4
  {
    hide GoodItem, ItemText, ItemTexts, ParseValue, SkipSpace, Meaning, Meanings;
    var item := ItemParsed(strtod, s);
    var v, t := ParseValue(strtod, s).value, SkipSpace(ParseValue(strtod, s).rest);
    var rest := ParseItems(strtod, s, read).rest;
    if Expects(ParseValue(strtod, s).rest, COMMA) {
      var more := ItemsParsed(strtod, t[1..], read + [v]);
      items := [item] + more;
      assert t == [COMMA] + t[1..] && items[1..] == more;
    } else {
      items := [item];
      SkippedOnce(ParseValue(strtod, s).rest);
      assert t == [RBRACKET] + rest;
    }
    ItemsSplit(items, [RBRACKET] + rest);
    MeaningsStep(items, read);
  }

  lemma SkippedOnce(s: Text)
    ensures SkipSpace(SkipSpace(s)) == SkipSpace(s)
  {
    SkipStops(SkipSpace(s));
  }

  lemma SequenceWritten(strtod: Text -> Reading, t: Tree, inside: Text, rest: Text)
    requires t.Sequence? && WellFormed(strtod, t) && inside == if t.items == [] then t.gap else ItemTexts(t.items)
    ensures Written(strtod, [LBRACKET] + (inside + ([RBRACKET] + rest)), [], t, Meaning(t), rest)
  {
    Punctuation();
    hide ItemTexts, Ascii, WellFormed, Meaning;
    BracketsSplit(LBRACKET, inside, RBRACKET, rest);
    assert TextOf(t) == [LBRACKET] + inside + [RBRACKET];
    assert [] + (TextOf(t) + rest) == TextOf(t) + rest;
  }

  lemma SequenceParsed(strtod: Text -> Reading, s: Text) returns (t: Tree)
    requires s != [] && s[0] == LBRACKET && ParseArray(strtod, s[1..]).Ok?
    ensures var r := ParseArray(strtod, s[1..]); Written(strtod, s, [], t, r.value, r.rest)
    decreases |s|, 0
  {
    hide ParseItems, ItemTexts, Written, TextOf, GoodItem;
    var rest := ParseArray(strtod, s[1..]).rest;
    assert s == [LBRACKET] + s[1..];
    if Expects(s[1..], RBRACKET) {
      var gap := Skipped(s[1..]);
      t := Sequence([], gap);
      assert SkipSpace(s[1..]) == [RBRACKET] + rest;
      SequenceWritten(strtod, t, gap, rest);
    } else {
      ItemsSkipSpace(strtod, s[1..], []);
      var items := ItemsParsed(strtod, s[1..], []);
      t := Sequence(items, []);
      assert [] + Meanings(items) == Meanings(items);
      SequenceWritten(strtod, t, ItemTexts(items), rest);
    }
  }

  lemma KeyOpens(s: Text)
    requires ParseKey(s).Ok?
    ensures var t := SkipSpace(s);
            && t != [] && t == [QUOTE] + t[1..] && StringBody(t[1..]).Ok? && StringBody(t[1..]).value == ParseKey(s).value
            && SkipSpace(StringBody(t[1..]).rest) == [COLON] + ParseKey(s).rest
  {
    hide StringBody, SkipSpace;
  }

  lemma KeyParsed(s: Text) returns (before: Text, key: seq<Piece>, colon: Text)
    requires ParseKey(s).Ok?
    ensures Blank(before) && GoodPieces(key) && Blank(colon) && PiecesBytes(key) == ParseKey(s).value
    ensures s == before + (QuotationText(key) + (colon + ([COLON] + ParseKey(s).rest)))
  {
    hide PiecesText, PiecesBytes, QuotationText, ParseKey, SkipSpace, StringBody, Blank, GoodPieces;
    KeyOpens(s);
    before := Skipped(s);
    var t := SkipSpace(s);
    key := PiecesParsed(t[1..]);
    var rest := StringBody(t[1..]).rest;
    colon := Skipped(rest);
    QuotationSplit(key, rest);
  }

  /** One member up to the comma or the brace after it. */
  lemma EntryParsed(strtod: Text -> Reading, s: Text) returns (entry: Entry)
    requires ParseKey(s).Ok? && ParseValue(strtod, ParseKey(s).rest).Ok?
    ensures GoodEntry(strtod, entry) && PiecesBytes(entry.key) == ParseKey(s).value
    ensures var r := ParseValue(strtod, ParseKey(s).rest);
            Meaning(entry.item.tree) == r.value && s == EntryText(entry) + SkipSpace(r.rest)
    decreases |s|, 3
  {
    var before, key, colon := KeyParsed(s);
    var item := ItemParsed(strtod, ParseKey(s).rest);
    entry := Entry(before, key, colon, item);
    hide ParseKey, ParseValue, EntryText, ItemText, Blank, GoodPieces, PiecesBytes, GoodItem, QuotationText, Meaning;
    EntrySplit(entry, SkipSpace(ParseValue(strtod, ParseKey(s).rest).rest));
  }

  lemma {:induction false} EntriesParsed(strtod: Text -> Reading, s: Text, read: map<Text, Value>)
    returns (entries: seq<Entry>)
    requires ParseMembers(strtod, s, read).Ok?
    ensures entries != [] && forall i | 0 <= i < |entries| :: GoodEntry(strtod, entries[i])
    ensures var r := ParseMembers(strtod, s, read);
            s == EntryTexts(entries) + ([RBRACE] + r.rest) && r.value == Object(Collected(entries, read))
    decreases |s|, 4
  {
    hide GoodEntry, EntryText, EntryTexts, ParseKey, ParseValue, SkipSpace, Meaning, PiecesBytes;
    var entry := EntryParsed(strtod, s);
    var k := ParseKey(s);
    var v, t := ParseValue(strtod, k.rest).value, SkipSpace(ParseValue(strtod, k.rest).rest);
    var rest := ParseMembers(strtod, s, read).rest;
    if Expects(ParseValue(strtod, k.rest).rest, COMMA) {
      var more := EntriesParsed(strtod, t[1..], read[k.value := v]);
      entries := [entry] + more;
      assert t == [COMMA] + t[1..] && entries[1..] == more;
    } else {
      entries := [entry];
      SkippedOnce(ParseValue(strtod, k.rest).rest);
      assert t == [RBRACE] + rest;
      assert entries[1..] == [];
    }
    EntriesSplit(entries, [RBRACE] + rest);
  }

  lemma RecordWritten(strtod: Text -> Reading, t: Tree, inside: Text, rest: Text)
    requires t.Record? && WellFormed(strtod, t) && inside == if t.entries == [] then t.gap else EntryTexts(t.entries)
    ensures Written(strtod, [LBRACE] + (inside + ([RBRACE] + rest)), [], t, Meaning(t), rest)
  {
    Punctuation();
    hide EntryTexts, Ascii, WellFormed, Meaning;
    BracketsSplit(LBRACE, inside, RBRACE, rest);
    assert TextOf(t) == [LBRACE] + inside + [RBRACE];
    assert [] + (TextOf(t) + rest) == TextOf(t) + rest;
  }

  lemma RecordParsed(strtod: Text -> Reading, s: Text) returns (t: Tree)
    requires s != [] && s[0] == LBRACE && ParseObject(strtod, s[1..]).Ok?
    ensures var r := ParseObject(strtod, s[1..]); Written(strtod, s, [], t, r.value, r.rest)
    decreases |s|, 0
  {
    hide ParseMembers, EntryTexts, Written, TextOf, GoodEntry;
    var rest := ParseObject(strtod, s[1..]).rest;
    assert s == [LBRACE] + s[1..];
    if Expects(s[1..], RBRACE) {
      var gap := Skipped(s[1..]);
      t := Record([], gap);
      assert SkipSpace(s[1..]) == [RBRACE] + rest;
      RecordWritten(strtod, t, gap, rest);
    } else {
      MembersSkipSpace(strtod, s[1..], map[]);
      var entries := EntriesParsed(strtod, s[1..], map[]);
      t := Record(entries, []);
      RecordWritten(strtod, t, EntryTexts(entries), rest);
    }
  }

  // Both together.

  /** A value is read from a text exactly if the text starts with a way of writing it. */
  lemma ParsesExactly(strtod: Text -> Reading, s: Text, v: Value, rest: Text)
    ensures ParseValue(strtod, s) == Ok(v, rest) <==> exists gap, t :: Written(strtod, s, gap, t, v, rest)
  {
    if ParseValue(strtod, s) == Ok(v, rest) {
      var gap, t := TreeParsed(strtod, s);
    }
    if exists gap, t :: Written(strtod, s, gap, t, v, rest) {
      var gap, t :| Written(strtod, s, gap, t, v, rest);
      hide ParseValue, TextOf, WellFormed, Meaning;
      FirstOfTree(strtod, t);
      TreeRead(strtod, t, rest);
      SkipBlank(gap, TextOf(t) + rest);
      SkipStops(TextOf(t) + rest);
      ParseSkipsSpace(strtod, s, TextOf(t) + rest);
    }
  }
}
