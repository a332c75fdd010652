/**
 What `\u` escapes mean: the bytes they stand for, read by a UTF-8 decoder written down on its own,
 and the code points they name, spelled in UTF-16 as section 7 of RFC 8259 has it.
 */
module JsonUnicode {
  import opened Bytes
  import opened JsonGrammar

  const CODE_LIMIT: nat := 0x110000

  // A decoder of UTF-8.

  datatype Decoded = Malformed | Read(code: nat, rest: Text)

  /** n continuation bytes, each adding six bits to the code so far. */
  function ReadContinuation(code: nat, s: Text, n: nat): Decoded
    decreases n
  {
    if n == 0 then Read(code, s)
    else if s == [] || !(0x80 <= s[0] < 0xc0) then Malformed
    else ReadContinuation(code * 64 + (s[0] - 0x80), s[1..], n - 1)
  }

  /** One code point: the leading byte says how many continuation bytes follow. */
  function ReadUtf8(s: Text): Decoded {
    if s == [] then Malformed
    else if s[0] < 0x80 then Read(s[0], s[1..])
    else if 0xc0 <= s[0] < 0xe0 then ReadContinuation(s[0] - 0xc0, s[1..], 1)
    else if 0xe0 <= s[0] < 0xf0 then ReadContinuation(s[0] - 0xe0, s[1..], 2)
    else if 0xf0 <= s[0] < 0xf8 then ReadContinuation(s[0] - 0xf0, s[1..], 3)
    else Malformed
  }

  lemma ContinuationStep(code: nat, b: byte, s: Text, n: nat)
    requires 0x80 <= b < 0xc0
    ensures ReadContinuation(code, [b] + s, n + 1) == ReadContinuation(code * 64 + (b - 0x80), s, n)
  {
    assert ([b] + s)[1..] == s;
  }

  lemma Sextets(u: nat)
    ensures u / 64 * 64 + u % 64 == u
    ensures u / 4096 == u / 64 / 64 && u / 262144 == u / 64 / 64 / 64
  {
  }

  lemma ReadTwo(h: nat, a: nat, rest: Text)
    requires h < 32 && a < 64
    ensures ReadUtf8([0xc0 + h, 0x80 + a] + rest) == Read(h * 64 + a, rest)
  {
    hide ReadContinuation;
    assert ([0xc0 + h, 0x80 + a] + rest)[1..] == [0x80 + a] + rest;
    ContinuationStep(h, 0x80 + a, rest, 0);
    ContinuationEnd(h * 64 + a, rest);
  }

  lemma ReadThree(h: nat, b: nat, a: nat, rest: Text)
    requires h < 16 && b < 64 && a < 64
    ensures ReadUtf8([0xe0 + h, 0x80 + b, 0x80 + a] + rest) == Read((h * 64 + b) * 64 + a, rest)
  {
    hide ReadContinuation;
    assert ([0xe0 + h, 0x80 + b, 0x80 + a] + rest)[1..] == [0x80 + b] + ([0x80 + a] + rest);
    ContinuationStep(h, 0x80 + b, [0x80 + a] + rest, 1);
    ContinuationStep(h * 64 + b, 0x80 + a, rest, 0);
    ContinuationEnd((h * 64 + b) * 64 + a, rest);
  }

  lemma ReadFour(h: nat, c: nat, b: nat, a: nat, rest: Text)
    requires h < 8 && c < 64 && b < 64 && a < 64
    ensures ReadUtf8([0xf0 + h, 0x80 + c, 0x80 + b, 0x80 + a] + rest) == Read(((h * 64 + c) * 64 + b) * 64 + a, rest)
  {
    hide ReadContinuation;
    assert ([0xf0 + h, 0x80 + c, 0x80 + b, 0x80 + a] + rest)[1..] == [0x80 + c] + ([0x80 + b] + ([0x80 + a] + rest));
    ContinuationStep(h, 0x80 + c, [0x80 + b] + ([0x80 + a] + rest), 2);
    ContinuationStep(h * 64 + c, 0x80 + b, [0x80 + a] + rest, 1);
    ContinuationStep((h * 64 + c) * 64 + b, 0x80 + a, rest, 0);
    ContinuationEnd(((h * 64 + c) * 64 + b) * 64 + a, rest);
  }

  /** Reading the bytes of a code point gives it back and stops after them. */
  lemma Utf8RoundTrip(u: nat, rest: Text)
    requires u < CODE_LIMIT
    ensures ReadUtf8(Utf8(u) + rest) == Read(u, rest)
  {
    Sextets(u);
    Sextets(u / 64);
    Sextets(u / 64 / 64);
    if u < 0x80 {
      assert ([u] + rest)[1..] == rest;
    } else {
      hide ReadUtf8;
      if u < 0x800 {
        ReadTwo(u / 64, u % 64, rest);
      } else if u < 0x10000 {
        ReadThree(u / 4096, u / 64 % 64, u % 64, rest);
      } else {
        ReadFour(u / 262144, u / 4096 % 64, u / 64 % 64, u % 64, rest);
      }
    }
  }

  lemma ContinuationEnd(code: nat, s: Text)
    ensures ReadContinuation(code, s, 0) == Read(code, s)
  {
  }

  function Power64(n: nat): nat {
    if n == 0 then 1 else 64 * Power64(n - 1)
  }

  lemma {:induction false} ContinuationBound(code: nat, s: Text, n: nat)
    requires ReadContinuation(code, s, n).Read?
    ensures ReadContinuation(code, s, n).code < (code + 1) * Power64(n)
    ensures |s| == |ReadContinuation(code, s, n).rest| + n
    decreases n
  {
    if n > 0 {
      var d := s[0] - 0x80;
      ContinuationBound(code * 64 + d, s[1..], n - 1);
      WidenBound(code, d, Power64(n - 1));
    }
  }

  lemma WidenBound(code: nat, d: int, p: nat)
    requires 0 <= d < 64
    ensures (code * 64 + d + 1) * p <= (code + 1) * (64 * p)
  {
    assert (code + 1) * (64 * p) - (code * 64 + d + 1) * p == (63 - d) * p;
  }

  /** No shorter bytes read as the code point. */
  lemma Utf8Shortest(u: nat, s: Text)
    requires u < CODE_LIMIT && ReadUtf8(s).Read? && ReadUtf8(s).code == u
    ensures |s| - |ReadUtf8(s).rest| >= |Utf8(u)|
  {
    assert Power64(1) == 64 && Power64(2) == 4096 && Power64(3) == 262144;
    hide ReadContinuation, Power64;
    if s[0] >= 0xf0 {
      ContinuationBound(s[0] - 0xf0, s[1..], 3);
    } else if s[0] >= 0xe0 {
      ContinuationBound(s[0] - 0xe0, s[1..], 2);
    } else if s[0] >= 0xc0 {
      ContinuationBound(s[0] - 0xc0, s[1..], 1);
    }
  }

  // Hexadecimal digits.

  /** The two spellings of a digit. */
  function LowerDigit(d: nat): byte
    requires d < 16
  {
    if d < 10 then '0' as int + d else 'a' as int + d - 10
  }

  function UpperDigit(d: nat): byte
    requires d < 16
  {
    if d < 10 then '0' as int + d else 'A' as int + d - 10
  }

  lemma HexDigitExactly(b: byte, d: nat)
    requires d < 16
    ensures HexDigit(b) == d <==> b == LowerDigit(d) || b == UpperDigit(d)
  {
  }

  /** s starts with four hexadecimal digits of value u. */
  predicate StartsQuad(s: Text, u: nat) {
    && |s| >= 4
    && exists a: nat, b: nat, c: nat, d: nat | a < 16 && b < 16 && c < 16 && d < 16 ::
         SpellsQuad(s, a, b, c, d) && u == 4096 * a + 256 * b + 16 * c + d
  }

  predicate Spells(b: byte, d: nat)
    requires d < 16
  {
    b == LowerDigit(d) || b == UpperDigit(d)
  }

  predicate SpellsQuad(s: Text, a: nat, b: nat, c: nat, d: nat)
    requires |s| >= 4 && a < 16 && b < 16 && c < 16 && d < 16
  {
    Spells(s[0], a) && Spells(s[1], b) && Spells(s[2], c) && Spells(s[3], d)
  }

  lemma QuadStep(s: Text, n: nat, code: nat)
    ensures QuadHex(s, n + 1, code).Ok? ==>
              && s != [] && 0 <= HexDigit(s[0]) < 16
              && QuadHex(s, n + 1, code) == QuadHex(s[1..], n, code * 16 + HexDigit(s[0]))
    ensures s != [] && HexDigit(s[0]) >= 0 ==>
              QuadHex(s, n + 1, code) == QuadHex(s[1..], n, code * 16 + HexDigit(s[0]))
    ensures QuadHex(s, 0, code) == Ok(code, s)
  {
    hide HexDigit;
  }

  lemma QuadValue(s: Text)
    requires |s| >= 4 && forall i | 0 <= i < 4 :: HexDigit(s[i]) >= 0
    ensures QuadHex(s, 4, 0)
         == Ok(4096 * HexDigit(s[0]) + 256 * HexDigit(s[1]) + 16 * HexDigit(s[2]) + HexDigit(s[3]), s[4..])
  {
    hide QuadHex, HexDigit;
    var a, b, c, d := HexDigit(s[0]), HexDigit(s[1]), HexDigit(s[2]), HexDigit(s[3]);
    QuadStep(s, 3, 0);
    assert s[1..][1..] == s[2..] && s[2..][1..] == s[3..] && s[3..][1..] == s[4..];
    QuadStep(s[1..], 2, a);
    var e := a * 16 + b;
    QuadStep(s[2..], 1, e);
    var f := e * 16 + c;
    QuadStep(s[3..], 0, f);
    QuadStep(s[4..], 0, f * 16 + d);
  }

  lemma {:induction false} QuadDigits(s: Text, n: nat, code: nat)
    ensures QuadHex(s, n, code).Ok? ==> |s| >= n && forall i | 0 <= i < n :: HexDigit(s[i]) >= 0
    decreases n
  {
    hide HexDigit;
    if n > 0 && QuadHex(s, n, code).Ok? {
      QuadDigits(s[1..], n - 1, code * 16 + HexDigit(s[0]));
      forall i | 0 <= i < n ensures HexDigit(s[i]) >= 0 {
        if i > 0 {
          assert s[1..][i - 1] == s[i];
        }
      }
    }
  }

  lemma DigitsSpell(s: Text)
    requires |s| >= 4 && forall i | 0 <= i < 4 :: HexDigit(s[i]) >= 0
    ensures StartsQuad(s, 4096 * HexDigit(s[0]) + 256 * HexDigit(s[1]) + 16 * HexDigit(s[2]) + HexDigit(s[3]))
  {
    var a: nat, b: nat, c: nat, d: nat := HexDigit(s[0]), HexDigit(s[1]), HexDigit(s[2]), HexDigit(s[3]);
    hide HexDigit, LowerDigit, UpperDigit;
    HexDigitExactly(s[0], a);
    HexDigitExactly(s[1], b);
    HexDigitExactly(s[2], c);
    HexDigitExactly(s[3], d);
    assert SpellsQuad(s, a, b, c, d);
  }

  /** Four digits are read exactly where there are four, with the value they spell. */
  lemma QuadExactly(s: Text, u: nat)
    ensures StartsQuad(s, u) <==> |s| >= 4 && QuadHex(s, 4, 0) == Ok(u, s[4..])
    ensures QuadHex(s, 4, 0).Ok? ==> |s| >= 4 && QuadHex(s, 4, 0).rest == s[4..]
  {
    hide QuadHex, HexDigit, LowerDigit, UpperDigit;
    if StartsQuad(s, u) {
      var a: nat, b: nat, c: nat, d: nat :| a < 16 && b < 16 && c < 16 && d < 16
        && SpellsQuad(s, a, b, c, d) && u == 4096 * a + 256 * b + 16 * c + d;
      HexDigitExactly(s[0], a);
      HexDigitExactly(s[1], b);
      HexDigitExactly(s[2], c);
      HexDigitExactly(s[3], d);
      QuadValue(s);
    }
    if QuadHex(s, 4, 0).Ok? {
      QuadDigits(s, 4, 0);
      QuadValue(s);
      DigitsSpell(s);
    }
  }

  // Code points.

  predicate Surrogate(u: nat) {
    0xd800 <= u < 0xe000
  }

  /** Code point u is named by the first n bytes of s: four digits, or the digits of its two surrogates. */
  predicate Names(s: Text, u: nat, n: nat) {
    || (n == 4 && !Surrogate(u) && StartsQuad(s, u))
    || (&& n == 10 && 0x10000 <= u < CODE_LIMIT && |s| >= 10
        && StartsQuad(s, 0xd800 + (u - 0x10000) / 0x400)
        && s[4] == '\\' as int && s[5] == 'u' as int
        && StartsQuad(s[6..], 0xdc00 + (u - 0x10000) % 0x400))
  }

  lemma SurrogatePair(u: nat)
    requires 0x10000 <= u < CODE_LIMIT
    ensures var hi, lo := 0xd800 + (u - 0x10000) / 0x400, 0xdc00 + (u - 0x10000) % 0x400;
            0xd800 <= hi < 0xdc00 <= lo < 0xe000 && (hi - 0xd800) * 1024 + (lo - 0xdc00) + 0x10000 == u
  {
  }

  lemma PairSurrogates(hi: nat, lo: nat)
    requires 0xd800 <= hi < 0xdc00 <= lo < 0xe000
    ensures var u := (hi - 0xd800) * 1024 + (lo - 0xdc00) + 0x10000;
            && 0x10000 <= u < CODE_LIMIT
            && hi == 0xd800 + (u - 0x10000) / 0x400 && lo == 0xdc00 + (u - 0x10000) % 0x400
  {
  }

  /** A text that names a code point is read as the bytes of that code point. */
  lemma NamedIsRead(s: Text, u: nat, n: nat)
    requires Names(s, u, n)
    ensures u < CODE_LIMIT && n <= |s| && Codepoint(s) == Ok(Utf8(u), s[n..])
  {
    hide QuadHex, StartsQuad, Utf8;
    if n == 4 {
      QuadExactly(s, u);
      QuadHexBound(s, 4, 0, 65536);
    } else {
      var hi, lo := 0xd800 + (u - 0x10000) / 0x400, 0xdc00 + (u - 0x10000) % 0x400;
      SurrogatePair(u);
      QuadExactly(s, hi);
      QuadExactly(s[6..], lo);
      var t := s[4..];
      assert t[0] == s[4] && t[1] == s[5] && t[2..] == s[6..] && s[6..][4..] == s[10..];
    }
  }

  /** And whatever is read was named. */
  lemma ReadIsNamed(s: Text) returns (u: nat, n: nat)
    requires Codepoint(s).Ok?
    ensures Names(s, u, n)
  {
    hide QuadHex, StartsQuad, Utf8;
    u, n := QuadHex(s, 4, 0).value, 4;
    QuadExactly(s, u);
    if Surrogate(u) {
      var t := s[4..];
      assert t[0] == s[4] && t[1] == s[5] && t[2..] == s[6..];
      var lo := QuadHex(s[6..], 4, 0).value;
      QuadExactly(s[6..], lo);
      PairSurrogates(u, lo);
      u, n := (u - 0xd800) * 1024 + (lo - 0xdc00) + 0x10000, 10;
    }
  }

  /** An escape is read exactly if it names a code point, and then gives bytes that UTF-8 reads as that code point. */
  lemma CodepointExactly(s: Text)
    ensures Codepoint(s).Ok? <==> exists u: nat, n: nat :: Names(s, u, n)
    ensures forall u: nat, n: nat | Names(s, u, n) ::
              && n <= |s| && Codepoint(s).Ok? && Codepoint(s).rest == s[n..]
              && ReadUtf8(Codepoint(s).value) == Read(u, [])
  {
    hide Names, Codepoint, Utf8, ReadUtf8;
    if Codepoint(s).Ok? {
      var u, n := ReadIsNamed(s);
    }
    forall u: nat, n: nat | Names(s, u, n)
      ensures u < CODE_LIMIT && n <= |s| && Codepoint(s) == Ok(Utf8(u), s[n..]) && ReadUtf8(Utf8(u)) == Read(u, [])
    {
      NamedIsRead(s, u, n);
      Utf8RoundTrip(u, []);
      assert Utf8(u) + [] == Utf8(u);
    }
  }
}
