/**
 The list of global function names that crosses from C++ to Go as one string: a count, then every
 name after its length, all lengths little-endian in eight bytes.
 */
module NameList {
  import opened Bits
  import opened Bytes

  /** The low n bytes of v, least significant first. */
  function LowBytes(v: nat, n: nat): (s: seq<byte>)
    ensures |s| == n
    decreases n
  {
    if n == 0 then [] else [LowByte(v)] + LowBytes(Shr(v, 8), n - 1)
  }

  function LowByte(v: nat): byte {
    Eight();
    Low(v, 8)
  }

  lemma Zero(v: nat)
    ensures Shr(v, 0) == v && Low(v, 0) == 0
  {
  }

  lemma Eight()
    ensures Pow2(8) == 256
  {
  }

  /** The number that bytes stand for, least significant first. */
  function Number(s: seq<byte>): nat {
    if s == [] then 0 else s[0] + 256 * Number(s[1..])
  }

  lemma {:induction false} NumberOfBytes(v: nat, n: nat)
    ensures Number(LowBytes(v, n)) == Low(v, 8 * n)
    decreases n
  {
    Zero(v);
    hide Low, Shr, Pow2;
    if n > 0 {
      NumberOfBytes(Shr(v, 8), n - 1);
      LowLow(v, 8, 8 * (n - 1));
      Eight();
      assert 8 + 8 * (n - 1) == 8 * n;
      assert LowBytes(v, n)[1..] == LowBytes(Shr(v, 8), n - 1);
    }
  }

  lemma {:induction false} BytesOfNumber(s: seq<byte>)
    ensures LowBytes(Number(s), |s|) == s
  {
    hide Low, Shr, Pow2;
    if s != [] {
      BytesOfNumber(s[1..]);
      Eight();
      SplitUnique(Number(s), 8, Number(s[1..]), s[0]);
    }
  }

  lemma {:induction false} ByteAt(v: nat, n: nat, i: nat)
    requires i < n
    ensures LowBytes(v, n)[i] == Low(Shr(v, 8 * i), 8)
    decreases n
  {
    Zero(v);
    hide Low, Shr, Pow2;
    if i > 0 {
      ByteAt(Shr(v, 8), n - 1, i - 1);
      ShrShr(v, 8, 8 * (i - 1));
      assert 8 + 8 * (i - 1) == 8 * i;
    }
  }

  function Word(v: nat): seq<byte> {
    LowBytes(v, 8)
  }

  function NameText(name: seq<byte>): seq<byte> {
    Word(|name|) + name
  }

  function Names(names: seq<seq<byte>>): seq<byte> {
    if names == [] then [] else Names(names[..|names| - 1]) + NameText(names[|names| - 1])
  }

  /** The encoding of a list of names. */
  function Encoded(names: seq<seq<byte>>): seq<byte> {
    Word(|names|) + Names(names)
  }

  /** Where a name's length starts, and the size of the whole. */
  function Offset(names: seq<seq<byte>>): nat {
    if names == [] then 8 else Offset(names[..|names| - 1]) + 8 + |names[|names| - 1]|
  }

  lemma {:induction false} SizeIsOffset(names: seq<seq<byte>>)
    ensures |Encoded(names)| == Offset(names)
  {
    hide LowBytes;
    if names != [] {
      SizeIsOffset(names[..|names| - 1]);
    }
  }

  datatype Decoding = Panic | Decoded(names: seq<seq<byte>>, rest: seq<byte>)

  /** n names from the front of s. */
  function DecodeNames(s: seq<byte>, n: nat): Decoding
    decreases n
  {
    if n == 0 then Decoded([], s)
    else
      match DecodeNames(s, n - 1)
      case Panic => Panic
      case Decoded(names, rest) => DecodeName(names, rest)
  }

  /** One more name from the front of s. */
  function DecodeName(names: seq<seq<byte>>, s: seq<byte>): Decoding {
    if |s| < 8 then Panic
    else
      var len := Number(s[..8]);
      if |s| - 8 < len then Panic else Decoded(names + [s[8..8 + len]], s[8 + len..])
  }

  function Decode(s: seq<byte>): Decoding {
    if |s| < 8 then Panic else DecodeNames(s[8..], Number(s[..8]))
  }

  lemma NumberOfWord(v: nat)
    requires v < Pow2(64)
    ensures Number(Word(v)) == v
  {
    hide Low, Shr, Pow2, LowBytes, Number;
    NumberOfBytes(v, 8);
    LowOfSmall(v, 64);
  }

  lemma {:induction false} NamesRoundTrip(names: seq<seq<byte>>, rest: seq<byte>)
    requires forall i | 0 <= i < |names| :: |names[i]| < Pow2(64)
    ensures DecodeNames(Names(names) + rest, |names|) == Decoded(names, rest)
  {
    hide Pow2, NameText, DecodeName;
    if names == [] {
      assert Names(names) + rest == rest;
    } else {
      var n := |names| - 1;
      var most, last := names[..n], names[n];
      var tail := NameText(last) + rest;
      NamesRoundTrip(most, tail);
      assert Names(names) == Names(most) + NameText(last);
      Associate(Names(most), NameText(last), rest);
      NameRoundTrip(most, last, rest);
      assert most + [last] == names;
    }
  }

  lemma Associate(a: seq<byte>, b: seq<byte>, c: seq<byte>)
    ensures (a + b) + c == a + (b + c)
  {
  }

  lemma NameRoundTrip(names: seq<seq<byte>>, name: seq<byte>, rest: seq<byte>)
    requires |name| < Pow2(64)
    ensures DecodeName(names, NameText(name) + rest) == Decoded(names + [name], rest)
  {
    hide LowBytes, Pow2;
    var s := NameText(name) + rest;
    NumberOfWord(|name|);
    assert s[..8] == Word(|name|);
    assert s[8..8 + |name|] == name;
    assert s[8 + |name|..] == rest;
  }

  /** Decoding an encoding gives the names back, in order, with no byte left over. */
  lemma RoundTrip(names: seq<seq<byte>>)
    requires |names| < Pow2(64) && forall i | 0 <= i < |names| :: |names[i]| < Pow2(64)
    ensures Decode(Encoded(names)) == Decoded(names, [])
  {
    hide LowBytes, Pow2;
    var s := Encoded(names);
    NumberOfWord(|names|);
    assert s[..8] == Word(|names|);
    assert s[8..] == Names(names) + [];
    NamesRoundTrip(names, []);
  }

  lemma {:induction false} DecodedNames(s: seq<byte>, n: nat)
    requires DecodeNames(s, n).Decoded?
    ensures var d := DecodeNames(s, n); |d.names| == n && s == Names(d.names) + d.rest
    decreases n
  {
    hide NameText, DecodeName;
    if n > 0 {
      var before := DecodeNames(s, n - 1);
      DecodedNames(s, n - 1);
      var d := DecodeNames(s, n);
      DecodedName(before.names, before.rest);
      var name := d.names[n - 1];
      assert d.names[..n - 1] == before.names;
      Associate(Names(before.names), NameText(name), d.rest);
    }
  }

  lemma DecodedName(names: seq<seq<byte>>, s: seq<byte>)
    requires DecodeName(names, s).Decoded?
    ensures var d := DecodeName(names, s);
            |d.names| == |names| + 1 && d.names[..|names|] == names && s == NameText(d.names[|names|]) + d.rest
  {
    hide LowBytes;
    var len := Number(s[..8]);
    BytesOfNumber(s[..8]);
    assert s == s[..8] + s[8..8 + len] + s[8 + len..];
  }

  /** Whatever is decoded with no byte left over is the encoding of those names. */
  lemma DecodedIsEncoded(s: seq<byte>)
    requires Decode(s).Decoded? && Decode(s).rest == []
    ensures s == Encoded(Decode(s).names)
  {
    hide LowBytes, Number, DecodeNames;
    var d := Decode(s);
    DecodedNames(s[8..], Number(s[..8]));
    BytesOfNumber(s[..8]);
    assert s == s[..8] + s[8..];
    assert Names(d.names) + [] == Names(d.names);
  }

  /** Writes v into eight bytes of a buffer. */
  method PutUint64(s: array<byte>, off: nat, v: nat)
    requires off + 8 <= s.Length
    modifies s
    ensures s[..off] == old(s[..off]) && s[off..off + 8] == Word(v) && s[off + 8..] == old(s[off + 8..])
  {
    hide Low, Shr, Pow2, BitAnd, LowBytes;
    for i := 0 to 8
      invariant forall k | 0 <= k < i :: s[off + k] == Word(v)[k]
      invariant s[..off] == old(s[..off]) && s[off + 8..] == old(s[off + 8..])
    {
      ByteAt(v, 8, i);
      AndMask(Shr(v, i * 8), 8);
      Eight();
      s[off + i] := BitAnd(Shr(v, i * 8), 0xff);
    }
  }

  /** Copies a name into a buffer. */
  method PutName(s: array<byte>, off: nat, name: seq<byte>)
    requires off + |name| <= s.Length
    modifies s
    ensures s[..off] == old(s[..off]) && s[off..off + |name|] == name
    ensures s[off + |name|..] == old(s[off + |name|..])
  {
    forall k | 0 <= k < |name| {
      s[off + k] := name[k];
    }
  }

  const INT_MAX: nat := 0x7fff_ffff

  datatype Native = Failed | Native(text: seq<byte>)

  method TotalSize(names: seq<seq<byte>>) returns (tot: nat)
    ensures tot == Offset(names)
  {
    tot := 8;
    for i := 0 to |names|
      invariant tot == Offset(names[..i])
    {
      assert names[..i + 1][..i] == names[..i];
      tot := tot + 8 + |names[i]|;
    }
    assert names[..|names|] == names;
  }

  lemma {:induction false} OffsetGrows(names: seq<seq<byte>>, i: nat)
    requires i <= |names|
    ensures Offset(names[..i]) <= Offset(names)
  {
    if i < |names| {
      var shorter := names[..|names| - 1];
      assert shorter[..i] == names[..i];
      OffsetGrows(shorter, i);
    } else {
      assert names[..i] == names;
    }
  }

  lemma NextName(names: seq<seq<byte>>, i: nat)
    requires i < |names|
    ensures Offset(names[..i + 1]) == Offset(names[..i]) + 8 + |names[i]| <= Offset(names)
    ensures Names(names[..i + 1]) == Names(names[..i]) + NameText(names[i])
    ensures 8 + |Names(names[..i])| == Offset(names[..i])
  {
    hide LowBytes, NameText;
    assert names[..i + 1][..i] == names[..i];
    OffsetGrows(names, i + 1);
    SizeIsOffset(names[..i]);
    assert |Word(|names[..i]|)| == 8;
  }

  /** Writes one name after its length, after a prefix of the buffer that is done. */
  method PutNameText(s: array<byte>, off: nat, name: seq<byte>, ghost done: seq<byte>)
    requires off + 8 + |name| <= s.Length && s[..off] == done
    modifies s
    ensures s[..off + 8 + |name|] == done + NameText(name)
  {
    hide LowBytes;
    PutUint64(s, off, |name|);
    PutName(s, off + 8, name);
    assert s[..off + 8] == s[..off + 8][..off] + s[..off + 8][off..];
    assert s[..off + 8 + |name|] == s[..off] + s[off..off + 8] + s[off + 8..off + 8 + |name|];
  }

  /**
   The encoder: sizes the string, fills it at a moving offset, and hands it over with its size in a
   C int. The hand-over fails when memory runs out, and when the size does not fit that int.
   */
  method ListGlobalNames(names: seq<seq<byte>>, memory: bool) returns (r: Native)
    ensures r == if memory && Offset(names) <= INT_MAX then Native(Encoded(names)) else Failed
  {
    hide LowBytes, NameText;
    var tot := TotalSize(names);
    OffsetGrows(names, 0);
    var s := new byte[tot];
    PutUint64(s, 0, |names|);
    var off := 8;
    assert s[..8] == Word(|names|) + Names(names[..0]);
    for i := 0 to |names|
      invariant off == Offset(names[..i]) <= tot && s[..off] == Word(|names|) + Names(names[..i])
    {
      NextName(names, i);
      PutNameText(s, off, names[i], s[..off]);
      Associate(Word(|names|), Names(names[..i]), NameText(names[i]));
      off := off + 8 + |names[i]|;
    }
    assert names[..|names|] == names;
    assert s[..] == s[..off];
    var handed := if memory then Int32(tot) else 0;
    SizeFits(tot);
    r := if tot as int != handed then Failed else Native(s[..]);
  }

  /** A size squeezed into a 32-bit int. */
  function Int32(n: nat): int {
    var low := n % 0x1_0000_0000;
    if low <= INT_MAX then low else low - 0x1_0000_0000
  }

  lemma SizeFits(n: nat)
    ensures n == Int32(n) <==> n <= INT_MAX
  {
  }

  /** The decoder: takes lengths and names off the front of the string. A slice out of range panics. */
  method FuncListGlobalNames(text: seq<byte>) returns (r: Decoding)
    ensures r == Decode(text)
  {
    hide Number;
    if |text| < 8 {
      return Panic;
    }
    var size, str := Number(text[..8]), text[8..];
    var names := [];
    var i := 0;
    while i < size
      invariant i <= size && DecodeNames(text[8..], i) == Decoded(names, str)
    {
      if |str| < 8 {
        StaysPanic(text[8..], i + 1, size);
        return Panic;
      }
      var len := Number(str[..8]);
      ghost var before := str;
      str := str[8..];
      if |str| < len {
        StaysPanic(text[8..], i + 1, size);
        return Panic;
      }
      assert before[8..8 + len] == str[..len] && before[8 + len..] == str[len..];
      names := names + [str[..len]];
      str := str[len..];
      i := i + 1;
    }
    r := Decoded(names, str);
  }

  lemma {:induction false} StaysPanic(s: seq<byte>, n: nat, m: nat)
    requires DecodeNames(s, n).Panic? && n <= m
    ensures DecodeNames(s, m).Panic?
    decreases m
  {
    if n < m {
      StaysPanic(s, n, m - 1);
    }
  }

  /** What the encoder hands over, the decoder reads back, whole; and it fails only for lack of memory or of range. */
  method RoundTripThroughGo(names: seq<seq<byte>>, memory: bool) returns (native: Native, read: Decoding)
    ensures native.Failed? <==> !memory || Offset(names) > INT_MAX
    ensures native.Native? ==> read == Decoded(names, [])
  {
    hide Encoded, Decode;
    native := ListGlobalNames(names, memory);
    match native {
      case Failed => read := Panic;
      case Native(text) =>
        read := FuncListGlobalNames(text);
        SizesFit(names);
        RoundTrip(names);
    }
  }

  lemma SizesFit(names: seq<seq<byte>>)
    requires Offset(names) <= INT_MAX
    ensures |names| < Pow2(64) && forall i | 0 <= i < |names| :: |names[i]| < Pow2(64)
  {
    BeyondInt();
    hide Pow2;
    CountFits(names);
    forall i | 0 <= i < |names| ensures |names[i]| < Pow2(64) {
      NextName(names, i);
    }
  }

  lemma BeyondInt()
    ensures INT_MAX < Pow2(64)
  {
    Eight();
    hide Pow2;
    Pow2Add(8, 8);
    Pow2Add(16, 16);
    Pow2Mono(32, 64);
  }

  lemma {:induction false} CountFits(names: seq<seq<byte>>)
    ensures |names| <= Offset(names)
  {
    if names != [] {
      CountFits(names[..|names| - 1]);
    }
  }
}
