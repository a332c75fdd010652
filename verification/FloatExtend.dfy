/**
 `__clz` and `__extendXfYf2__`: conversion to a wider format, and its composition with
 truncation.
 */
module FloatExtend {
  import opened Bits
  import opened FloatFormat
  import opened FloatTruncate

  const WORD := 32

  lemma {:induction false} ShrZero(a: nat, k: nat)
    ensures Shr(a, k) == 0 <==> a < Pow2(k)
    decreases k
  {
    if k > 0 {
      ShrZero(a / 2, k - 1);
    }
  }

  /** The search has dropped 32 - n low bits and fewer than k bits are left. */
  ghost predicate Searching(x0: nat, x: nat, n: nat, k: nat) {
    n <= WORD && x == Shr(x0, WORD - n) && x < Pow2(k) && (x == 0 ==> n == WORD)
  }

  /** One step of the binary search: drop k low bits if anything is left above them. */
  lemma ClzStep(x0: nat, x: nat, n: nat, k: nat)
    requires Searching(x0, x, n, 2 * k)
    ensures Shr(x, k) == 0 ==> Searching(x0, x, n, k)
    ensures Shr(x, k) != 0 && n >= k ==> Searching(x0, Shr(x, k), n - k, k)
  {
    hide Shr, Pow2;
    ShrShr(x0, WORD - n, k);
    ShrZero(x, k);
    ShrZero(Shr(x, k), k);
    ShrShr(x, k, k);
    ShrZero(x, 2 * k);
  }

  /** Number of leading zeros of a 32-bit word: 31 minus the index of the leading one. */
  method Clz(x0: nat) returns (r: nat)
    requires x0 < Pow2(WORD)
    ensures x0 == 0 ==> r == WORD
    ensures x0 > 0 ==> r < WORD && Pow2(WORD - 1 - r) <= x0 < Pow2(WORD - r)
  {
    hide Shr, Pow2, Searching;
    var n, x := WORD, x0;
    SearchStart(x0);
    ClzStep(x0, x, n, 16);
    var y := Shr(x, 16);
    if y != 0 {
      n := n - 16;
      x := y;
    }
    ClzStep(x0, x, n, 8);
    y := Shr(x, 8);
    if y != 0 {
      n := n - 8;
      x := y;
    }
    ClzStep(x0, x, n, 4);
    y := Shr(x, 4);
    if y != 0 {
      n := n - 4;
      x := y;
    }
    ClzStep(x0, x, n, 2);
    y := Shr(x, 2);
    if y != 0 {
      n := n - 2;
      x := y;
    }
    ClzBounds(x0, x, n);
    y := Shr(x, 1);
    if y != 0 {
      return n - 2;
    }
    return n - x;
  }

  lemma SearchStart(x0: nat)
    requires x0 < Pow2(WORD)
    ensures Searching(x0, x0, WORD, WORD)
  {
    hide Pow2;
  }

  lemma ClzBounds(x0: nat, x: nat, n: nat)
    requires Searching(x0, x, n, 2)
    ensures x < 4 && (Shr(x, 1) != 0 <==> x >= 2)
    ensures x >= 2 ==> Pow2(WORD - n + 1) <= x0 < Pow2(WORD - n + 2)
    ensures x == 1 ==> Pow2(WORD - n) <= x0 < Pow2(WORD - n + 1)
    ensures x == 0 ==> x0 == 0 && n == WORD
  {
    hide Shr, Low;
    SmallShift(x);
    Split(x0, WORD - n);
    QuotientBounds(x0, x, Pow2(WORD - n), Low(x0, WORD - n));
  }

  lemma SmallShift(x: nat)
    ensures Shr(x, 1) == x / 2 && Pow2(2) == 4
  {
  }

  lemma QuotientBounds(x0: nat, x: nat, p: nat, low: nat)
    requires x0 == x * p + low && low < p && x < 4
    ensures x >= 2 ==> 2 * p <= x0 < 4 * p
    ensures x == 1 ==> p <= x0 < 2 * p
    ensures x == 0 ==> x0 == low
  {
    if x >= 2 {
      assert x == 2 || x == 3;
    }
  }

  /**
   What extension promises: the sign is kept, every finite value is represented exactly, and
   infinity and NaN fraction fields move to the top of the wider field.
   */
  ghost predicate ExtendsTo(n: Format, w: Format, a: nat, r: nat)
    requires Widens(w, n)
  {
    w.Encodes(r) && w.Sign(r) == n.Sign(a) && AbsExtendsTo(n, w, n.Abs(a), w.Abs(r))
  }

  ghost predicate AbsExtendsTo(n: Format, w: Format, x: nat, r: nat)
    requires Widens(w, n)
  {
    if x >= n.Infinity() then
      r == w.Infinity() + Shl(x - n.Infinity(), w.sig - n.sig)
    else
      r < w.Infinity() && w.Mag(r) == Scaled(w, n, x)
  }

  /** A normal number: shift and rebias. */
  lemma ExtendNormal(n: Format, w: Format, x: nat)
    requires Widens(w, n) && Pow2(n.sig) <= x < n.Infinity()
    ensures AbsExtendsTo(n, w, x, Shl(x, w.sig - n.sig) + Shl(BiasGap(w, n), w.sig))
  {
    hide Low, Shr, Pow2;
    var k, g, f := w.sig - n.sig, BiasGap(w, n), Low(x, n.sig);
    var e, r := n.Exponent(x), Shl(x, k) + Shl(g, w.sig);
    ExponentAtLeast(n, x, 1);
    ExponentAtLeast(n, x, n.InfExp());
    Split(x, n.sig);
    Pow2Add(n.sig, k);
    ShiftSplit(e, f, g, Pow2(n.sig), Pow2(k));
    MulMono(f, Pow2(n.sig), Pow2(k));
    SplitUnique(r, w.sig, e + g, f * Pow2(k));
    WidthFacts(w, n);
    BelowOverflow(w, n, r);
    Pow2Add(e - 1, g);
    Pow2Add(k, g);
    ExtendIdentity(Pow2(n.sig), f, Pow2(k), Pow2(e - 1), Pow2(g));
  }

  lemma ShiftSplit(e: nat, f: nat, g: nat, p: nat, pk: nat)
    ensures (e * p + f) * pk + g * (p * pk) == (e + g) * (p * pk) + f * pk
  {
    Distribute(e * p, f, pk);
    Assoc(e, p, pk);
    Distribute(e, g, p * pk);
  }

  lemma ExtendIdentity(p: nat, f: nat, pk: nat, pe: nat, pg: nat)
    ensures (p * pk + f * pk) * (pe * pg) == ((p + f) * pe) * (pk * pg)
  {
    Distribute(p, f, pk);
    assert ((p + f) * pk) * (pe * pg) == ((p + f) * pe) * (pk * pg);
  }

  /** A denormal: the leading one moves to the hidden position. */
  lemma ExtendDenormal(n: Format, w: Format, x: nat, scale: nat)
    requires Widens(w, n) && 1 <= scale <= n.sig
    requires Pow2(n.sig - scale) <= x < Pow2(n.sig - scale + 1)
    ensures var r := BitXor(Shl(x, w.sig - n.sig + scale), Pow2(w.sig));
            AbsExtendsTo(n, w, x, BitOr(r, Shl(BiasGap(w, n) - scale + 1, w.sig)))
  {
    hide Low, Shr, BitXor, BitOr;
    var j, e := w.sig - n.sig + scale, BiasGap(w, n) - scale + 1;
    Pow2Add(n.sig - scale, j);
    ShiftBounds(x, Pow2(n.sig - scale), Pow2(j));
    var m := Shl(x, j) - Pow2(w.sig);
    XorLeading(m, w.sig);
    OrComm(m, Shl(e, w.sig));
    OrDisjoint(e, m, w.sig);
    var r := Shl(e, w.sig) + m;
    SplitUnique(r, w.sig, e, m);
    WidthFacts(w, n);
    BelowOverflow(w, n, r);
    Pow2Add(j, e - 1);
    Assoc(x, Pow2(j), Pow2(e - 1));
    Pow2Mono(n.sig - scale + 1, n.sig);
    DenormalMag(n, x);
    BelowInfinity(n, x);
  }

  lemma ShiftBounds(x: nat, p: nat, q: nat)
    requires p <= x < 2 * p && q > 0
    ensures p * q <= x * q < 2 * (p * q)
  {
    ScaleBound(p, x, q);
    MulMono(x, 2 * p, q);
  }

  /** Infinity or NaN: the quiet bit and the payload keep their distance from the top. */
  lemma ExtendSpecial(n: Format, w: Format, x: nat)
    requires Widens(w, n) && n.Infinity() <= x < Pow2(n.sig + n.exp)
    ensures var k := w.sig - n.sig;
            var r := BitOr(Shl(w.InfExp(), w.sig), Shl(BitAnd(x, Pow2(n.sig - 1)), k));
            AbsExtendsTo(n, w, x, BitOr(r, Shl(BitAnd(x, Pow2(n.sig - 1) - 1), k)))
    ensures w.Infinity() + Shl(x - n.Infinity(), w.sig - n.sig) < Pow2(w.sig + w.exp)
  {
    hide Low, Shr, BitAnd, BitOr;
    var k, d := w.sig - n.sig, n.sig - 1;
    var q, p := Shr(x, d) % 2, Low(x, d);
    WidthFacts(w, n);
    SpecialFraction(n, x);
    AndBit(x, d);
    AndMask(x, d);
    Pow2Add(d, k);
    Assoc(q, Pow2(d), Pow2(k));
    MulMono(p, Pow2(d), Pow2(k));
    assert w.sig - 1 == d + k;
    SpecialWords(w.InfExp(), q, p * Pow2(k), w.sig);
    Distribute(q * Pow2(d), p, Pow2(k));
    WideTop(w);
  }

  lemma WideTop(w: Format)
    ensures w.Infinity() + Pow2(w.sig) == Pow2(w.sig + w.exp)
  {
    Pow2Add(w.exp, w.sig);
    Distribute(w.InfExp(), 1, Pow2(w.sig));
  }

  lemma SpecialFraction(n: Format, x: nat)
    requires n.Valid() && n.Infinity() <= x < n.Infinity() + Pow2(n.sig)
    ensures x - n.Infinity() == Shr(x, n.sig - 1) % 2 * Pow2(n.sig - 1) + Low(x, n.sig - 1)
  {
    SplitUnique(x, n.sig, n.InfExp(), x - n.Infinity());
    LowLow(x, n.sig - 1, 1);
    LowestBit(Shr(x, n.sig - 1));
    AndMask(Shr(x, n.sig - 1), 1);
  }

  lemma SpecialWords(ie: nat, q: nat, low: nat, s: nat)
    requires q <= 1 && s >= 1 && low < Pow2(s - 1)
    ensures BitOr(BitOr(Shl(ie, s), q * Pow2(s - 1)), low) == Shl(ie, s) + q * Pow2(s - 1) + low
    ensures q * Pow2(s - 1) + low < Pow2(s)
  {
    hide BitOr;
    var h := Pow2(s - 1);
    assert Pow2(s) == 2 * h;
    Halves(ie, q, h);
    OrDisjoint(ie, q * h, s);
    OrDisjoint(2 * ie + q, low, s - 1);
  }

  lemma Halves(ie: nat, q: nat, h: nat)
    requires q <= 1 && h > 0
    ensures ie * (2 * h) + q * h == (2 * ie + q) * h
    ensures q * h < 2 * h && q * h <= h
  {
    assert q == 0 || q == 1;
  }

  /** The words of the denormal branch fit the destination when the leading one is found. */
  lemma DenormalWordsFit(n: Format, w: Format, x: nat, scale: nat)
    requires Widens(w, n) && 1 <= scale <= n.sig && x < Pow2(n.sig - scale + 1)
    ensures BiasGap(w, n) - scale + 1 >= 0
    ensures Low(Shl(x, w.sig - n.sig + scale), w.Width()) == Shl(x, w.sig - n.sig + scale)
    ensures Low(Shl(BiasGap(w, n) - scale + 1, w.sig), w.Width()) == Shl(BiasGap(w, n) - scale + 1, w.sig)
  {
    hide Low, Shr, Pow2, Format.InfExp, Format.Bias, Format.Infinity;
    var j, e := w.sig - n.sig + scale, BiasGap(w, n) - scale + 1;
    Pow2Add(n.sig - scale + 1, j);
    MulMono(x, Pow2(n.sig - scale + 1), Pow2(j));
    Pow2Mono(w.sig + 1, w.Width());
    LowOfSmall(Shl(x, j), w.Width());
    WidthFacts(w, n);
    ScaleBound(e, BiasGap(w, n) + n.InfExp(), Pow2(w.sig));
    Pow2Mono(w.sig + w.exp, w.Width());
    LowOfSmall(Shl(e, w.sig), w.Width());
  }

  /** Any magnitude from this exponent on is greater than one unit of the source. */
  lemma TooLarge(n: Format, w: Format, r: nat)
    requires Widens(w, n) && n.sig >= 1 && r >= Shl(BiasGap(w, n) + 2, w.sig)
    ensures !AbsExtendsTo(n, w, 1, r)
  {
    var e := BiasGap(w, n) + 2;
    var least := Shl(e, w.sig);
    SplitUnique(least, w.sig, e, 0);
    assert w.Mag(least) == Pow2(w.sig) * Pow2(e - 1);
    hide Low, Shr, Pow2;
    if least < r {
      MagMono(w, least, r);
    }
    Pow2Add(w.sig, e - 1);
    UnitIsOne(n);
    hide Format.Mag;
    Pow2Strict(UnitShift(w, n), w.sig + e - 1);
  }

  lemma UnitIsOne(n: Format)
    requires n.Valid()
    ensures n.Mag(1) == 1 && 1 < n.Infinity()
  {
    Pow2Mono(1, n.sig);
    Pow2Mono(2, n.exp);
    SplitUnique(1, n.sig, 0, 1);
    ScaleBound(2, n.InfExp(), Pow2(n.sig));
  }

  /** The low word of a power of two past it is zero. */
  lemma LowOfHighPower(k: nat)
    requires k >= WORD
    ensures Low(Pow2(k), WORD) == 0
  {
    hide Pow2, Low, Shr;
    Pow2Add(k - WORD, WORD);
    SplitUnique(Pow2(k), WORD, Pow2(k - WORD), 0);
  }

  /**
   The denormal branch. `Clz` sees the low 32 bits only. A negative shift, which C leaves undefined,
   is reported.
   */
  method ExtendSubnormal(n: Format, w: Format, x: nat) returns (defined: bool, absResult: nat)
    requires Widens(w, n) && 0 < x < Pow2(n.sig)
    ensures n.sig < WORD ==> defined && AbsExtendsTo(n, w, x, absResult)
    ensures n.sig >= WORD && x == 1 ==>
              defined && absResult < Pow2(w.sig + w.exp) && !AbsExtendsTo(n, w, x, absResult)
  {
    hide Low, Shr, Shl, BitXor, BitOr, AbsExtendsTo, Pow2, Format.InfExp, Format.Infinity, Format.Bias;
    var lead := Clz(Low(x, WORD));
    var hidden := Clz(Low(Pow2(n.sig), WORD));
    var scale: int := lead as int - hidden as int;
    var shift: int := w.sig - n.sig + scale;
    var resultExponent: int := w.Bias() - n.Bias() - scale + 1;
    if n.sig < WORD {
      Pow2Strict(n.sig, WORD);
      LowOfSmall(x, WORD);
      LowOfSmall(Pow2(n.sig), WORD);
      LeadingBit(x, lead, n.sig, hidden);
      DenormalWordsFit(n, w, x, scale);
      ExtendDenormal(n, w, x, scale);
    } else {
      LowOfHighPower(n.sig);
    }
    if shift < 0 || resultExponent < 0 {
      defined, absResult := false, 0;
      if n.sig >= WORD && x == 1 {
        OneHasClz(lead);
      }
      return;
    }
    defined := true;
    absResult := Low(Shl(x, shift), w.Width());
    absResult := BitXor(absResult, Pow2(w.sig));
    absResult := BitOr(absResult, Low(Shl(resultExponent, w.sig), w.Width()));
    if n.sig >= WORD && x == 1 {
      OneHasClz(lead);
      OneTooLarge(n, w, absResult);
    }
  }

  lemma Two()
    ensures Pow2(1) == 2
  {
  }

  lemma OneHasClz(lead: nat)
    requires lead <= WORD && var x0 := Low(1, WORD);
             && (x0 == 0 ==> lead == WORD)
             && (x0 > 0 ==> lead < WORD && Pow2(WORD - 1 - lead) <= x0 < Pow2(WORD - lead))
    ensures lead == WORD - 1
  {
    hide Pow2, Low, Shr;
    Two();
    Pow2Mono(1, WORD);
    LowOfSmall(1, WORD);
    if lead < WORD - 1 {
      Pow2Mono(1, WORD - 1 - lead);
    }
  }

  /** The least denormal of a wide source comes out with an exponent that is far too large. */
  lemma OneTooLarge(n: Format, w: Format, r: nat)
    requires Widens(w, n) && n.sig >= WORD
    requires var k, bits := w.sig - n.sig, w.Width();
             r == BitOr(BitXor(Low(Shl(1, k - 1), bits), Pow2(w.sig)), Low(Shl(BiasGap(w, n) + 2, w.sig), bits))
    ensures r < Pow2(w.sig + w.exp) && !AbsExtendsTo(n, w, 1, r)
  {
    hide Low, Shr, BitXor, BitOr, AbsExtendsTo, Pow2, Format.InfExp, Format.Infinity, Format.Bias;
    var k, bits, g, m := w.sig - n.sig, w.Width(), BiasGap(w, n), w.sig + w.exp;
    WidthFacts(w, n);
    ScaleBound(g + 2, g + n.InfExp(), Pow2(w.sig));
    Pow2Strict(m, bits);
    LowOfSmall(Shl(g + 2, w.sig), bits);
    Pow2Strict(k - 1, m);
    LowOfSmall(Shl(1, k - 1), bits);
    Pow2Strict(w.sig, m);
    XorBound(Shl(1, k - 1), Pow2(w.sig), m);
    OrBounds(BitXor(Shl(1, k - 1), Pow2(w.sig)), Shl(g + 2, w.sig), m);
    TooLarge(n, w, r);
  }

  /**
   The conversion. It is defined and exact for every word if the significand field fits the 32-bit
   `Clz`, and for wider sources it is not: the word 1, the least denormal, fails.
   */
  method Extend(n: Format, w: Format, a: nat) returns (defined: bool, result: nat)
    requires Widens(w, n) && n.Encodes(a)
    ensures n.sig < WORD ==> defined && ExtendsTo(n, w, a, result)
    ensures n.sig >= WORD && a == 1 ==> defined && !ExtendsTo(n, w, a, result)
  {
    hide Low, Shr, Shl, SubWrap, BitOr, BitXor, BitAnd, ExtendsTo, AbsExtendsTo, Format.Sign;
    hide Pow2, Format.InfExp, Format.Infinity, Format.Bias;
    var srcBits, dstBits, k := n.Width(), w.Width(), w.sig - n.sig;
    var srcMinNormal := Pow2(n.sig);
    var srcInfinity := n.Infinity();
    var srcSignMask := Pow2(n.sig + n.exp);
    var srcQNaN, srcNaNCode := Pow2(n.sig - 1), Pow2(n.sig - 1) - 1;

    var aAbs, sign := BitAnd(a, srcSignMask - 1), BitAnd(a, srcSignMask);
    SourceFields(n, a);
    WidthFacts(w, n);
    NormalTest(n, aAbs);
    OneFields(n);
    var absResult: nat;
    defined := true;
    if SubWrap(aAbs, srcMinNormal, srcBits) < srcInfinity - srcMinNormal {
      ExtendNormal(n, w, aAbs);
      absResult := Shl(aAbs, k);
      absResult := absResult + Shl(w.Bias() - n.Bias(), w.sig);
      assert AbsExtendsTo(n, w, n.Abs(a), absResult);
    } else if aAbs >= srcInfinity {
      ExtendSpecial(n, w, aAbs);
      absResult := Shl(w.InfExp(), w.sig);
      absResult := BitOr(absResult, Shl(BitAnd(aAbs, srcQNaN), k));
      absResult := BitOr(absResult, Shl(BitAnd(aAbs, srcNaNCode), k));
    } else if aAbs != 0 {
      defined, absResult := ExtendSubnormal(n, w, aAbs);
    } else {
      absResult := 0;
      ExtendZero(n, w);
    }
    result := BitOr(absResult, Shl(sign, dstBits - srcBits));
    if n.sig < WORD {
      AssembleWide(n, w, a, absResult);
    } else if a == 1 {
      OneIsDenormal(n, w, absResult);
    }
  }

  /** The word 1 is the least denormal, and assembling its result with its sign changes nothing. */
  lemma OneIsDenormal(n: Format, w: Format, absResult: nat)
    requires Widens(w, n) && absResult < Pow2(w.sig + w.exp) && !AbsExtendsTo(n, w, 1, absResult)
    requires w.Width() >= n.Width()
    ensures !ExtendsTo(n, w, 1, BitOr(absResult, Shl(BitAnd(1, Pow2(n.sig + n.exp)), w.Width() - n.Width())))
  {
    OneFields(n);
    hide Pow2, Low, Shr, AbsExtendsTo;
    LowOfSmall(absResult, w.sig + w.exp);
  }

  lemma OneFields(n: Format)
    requires n.Valid()
    ensures n.Abs(1) == 1 < Pow2(n.sig) && BitAnd(1, Pow2(n.sig + n.exp)) == 0
  {
    hide Pow2, Low, Shr, BitAnd;
    Two();
    Pow2Mono(1, n.sig);
    Pow2Mono(1, n.sig + n.exp);
    LowOfSmall(1, n.sig + n.exp);
    AndBit(1, n.sig + n.exp);
  }

  lemma NormalTest(n: Format, x: nat)
    requires n.Valid() && x < Pow2(n.sig + n.exp)
    ensures Pow2(n.sig) <= n.Infinity() && Pow2(n.sig) < Pow2(n.Width()) && x < Pow2(n.Width())
    ensures SubWrap(x, Pow2(n.sig), n.Width()) < n.Infinity() - Pow2(n.sig)
            <==> Pow2(n.sig) <= x < n.Infinity()
  {
    WideTop(n);
    Pow2Mono(2, n.exp);
    ScaleBound(1, n.InfExp(), Pow2(n.sig));
  }

  /** Powers of two bracket a number in one way only. */
  lemma LeadingBit(x: nat, lead: nat, sig: nat, hidden: nat)
    requires lead < WORD && hidden < WORD && sig < WORD && 0 < x < Pow2(sig)
    requires Pow2(WORD - 1 - lead) <= x < Pow2(WORD - lead)
    requires Pow2(WORD - 1 - hidden) <= Pow2(sig) < Pow2(WORD - hidden)
    ensures hidden == WORD - 1 - sig
    ensures 1 <= lead - hidden <= sig
    ensures Pow2(sig - (lead - hidden)) <= x < Pow2(sig - (lead - hidden) + 1)
  {
    hide Pow2;
    if WORD - 1 - hidden < sig {
      Pow2Mono(WORD - hidden, sig);
    } else if WORD - 1 - hidden > sig {
      Pow2Strict(sig, WORD - 1 - hidden);
    }
    if WORD - 1 - lead >= sig {
      Pow2Mono(sig, WORD - 1 - lead);
    }
  }

  lemma Pow2Strict(a: nat, b: nat)
    requires a < b
    ensures Pow2(a) < Pow2(b)
  {
    Pow2Mono(a, b - 1);
  }

  lemma ExtendZero(n: Format, w: Format)
    requires Widens(w, n)
    ensures AbsExtendsTo(n, w, 0, 0)
  {
    DenormalMag(n, 0);
    DenormalMag(w, 0);
    BelowInfinity(n, 0);
    BelowInfinity(w, 0);
  }

  lemma AssembleWide(n: Format, w: Format, a: nat, r: nat)
    requires Widens(w, n) && n.Encodes(a) && AbsExtendsTo(n, w, n.Abs(a), r)
    ensures w.Width() >= n.Width()
    ensures ExtendsTo(n, w, a, BitOr(r, Shl(BitAnd(a, Pow2(n.sig + n.exp)), w.Width() - n.Width())))
  {
    hide BitOr, BitAnd, Shr, Low, Pow2, Format.Mag;
    WidthFacts(w, n);
    SourceFields(n, a);
    Pow2Add(n.sig + n.exp, w.Width() - n.Width());
    Assoc(n.Sign(a), Pow2(n.sig + n.exp), Pow2(w.Width() - n.Width()));
    if n.Abs(a) >= n.Infinity() {
      ExtendSpecial(n, w, n.Abs(a));
    }
    SignFields(w, n.Sign(a), r);
  }

  /** Truncating an extended value gives it back, except that a signalling NaN becomes quiet. */
  lemma RoundTrip(n: Format, w: Format, a: nat, wide: nat, back: nat)
    requires Widens(w, n) && n.Encodes(a)
    requires ExtendsTo(n, w, a, wide) && TruncatesTo(w, n, wide, back)
    ensures !n.IsNaN(a) || n.IsQuietNaN(a) ==> back == a
    ensures n.IsNaN(a) && !n.IsQuietNaN(a) ==> back == a + Pow2(n.sig - 1)
  {
    hide Low, Shr, Pow2, AbsExtendsTo, AbsTruncatesTo;
    WideTop(n);
    if n.IsNaN(a) {
      NaNRoundTrip(n, w, a, wide, back);
    } else {
      NumberRoundTrip(n, w, n.Abs(a), wide, n.Abs(back));
    }
    Split(a, n.sig + n.exp);
    Split(back, n.sig + n.exp);
  }

  lemma NumberRoundTrip(n: Format, w: Format, x: nat, wide: nat, y: nat)
    requires Widens(w, n) && x <= n.Infinity()
    requires AbsExtendsTo(n, w, x, w.Abs(wide)) && AbsTruncatesTo(w, n, wide, y)
    ensures y == x
  {
    hide Format.Mag, Scaled, RoundsTo, Format.Abs;
    if x == n.Infinity() {
      InfinityRoundTrip(n, w);
    } else {
      ExactRounds(n, w, x, w.Abs(wide));
    }
    RoundsToMonotone(w, n, w.Abs(wide), w.Abs(wide), y, x);
  }

  lemma NaNRoundTrip(n: Format, w: Format, a: nat, wide: nat, back: nat)
    requires Widens(w, n) && n.IsNaN(a)
    requires AbsExtendsTo(n, w, n.Abs(a), w.Abs(wide)) && AbsTruncatesTo(w, n, wide, n.Abs(back))
    ensures n.Abs(back) == if n.IsQuietNaN(a) then n.Abs(a) else n.Abs(a) + Pow2(n.sig - 1)
  {
    hide Low, Shr, Format.Mag, RoundsTo, Scaled, Pow2;
    WideTop(n);
    ExtendedNaN(n, w, n.Abs(a), w.Abs(wide));
    PayloadOfAbs(n, w, a, wide, back);
    QuietFields(n, n.Abs(a), n.Abs(back));
  }

  lemma InfinityRoundTrip(n: Format, w: Format)
    requires Widens(w, n)
    ensures RoundsTo(w, n, w.Infinity(), n.Infinity())
  {
  }

  /** A representable value rounds to itself. */
  lemma ExactRounds(n: Format, w: Format, x: nat, r: nat)
    requires Widens(w, n) && x < n.Infinity() && AbsExtendsTo(n, w, x, r)
    ensures RoundsTo(w, n, r, x)
  {
    hide Format.Mag, RoundsTo, Scaled;
    ScaledStep(w, n, x);
    ScaledMono(w, n, x, x + 1);
    RoundingRule(w, n, r, x, 0, Ulp(n, x) * Pow2(UnitShift(w, n)), x);
  }

  lemma NaNShift(ie: nat, q: nat, h: nat, p: nat, pk: nat)
    requires p < h && pk > 0
    ensures ie * (2 * (h * pk)) + (q * h + p) * pk == (2 * ie + q) * (h * pk) + p * pk
    ensures p * pk < h * pk
  {
    MulMono(p, h, pk);
    Distribute(q * h, p, pk);
    Assoc(q, h, pk);
    Distribute(2 * ie, q, h * pk);
    Assoc(ie, 2, h * pk);
  }

  lemma ExtendedNaNWord(n: Format, w: Format, x: nat, r: nat)
    requires Widens(w, n) && n.Infinity() < x < Pow2(n.sig + n.exp) && AbsExtendsTo(n, w, x, r)
    ensures r > w.Infinity()
    ensures var k, q, p := w.sig - n.sig, Shr(x, n.sig - 1) % 2, Low(x, n.sig - 1);
            r == (2 * w.InfExp() + q) * Pow2(w.sig - 1) + p * Pow2(k) && p * Pow2(k) < Pow2(w.sig - 1)
  {
    assert Pow2(w.sig) == 2 * Pow2(w.sig - 1);
    hide Low, Shr, Pow2;
    var k, q, p := w.sig - n.sig, Shr(x, n.sig - 1) % 2, Low(x, n.sig - 1);
    WideTop(n);
    SpecialFraction(n, x);
    MulMono(0, x - n.Infinity(), Pow2(k));
    Pow2Add(n.sig - 1, k);
    NaNShift(w.InfExp(), q, Pow2(n.sig - 1), p, Pow2(k));
  }

  /** Fields of an extended NaN. */
  lemma ExtendedNaN(n: Format, w: Format, x: nat, r: nat)
    requires Widens(w, n) && n.Infinity() < x < Pow2(n.sig + n.exp) && AbsExtendsTo(n, w, x, r)
    ensures r > w.Infinity()
    ensures Shr(Low(r, w.sig - 1), w.sig - n.sig) == Low(x, n.sig - 1)
  {
    hide Low, Shr, Pow2, AbsExtendsTo, Format.Infinity;
    var k, q, p := w.sig - n.sig, Shr(x, n.sig - 1) % 2, Low(x, n.sig - 1);
    ExtendedNaNWord(n, w, x, r);
    SplitUnique(r, w.sig - 1, 2 * w.InfExp() + q, p * Pow2(k));
    SplitUnique(p * Pow2(k), k, p, 0);
  }

  lemma PayloadOfAbs(n: Format, w: Format, a: nat, wide: nat, back: nat)
    requires Widens(w, n)
    ensures Low(w.Abs(wide), w.sig - 1) == Payload(w, wide)
    ensures Low(n.Abs(a), n.sig - 1) == Payload(n, a)
    ensures Low(n.Abs(back), n.sig - 1) == Payload(n, back)
  {
    LowOfAbs(w, wide, w.sig - 1);
    LowOfAbs(n, a, n.sig - 1);
    LowOfAbs(n, back, n.sig - 1);
  }

  /** A quiet NaN is determined by its payload. */
  lemma QuietFields(n: Format, x: nat, y: nat)
    requires n.Valid() && n.Infinity() < x < n.Infinity() + Pow2(n.sig)
    requires n.Infinity() + Pow2(n.sig - 1) <= y < n.Infinity() + Pow2(n.sig)
    requires Low(x, n.sig - 1) == Low(y, n.sig - 1)
    ensures y == if x - n.Infinity() >= Pow2(n.sig - 1) then x else x + Pow2(n.sig - 1)
  {
    SpecialFraction(n, x);
    SpecialFraction(n, y);
    var h := Pow2(n.sig - 1);
    hide Low, Shr;
    Halves(0, Shr(x, n.sig - 1) % 2, h);
    Halves(0, Shr(y, n.sig - 1) % 2, h);
    assert forall q | 0 <= q <= 1 :: q * h == if q == 0 then 0 else h;
  }
}
