/**
 `__truncXfYf2__`: conversion to a narrower format, for every pair of widths in `Widens`.
 */
module FloatTruncate {
  import opened Bits
  import opened FloatFormat

  /** Bits of a NaN below the quiet bit. */
  function Payload(f: Format, a: nat): nat
    requires f.Valid()
  {
    Low(a, f.sig - 1)
  }

  /**
   What truncation promises: the sign is kept, a NaN becomes a quiet NaN with the leading bits
   of its payload, and any other value is rounded to nearest, ties to even.
   */
  ghost predicate TruncatesTo(w: Format, n: Format, a: nat, r: nat)
    requires Widens(w, n)
  {
    n.Encodes(r) && n.Sign(r) == w.Sign(a) && AbsTruncatesTo(w, n, a, n.Abs(r))
  }

  ghost predicate AbsTruncatesTo(w: Format, n: Format, a: nat, r: nat)
    requires Widens(w, n)
  {
    if w.IsNaN(a) then
      n.Infinity() + Pow2(n.sig - 1) <= r && Payload(n, r) == Shr(Payload(w, a), w.sig - n.sig)
    else
      RoundsTo(w, n, w.Abs(a), r)
  }

  /** Adjustment of a truncated quotient t by its round bits. */
  function Rounded(t: nat, roundBits: nat, halfway: nat): nat {
    if roundBits > halfway then t + 1 else if roundBits == halfway then t + t % 2 else t
  }

  /** Right shift that keeps a nonzero remainder as the lowest bit. */
  function StickyShr(a: nat, k: nat): nat {
    BitOr(Shr(a, k), if Low(a, k) != 0 then 1 else 0)
  }

  lemma ExponentAtLeast(f: Format, x: nat, e: nat)
    ensures x >= e * Pow2(f.sig) <==> f.Exponent(x) >= e
  {
    Split(x, f.sig);
    OrderByQuotient(f.Exponent(x), e, Pow2(f.sig), Low(x, f.sig));
  }

  lemma OrderByQuotient(q: nat, e: nat, p: nat, r: nat)
    requires r < p
    ensures q * p + r >= e * p <==> q >= e
  {
    if q < e {
      Distribute(q, 1, p);
      assert (q + 1) * p <= e * p;
    }
  }

  lemma WidthFacts(w: Format, n: Format)
    requires Widens(w, n)
    ensures w.exp > n.exp && n.InfExp() >= 3
    ensures BiasGap(w, n) + n.InfExp() <= w.InfExp()
    ensures w.Infinity() < Pow2(w.sig + w.exp) && n.Infinity() + Pow2(n.sig) == Pow2(n.sig + n.exp)
    ensures (BiasGap(w, n) + n.InfExp()) * Pow2(w.sig) <= w.Infinity()
  {
    if w.exp <= n.exp {
      Pow2Mono(w.exp, n.exp);
    }
    Pow2Mono(2, n.exp);
    Pow2Add(n.exp, n.sig);
    Pow2Add(w.exp, w.sig);
    Distribute(n.InfExp(), 1, Pow2(n.sig));
    Distribute(w.InfExp(), 1, Pow2(w.sig));
    ScaleBound(BiasGap(w, n) + n.InfExp(), w.InfExp(), Pow2(w.sig));
  }

  lemma ScaleBound(x: nat, y: nat, k: nat)
    requires x <= y
    ensures x * k <= y * k
  {
  }

  /** Fields of the shifted and rebiased pattern. */
  lemma NormalFields(w: Format, n: Format, x: nat, t: nat)
    requires Widens(w, n)
    requires BiasGap(w, n) < w.Exponent(x) < BiasGap(w, n) + n.InfExp()
    requires Shr(x, w.sig - n.sig) == BiasGap(w, n) * Pow2(n.sig) + t
    ensures n.Exponent(t) == w.Exponent(x) - BiasGap(w, n)
    ensures Low(x, w.sig) == Low(t, n.sig) * Pow2(w.sig - n.sig) + Low(x, w.sig - n.sig)
    ensures t < n.Infinity() && x < w.Infinity()
  {
    hide Low, Shr, Pow2;
    var k, q := w.sig - n.sig, Shr(x, w.sig - n.sig);
    ShrShr(x, k, n.sig);
    LowLow(x, k, n.sig);
    Split(q, n.sig);
    Distribute(w.Exponent(x), BiasGap(w, n), Pow2(n.sig));
    SplitUnique(t, n.sig, w.Exponent(x) - BiasGap(w, n), Low(q, n.sig));
    ExponentAtLeast(n, t, n.InfExp());
    BelowOverflow(w, n, x);
  }

  /** The shifted pattern is the floor, and the discarded bits are the remainder. */
  lemma NormalValue(w: Format, n: Format, x: nat, t: nat)
    requires Widens(w, n)
    requires 1 <= n.Exponent(t) == w.Exponent(x) - BiasGap(w, n)
    requires Low(x, w.sig) == Low(t, n.sig) * Pow2(w.sig - n.sig) + Low(x, w.sig - n.sig)
    ensures w.Mag(x) == Scaled(w, n, t) + Low(x, w.sig - n.sig) * Pow2(w.Exponent(x) - 1)
    ensures Scaled(w, n, t + 1) == Scaled(w, n, t) + Pow2(w.sig - n.sig) * Pow2(w.Exponent(x) - 1)
  {
    var k, e, u := w.sig - n.sig, w.Exponent(x), UnitShift(w, n);
    Pow2Add(n.Exponent(t) - 1, u);
    Pow2Add(k, e - 1);
    Pow2Add(n.sig, k);
    NormalIdentity(Pow2(n.sig), Low(t, n.sig), Low(x, k), Pow2(k), Pow2(e - 1), Pow2(n.Exponent(t) - 1), Pow2(u));
    ScaledStep(w, n, t);
  }

  /** The exponent is normal in both formats. */
  lemma NormalBranch(w: Format, n: Format, x: nat, t: nat)
    requires Widens(w, n)
    requires BiasGap(w, n) < w.Exponent(x) < BiasGap(w, n) + n.InfExp()
    requires Shr(x, w.sig - n.sig) == BiasGap(w, n) * Pow2(n.sig) + t
    ensures t < n.Infinity() && x < w.Infinity()
    ensures RoundsTo(w, n, x, Rounded(t, Low(x, w.sig - n.sig), Pow2(w.sig - n.sig - 1)))
  {
    hide Format.Mag, Scaled, Low, Shr, RoundsTo;
    NormalFields(w, n, x, t);
    NormalValue(w, n, x, t);
    var k, pe, rb := w.sig - n.sig, Pow2(w.Exponent(x) - 1), Low(x, w.sig - n.sig);
    ScaleOrder(rb, Pow2(k - 1), pe);
    RoundingRule(w, n, x, t, rb * pe, Pow2(k) * pe, Rounded(t, rb, Pow2(k - 1)));
  }

  /** Splitting a significand at the rounding position and rescaling the quotient. */
  lemma NormalIdentity(pd: nat, m: nat, rb: nat, p: nat, pe: nat, pn: nat, pu: nat)
    requires pn * pu == p * pe
    ensures (pd * p + (m * p + rb)) * pe == ((pd + m) * pn) * pu + rb * pe
  {
    calc {
      (pd * p + (m * p + rb)) * pe;
      { Distribute(pd, m, p); }
      ((pd + m) * p + rb) * pe;
      { Distribute((pd + m) * p, rb, pe); }
      ((pd + m) * p) * pe + rb * pe;
      { Assoc(pd + m, p, pe); }
      (pd + m) * (pn * pu) + rb * pe;
      { Assoc(pd + m, pn, pu); }
      ((pd + m) * pn) * pu + rb * pe;
    }
  }

  lemma Assoc(x: nat, y: nat, z: nat)
    ensures (x * y) * z == x * (y * z)
  {
  }

  /** Comparing round bits with half is comparing the scaled remainder with the scaled gap. */
  lemma ScaleOrder(rb: nat, h: nat, k: nat)
    requires rb < 2 * h && k > 0
    ensures rb * k < (2 * h) * k
    ensures 2 * (rb * k) > (2 * h) * k <==> rb > h
    ensures 2 * (rb * k) == (2 * h) * k <==> rb == h
  {
    Double(h, k);
    if rb > h { MulMono(h, rb, k); } else if rb < h { MulMono(rb, h, k); }
    MulMono(rb, 2 * h, k);
    assert (2 * h) * k == 2 * (h * k);
  }

  /** Encodings up to the least normal are their own value. */
  lemma DenormalMag(n: Format, t: nat)
    requires t <= Pow2(n.sig)
    ensures n.Mag(t) == t
  {
    if t < Pow2(n.sig) {
      LowOfSmall(t, n.sig);
    } else {
      SplitUnique(t, n.sig, 1, 0);
    }
  }

  /** Shifting with a sticky bit orders round bits against half as the full remainder is. */
  lemma StickyOrder(significand: nat, shift: nat, k: nat)
    requires k >= 2
    ensures var den := StickyShr(significand, shift);
            && Shr(den, k) == Shr(significand, shift + k)
            && var rb, half, rho := Low(den, k), Pow2(k - 1), Low(significand, shift + k);
               && (rb > half <==> 2 * rho > Pow2(shift + k))
               && (rb == half <==> 2 * rho == Pow2(shift + k))
  {
    var top, low := Shr(significand, shift), Low(significand, shift);
    var den := StickyShr(significand, shift);
    OrFlag(top, low != 0);
    assert den / 2 == top / 2;
    assert Low(den, k) == den % 2 + 2 * Low(top / 2, k - 1);
    assert Low(top, k) == top % 2 + 2 * Low(top / 2, k - 1);
    ShrShr(significand, shift, k);
    LowLow(significand, shift, k);
    Pow2Add(shift, k);
    StickyCompare(Low(top / 2, k - 1), top % 2, low, Pow2(shift), Pow2(k - 2));
  }

  /** With h2 a quarter of the rounding unit: remainder (2m + b) * p + low against 2 * h2 * p. */
  lemma StickyCompare(m: nat, b: nat, low: nat, p: nat, h2: nat)
    requires b <= 1 && low < p && h2 >= 1
    ensures var rb := 2 * m + (if low != 0 then 1 else b);
            var rho := (b + 2 * m) * p + low;
            && (rb > 2 * h2 <==> 2 * rho > p * (4 * h2))
            && (rb == 2 * h2 <==> 2 * rho == p * (4 * h2))
  {
    var r := b + 2 * m;
    assert p * (4 * h2) == 2 * ((2 * h2) * p);
    if r >= 2 * h2 + 1 {
      ScaleBound(2 * h2 + 1, r, p);
      Distribute(2 * h2, 1, p);
    } else if r + 1 <= 2 * h2 {
      ScaleBound(r + 1, 2 * h2, p);
      Distribute(r, 1, p);
    }
  }

  /** Floor and remainder of a value below the least normal. */
  lemma DenormalFloor(w: Format, n: Format, x: nat, shift: nat, t: nat, rho: nat, pe: nat)
    requires Widens(w, n)
    requires 1 <= shift <= w.sig && w.Exponent(x) == BiasGap(w, n) + 1 - shift
    requires pe == Pow2(BiasGap(w, n) - shift)
    requires t == Shr(Pow2(w.sig) + Low(x, w.sig), shift + w.sig - n.sig)
    requires rho == Low(Pow2(w.sig) + Low(x, w.sig), shift + w.sig - n.sig)
    ensures t < Pow2(n.sig)
    ensures w.Mag(x) == Scaled(w, n, t) + rho * pe
    ensures Scaled(w, n, t + 1) == Scaled(w, n, t) + Pow2(shift + w.sig - n.sig) * pe
  {
    hide Low, Shr, Scaled;
    var significand, j := Pow2(w.sig) + Low(x, w.sig), shift + w.sig - n.sig;
    Split(significand, j);
    DenormalQuotient(w, n, significand, shift);
    Pow2Add(j, BiasGap(w, n) - shift);
    DenormalValue(w, n, t, rho, Pow2(j), pe);
  }

  /** The result is denormal or rounds up to the least normal. */
  lemma DenormalBranch(w: Format, n: Format, x: nat, shift: nat)
    requires Widens(w, n)
    requires 1 <= shift <= w.sig && w.Exponent(x) == BiasGap(w, n) + 1 - shift
    ensures var den, k := StickyShr(Pow2(w.sig) + Low(x, w.sig), shift), w.sig - n.sig;
            && Shr(den, k) < Pow2(n.sig)
            && x < w.Infinity()
            && RoundsTo(w, n, x, Rounded(Shr(den, k), Low(den, k), Pow2(k - 1)))
  {
    hide Format.Mag, Scaled, StickyShr, Low, Shr, Pow2, RoundsTo;
    var significand, k := Pow2(w.sig) + Low(x, w.sig), w.sig - n.sig;
    var t, rho, pe := Shr(significand, shift + k), Low(significand, shift + k), Pow2(BiasGap(w, n) - shift);
    StickyOrder(significand, shift, k);
    DenormalFloor(w, n, x, shift, t, rho, pe);
    ScaleRemainder(rho, Pow2(shift + k), pe);
    WidthFacts(w, n);
    BelowOverflow(w, n, x);
    BelowInfinity(n, t);
    var den := StickyShr(significand, shift);
    RoundingRule(w, n, x, t, rho * pe, Pow2(shift + k) * pe, Rounded(t, Low(den, k), Pow2(k - 1)));
  }

  lemma BelowOverflow(w: Format, n: Format, x: nat)
    requires Widens(w, n) && w.Exponent(x) < BiasGap(w, n) + n.InfExp()
    ensures x < w.Infinity()
  {
    WidthFacts(w, n);
    ExponentAtLeast(w, x, BiasGap(w, n) + n.InfExp());
  }

  lemma BelowInfinity(n: Format, t: nat)
    requires n.Valid() && t < Pow2(n.sig)
    ensures t < n.Infinity()
  {
    Pow2Mono(2, n.exp);
    ScaleBound(1, n.InfExp(), Pow2(n.sig));
  }

  lemma ScaleRemainder(rho: nat, g: nat, k: nat)
    requires rho < g && k > 0
    ensures rho * k < g * k
    ensures 2 * (rho * k) > g * k <==> 2 * rho > g
    ensures 2 * (rho * k) == g * k <==> 2 * rho == g
  {
    MulMono(rho, g, k);
    assert 2 * (rho * k) == (2 * rho) * k;
    if 2 * rho > g { MulMono(g, 2 * rho, k); } else if 2 * rho < g { MulMono(2 * rho, g, k); }
  }

  lemma DenormalQuotient(w: Format, n: Format, significand: nat, shift: nat)
    requires Widens(w, n) && 1 <= shift && significand < 2 * Pow2(w.sig)
    ensures Shr(significand, shift + w.sig - n.sig) < Pow2(n.sig)
  {
    var j := shift + w.sig - n.sig;
    Split(significand, j);
    Pow2Add(n.sig, j);
    Pow2Mono(w.sig + 1, n.sig + j);
    if Shr(significand, j) >= Pow2(n.sig) {
      ScaleBound(Pow2(n.sig), Shr(significand, j), Pow2(j));
    }
  }

  lemma DenormalValue(w: Format, n: Format, t: nat, rho: nat, pj: nat, pe: nat)
    requires Widens(w, n) && t < Pow2(n.sig)
    requires pj * pe == Pow2(UnitShift(w, n))
    ensures (t * pj + rho) * pe == Scaled(w, n, t) + rho * pe
    ensures Scaled(w, n, t + 1) == Scaled(w, n, t) + pj * pe
  {
    DenormalMag(n, t);
    DenormalMag(n, t + 1);
    Distribute(t * pj, rho, pe);
    Assoc(t, pj, pe);
    Distribute(t, 1, pj * pe);
  }

  /** Everything below the shift limit is less than half the least denormal. */
  lemma FlushBranch(w: Format, n: Format, x: nat)
    requires Widens(w, n) && w.Exponent(x) + w.sig <= BiasGap(w, n)
    ensures x < w.Infinity() && RoundsTo(w, n, x, 0)
  {
    var e, u := w.Exponent(x), UnitShift(w, n);
    FlushValue(w, n, x);
    DenormalMag(n, 0);
    DenormalMag(n, 1);
    BelowOverflow(w, n, x);
    BelowInfinity(n, 0);
    RoundingRule(w, n, x, 0, w.Mag(x), Pow2(u), 0);
  }

  lemma FlushValue(w: Format, n: Format, x: nat)
    requires Widens(w, n) && w.Exponent(x) + w.sig <= BiasGap(w, n)
    ensures 2 * w.Mag(x) < Pow2(UnitShift(w, n))
  {
    var e, s := w.Exponent(x), w.sig;
    if e == 0 {
      Pow2Mono(s + 1, UnitShift(w, n));
    } else {
      Pow2Add(s + 1, e - 1);
      MulMono(Pow2(s) + Low(x, s), Pow2(s + 1), Pow2(e - 1));
      Pow2Mono(s + e + 1, UnitShift(w, n));
    }
  }

  /** Finite values from the overflow exponent on are past the threshold. */
  lemma OverflowBranch(w: Format, n: Format, x: nat)
    requires Widens(w, n) && w.Exponent(x) >= BiasGap(w, n) + n.InfExp()
    ensures RoundsTo(w, n, x, n.Infinity())
  {
    hide Low, Shr, NoCloserEncoding;
    var s, e, o := w.sig, w.Exponent(x), BiasGap(w, n) + n.InfExp();
    Pow2Mono(2, n.exp);
    ScaleBound(Pow2(s), Pow2(s) + Low(x, s), Pow2(e - 1));
    Pow2Add(s, e - 1);
    Pow2Mono(s + o - 1, s + e - 1);
    Pow2Add(n.sig + 2, n.InfExp() - 2);
    Pow2Add(n.sig + n.InfExp(), UnitShift(w, n));
    ScaleBound(4 * Pow2(n.sig) - 1, Pow2(n.sig + 2), Pow2(n.InfExp() - 2));
    ScaleBound((4 * Pow2(n.sig) - 1) * Pow2(n.InfExp() - 2), Pow2(n.sig + n.InfExp()), Pow2(UnitShift(w, n)));
  }

  /** The unsigned comparison `aAbs - underflow < aAbs - overflow` is an interval test. */
  lemma RangeTest(a: nat, lo: nat, hi: nat, width: nat)
    requires lo <= hi < Pow2(width) && a < Pow2(width)
    ensures SubWrap(a, lo, width) < SubWrap(a, hi, width) <==> lo <= a < hi
  {
  }

  /** The shift and the rebiasing subtraction of the normal branch, in destination words. */
  lemma NormalWords(w: Format, n: Format, x: nat)
    requires Widens(w, n)
    requires BiasGap(w, n) < w.Exponent(x) < BiasGap(w, n) + n.InfExp()
    ensures var k, g, bits := w.sig - n.sig, BiasGap(w, n), n.Width();
            var t := SubWrap(Low(Shr(x, k), bits), Low(Shl(Low(g, bits), n.sig), bits), bits);
            && t < n.Infinity() && t + 1 < Pow2(bits) && x < w.Infinity()
            && RoundsTo(w, n, x, Rounded(t, Low(x, k), Pow2(k - 1)))
  {
    var k, g, bits := w.sig - n.sig, BiasGap(w, n), n.Width();
    var q := Shr(x, k);
    ShrShr(x, k, n.sig);
    ExponentAtLeast(n, q, g);
    var t := q - Shl(g, n.sig);
    NormalBranch(w, n, x, t);
    WidthFacts(w, n);
    LowOfShl(g, n.sig, bits);
    SubWrapExact(q, Shl(g, n.sig), bits);
  }

  lemma PayloadFits(w: Format, n: Format, a: nat)
    requires Widens(w, n)
    ensures Shr(Low(a, w.sig - 1), w.sig - n.sig) < Pow2(n.sig - 1)
  {
    var p, k := Low(a, w.sig - 1), w.sig - n.sig;
    Split(p, k);
    Pow2Add(n.sig - 1, k);
    if Shr(p, k) >= Pow2(n.sig - 1) {
      ScaleBound(Pow2(n.sig - 1), Shr(p, k), Pow2(k));
    }
  }

  /** Infinity with the quiet bit and a payload. */
  lemma NaNWords(w: Format, n: Format, payload: nat)
    requires Widens(w, n) && payload < Pow2(n.sig - 1)
    ensures var r := BitOr(BitOr(Shl(n.InfExp(), n.sig), Pow2(n.sig - 1)), payload);
            && r == (2 * n.InfExp() + 1) * Pow2(n.sig - 1) + payload
            && r == n.Infinity() + Pow2(n.sig - 1) + payload
  {
    hide BitOr;
    var ie := n.InfExp();
    hide Format.InfExp;
    OrDisjoint(ie, Pow2(n.sig - 1), n.sig);
    OddHalf(ie, Pow2(n.sig - 1));
    OrDisjoint(2 * ie + 1, payload, n.sig - 1);
  }

  lemma OddHalf(ie: nat, h: nat)
    ensures (2 * ie + 1) * h == ie * (2 * h) + h
  {
  }

  lemma NaNBranch(w: Format, n: Format, a: nat)
    requires Widens(w, n) && w.IsNaN(a)
    ensures var x, k := w.Abs(a), w.sig - n.sig;
            var p := BitAnd(Shr(BitAnd(x, Pow2(w.sig - 1) - 1), k), Pow2(n.sig - 1) - 1);
            var r := BitOr(BitOr(Shl(n.InfExp(), n.sig), Pow2(n.sig - 1)), p);
            r < Pow2(n.sig + n.exp) && AbsTruncatesTo(w, n, a, r)
  {
    hide BitOr, BitAnd, Low, Shr, Shl, Pow2, Format.InfExp, Format.Infinity, AbsTruncatesTo, Format.IsNaN;
    var p := Shr(Payload(w, a), w.sig - n.sig);
    LowOfAbs(w, a, w.sig - 1);
    AndMask(w.Abs(a), w.sig - 1);
    PayloadFits(w, n, a);
    AndMask(p, n.sig - 1);
    LowOfSmall(p, n.sig - 1);
    NaNWords(w, n, p);
    QuietNaN(w, n, a, n.Infinity() + Pow2(n.sig - 1) + p, 2 * n.InfExp() + 1);
  }

  lemma QuietNaN(w: Format, n: Format, a: nat, r: nat, hi: nat)
    requires Widens(w, n) && w.IsNaN(a)
    requires var p := Shr(Payload(w, a), w.sig - n.sig);
             p < Pow2(n.sig - 1) && r == n.Infinity() + Pow2(n.sig - 1) + p && r == hi * Pow2(n.sig - 1) + p
    ensures r < Pow2(n.sig + n.exp) && AbsTruncatesTo(w, n, a, r)
  {
    assert Pow2(n.sig) == 2 * Pow2(n.sig - 1);
    hide Low, Shr, Pow2, Format.InfExp, Format.Infinity, Format.Bias, Format.IsNaN;
    WidthFacts(w, n);
    SplitUnique(r, n.sig - 1, hi, Shr(Payload(w, a), w.sig - n.sig));
  }

  /** Reassembling the sign and the magnitude. */
  lemma SignFields(n: Format, sign: nat, r: nat)
    requires sign <= 1 && r < Pow2(n.sig + n.exp)
    ensures var word := BitOr(r, Shl(sign, n.sig + n.exp));
            n.Encodes(word) && n.Sign(word) == sign && n.Abs(word) == r
  {
    OrComm(r, Shl(sign, n.sig + n.exp));
    OrDisjoint(sign, r, n.sig + n.exp);
    SplitUnique(sign * Pow2(n.sig + n.exp) + r, n.sig + n.exp, sign, r);
  }

  lemma SourceFields(w: Format, a: nat)
    requires w.Encodes(a)
    ensures w.Sign(a) <= 1
    ensures BitAnd(a, Pow2(w.sig + w.exp)) == Shl(w.Sign(a), w.sig + w.exp)
    ensures BitAnd(a, Pow2(w.sig + w.exp) - 1) == w.Abs(a)
  {
    var k := w.sig + w.exp;
    assert Pow2(w.Width()) == 2 * Pow2(k);
    hide BitAnd, Low, Shr, Pow2;
    AndBit(a, k);
    AndMask(a, k);
    Split(a, k);
    HighBit(Shr(a, k), Pow2(k), Low(a, k));
  }

  lemma HighBit(hi: nat, p: nat, low: nat)
    requires hi * p + low < 2 * p
    ensures hi <= 1 && hi % 2 == hi
  {
    if hi >= 2 {
      ScaleBound(2, hi, p);
    }
  }

  /** Low bits of the word and of its magnitude agree inside the magnitude. */
  lemma LowOfAbs(w: Format, a: nat, k: nat)
    requires k <= w.sig
    ensures Low(w.Abs(a), k) == Low(a, k)
  {
    LowOfLow(a, k, w.sig + w.exp - k);
  }

  lemma LowOfLow(a: nat, k: nat, j: nat)
    ensures Low(Low(a, k + j), k) == Low(a, k)
  {
    LowLow(a, k, j);
    LowOfSum(Low(Shr(a, k), j), Low(a, k), k);
    LowOfSmall(Low(a, k), k);
  }

  /** The magnitude decides the result up to its sign. */
  lemma Assemble(w: Format, n: Format, a: nat, r: nat)
    requires Widens(w, n) && w.Encodes(a)
    requires r < Pow2(n.sig + n.exp) && AbsTruncatesTo(w, n, a, r)
    ensures w.Width() >= n.Width()
    ensures TruncatesTo(w, n, a, BitOr(r, Shr(BitAnd(a, Pow2(w.sig + w.exp)), w.Width() - n.Width())))
  {
    hide AbsTruncatesTo, BitOr, BitAnd, Shr, Low, Pow2;
    WidthFacts(w, n);
    SourceFields(w, a);
    ShrOfShl(w.Sign(a), n.sig + n.exp, w.Width() - n.Width());
    SignFields(n, w.Sign(a), r);
  }

  lemma RoundedMagnitude(w: Format, n: Format, a: nat, r: nat)
    requires Widens(w, n) && !w.IsNaN(a) && RoundsTo(w, n, w.Abs(a), r)
    ensures r < Pow2(n.sig + n.exp) && AbsTruncatesTo(w, n, a, r)
  {
    hide NoCloserEncoding, Format.Mag;
    WidthFacts(w, n);
  }

  /** Where the thresholds of the branches lie. */
  lemma BranchTests(w: Format, n: Format, x: nat)
    requires Widens(w, n) && x < Pow2(w.sig + w.exp)
    ensures var lo, hi := Shl(BiasGap(w, n) + 1, w.sig), Shl(BiasGap(w, n) + n.InfExp(), w.sig);
            && lo < Pow2(w.Width()) && hi < Pow2(w.Width()) && x < Pow2(w.Width())
            && (SubWrap(x, lo, w.Width()) < SubWrap(x, hi, w.Width())
                <==> BiasGap(w, n) < w.Exponent(x) < BiasGap(w, n) + n.InfExp())
            && (x >= hi <==> w.Exponent(x) >= BiasGap(w, n) + n.InfExp())
            && (x > w.Infinity() ==> x >= hi)
  {
    hide Low, Shr;
    WidthFacts(w, n);
    ExponentAtLeast(w, x, BiasGap(w, n) + 1);
    ExponentAtLeast(w, x, BiasGap(w, n) + n.InfExp());
    ScaleBound(BiasGap(w, n) + 1, BiasGap(w, n) + n.InfExp(), Pow2(w.sig));
    RangeTest(x, Shl(BiasGap(w, n) + 1, w.sig), Shl(BiasGap(w, n) + n.InfExp(), w.sig), w.Width());
  }

  /**
   The conversion, on words of w.Width() and n.Width() bits. Subtractions wrap, stores into the
   destination word keep its low bits.
   */
  method Truncate(w: Format, n: Format, a: nat) returns (result: nat)
    requires Widens(w, n) && w.Encodes(a)
    ensures TruncatesTo(w, n, a, result)
  {
    hide Low, Shr, Shl, SubWrap, BitOr, BitAnd, RoundsTo, TruncatesTo, AbsTruncatesTo;
    hide Pow2, Format.InfExp, Format.Infinity, Format.Bias;
    var srcBits, dstBits, k := w.Width(), n.Width(), w.sig - n.sig;
    var srcMinNormal := Pow2(w.sig);
    var srcInfinity := w.Infinity();
    var srcSignMask := Pow2(w.sig + w.exp);
    var roundMask, halfway := Pow2(k) - 1, Pow2(k - 1);
    var srcNaNCode := Pow2(w.sig - 1) - 1;
    var underflow := Shl(w.Bias() + 1 - n.Bias(), w.sig);
    var overflow := Shl(w.Bias() + n.InfExp() - n.Bias(), w.sig);
    var dstQNaN, dstNaNCode := Pow2(n.sig - 1), Pow2(n.sig - 1) - 1;

    var aAbs, sign := BitAnd(a, srcSignMask - 1), BitAnd(a, srcSignMask);
    SourceFields(w, a);
    BranchTests(w, n, aAbs);
    WidthFacts(w, n);
    var absResult: nat;
    if SubWrap(aAbs, underflow, srcBits) < SubWrap(aAbs, overflow, srcBits) {
      NormalWords(w, n, aAbs);
      absResult := Low(Shr(aAbs, k), dstBits);
      absResult := SubWrap(absResult, Low(Shl(Low(w.Bias() - n.Bias(), dstBits), n.sig), dstBits), dstBits);
      AndMask(aAbs, k);
      var roundBits := BitAnd(aAbs, roundMask);
      if roundBits > halfway {
        LowOfSmall(absResult + 1, dstBits);
        absResult := Low(absResult + 1, dstBits);
      } else if roundBits == halfway {
        LowestBit(absResult);
        LowOfSmall(absResult + absResult % 2, dstBits);
        absResult := Low(absResult + BitAnd(absResult, 1), dstBits);
      }
      RoundedMagnitude(w, n, a, absResult);
    } else if aAbs > srcInfinity {
      NaNBranch(w, n, a);
      absResult := Shl(n.InfExp(), n.sig);
      absResult := BitOr(absResult, dstQNaN);
      absResult := BitOr(absResult, BitAnd(Shr(BitAnd(aAbs, srcNaNCode), k), dstNaNCode));
    } else if aAbs >= overflow {
      OverflowBranch(w, n, aAbs);
      absResult := n.Infinity();
      RoundedMagnitude(w, n, a, absResult);
    } else {
      var aExp := Shr(aAbs, w.sig);
      var shift := w.Bias() - n.Bias() - aExp + 1;
      HiddenBit(w, a);
      var significand := BitOr(BitAnd(a, srcMinNormal - 1), srcMinNormal);
      if shift > w.sig {
        absResult := 0;
        FlushBranch(w, n, aAbs);
      } else {
        StickyBit(significand, shift, srcBits);
        var sticky := Low(Shl(significand, srcBits - shift), srcBits) != 0;
        var denormalizedSignificand := BitOr(Shr(significand, shift), if sticky then 1 else 0);
        assert denormalizedSignificand == StickyShr(significand, shift);
        DenormalBranch(w, n, aAbs, shift);
        absResult := Shr(denormalizedSignificand, k);
        AndMask(denormalizedSignificand, k);
        var roundBits := BitAnd(denormalizedSignificand, roundMask);
        if roundBits > halfway {
          absResult := absResult + 1;
        } else if roundBits == halfway {
          LowestBit(absResult);
          absResult := absResult + BitAnd(absResult, 1);
        }
      }
      RoundedMagnitude(w, n, a, absResult);
    }
    result := BitOr(absResult, Shr(sign, srcBits - dstBits));
    Assemble(w, n, a, absResult);
  }

  /** The significand of the denormal branch, with the hidden bit set whatever the exponent. */
  lemma HiddenBit(w: Format, a: nat)
    ensures BitOr(BitAnd(a, Pow2(w.sig) - 1), Pow2(w.sig)) == Pow2(w.sig) + Low(w.Abs(a), w.sig)
  {
    hide BitOr, BitAnd, Low;
    AndMask(a, w.sig);
    LowOfAbs(w, a, w.sig);
    OrDisjoint(1, Low(a, w.sig), w.sig);
    OrComm(Low(a, w.sig), Pow2(w.sig));
  }

  lemma LowestBit(a: nat)
    ensures BitAnd(a, 1) == a % 2
  {
    AndMask(a, 1);
  }

  /** Shifting left until only the low bits remain tests them for zero. */
  lemma StickyBit(a: nat, shift: nat, width: nat)
    requires shift <= width
    ensures Low(Shl(a, width - shift), width) != 0 <==> Low(a, shift) != 0
  {
    hide Low, Shr, Pow2;
    Split(a, shift);
    Pow2Add(shift, width - shift);
    var h, l, p, q := Shr(a, shift), Low(a, shift), Pow2(shift), Pow2(width - shift);
    assert (h * p + l) * q == h * (p * q) + l * q;
    MulMono(l, p, q);
    SplitUnique(Shl(a, width - shift), width, h, l * q);
  }

  /** Across all branches the conversion is monotone in magnitude and has one result. */
  lemma TruncationMonotone(w: Format, n: Format, a: nat, b: nat, r: nat, s: nat)
    requires Widens(w, n) && !w.IsNaN(a) && !w.IsNaN(b) && w.Abs(a) <= w.Abs(b)
    requires TruncatesTo(w, n, a, r) && TruncatesTo(w, n, b, s)
    ensures n.Abs(r) <= n.Abs(s)
    ensures a == b ==> r == s
  {
    RoundsToMonotone(w, n, w.Abs(a), w.Abs(b), n.Abs(r), n.Abs(s));
    hide RoundsTo;
    Split(r, n.sig + n.exp);
    Split(s, n.sig + n.exp);
  }
}
