/**
 Binary interchange formats (section 3.4 of IEEE 754-2008) with any significand and exponent
 width, and rounding to nearest with ties to even (section 4.3.1) stated on encodings.

 The value of a finite magnitude is an integer number of units, the unit of a format being its
 least denormal 2^(1 - bias - sig). Two formats are compared in the units of the wider one.
 */
module FloatFormat {
  import opened Bits

  datatype Format = Format(sig: nat, exp: nat) {
    predicate Valid() {
      sig >= 1 && exp >= 2
    }

    function Width(): nat {
      1 + sig + exp
    }

    function InfExp(): nat {
      Pow2(exp) - 1
    }

    function Bias(): nat {
      InfExp() / 2
    }

    /** The magnitude bits of infinity; greater magnitudes are NaNs. */
    function Infinity(): nat {
      InfExp() * Pow2(sig)
    }

    function Abs(a: nat): nat {
      Low(a, sig + exp)
    }

    function Sign(a: nat): nat {
      Shr(a, sig + exp)
    }

    predicate Encodes(a: nat) {
      a < Pow2(Width())
    }

    predicate IsNaN(a: nat) {
      Abs(a) > Infinity()
    }

    /** The fraction field of a NaN starts with the quiet bit. */
    predicate IsQuietNaN(a: nat) {
      IsNaN(a) && Abs(a) - Infinity() >= Pow2(sig - 1)
    }

    function Exponent(r: nat): nat {
      Shr(r, sig)
    }

    /** Value of magnitude bits r in units of the least denormal. */
    ghost function Mag(r: nat): nat {
      if Exponent(r) == 0 then Low(r, sig) else (Pow2(sig) + Low(r, sig)) * Pow2(Exponent(r) - 1)
    }
  }

  /** The widths the conversions are meant for; binary32/binary16 and binary64/binary16 qualify. */
  predicate Widens(w: Format, n: Format) {
    w.Valid() && n.Valid() && w.sig >= n.sig + 2 && w.Bias() - n.Bias() >= w.sig
  }

  function BiasGap(w: Format, n: Format): nat
    requires Widens(w, n)
  {
    w.Bias() - n.Bias()
  }

  /** Units of w in one unit of n, as an exponent of two. */
  function UnitShift(w: Format, n: Format): nat
    requires Widens(w, n)
  {
    BiasGap(w, n) + w.sig - n.sig
  }

  ghost function Scaled(w: Format, n: Format, q: nat): nat
    requires Widens(w, n)
  {
    n.Mag(q) * Pow2(UnitShift(w, n))
  }

  ghost function Distance(a: int, b: int): nat {
    if a <= b then b - a else a - b
  }

  /** Twice the overflow threshold b^emax * (b - b^(1-p)/2) of section 4.3.1. */
  ghost function TwiceThreshold(w: Format, n: Format): nat
    requires Widens(w, n)
  {
    assert n.InfExp() >= 2 by { Pow2Mono(2, n.exp); }
    (4 * Pow2(n.sig) - 1) * Pow2(n.InfExp() - 2) * Pow2(UnitShift(w, n))
  }

  /** Value v is no closer to encoding q than to r, and on a tie r is even. */
  ghost predicate NoCloserEncoding(w: Format, n: Format, v: nat, r: nat, q: nat)
    requires Widens(w, n)
  {
    var near, other := Distance(v, Scaled(w, n, r)), Distance(v, Scaled(w, n, q));
    near <= other && (near == other && q != r ==> r % 2 == 0)
  }

  /** r is the magnitude of n nearest to magnitude x of w, with ties to the even encoding. */
  ghost predicate RoundsTo(w: Format, n: Format, x: nat, r: nat)
    requires Widens(w, n)
  {
    if x == w.Infinity() || 2 * w.Mag(x) >= TwiceThreshold(w, n) then
      r == n.Infinity()
    else
      r < n.Infinity() && forall q: nat | q < n.Infinity() :: NoCloserEncoding(w, n, w.Mag(x), r, q)
  }

  /** The bias is the greatest exponent emax of section 3.4, and both formats encode one by it alone. */
  lemma BiasIsStandard(w: Format, n: Format)
    requires Widens(w, n)
    ensures w.Bias() == Pow2(w.exp - 1) - 1 && n.Bias() == Pow2(n.exp - 1) - 1
    ensures Scaled(w, n, Shl(n.Bias(), n.sig)) == w.Mag(Shl(w.Bias(), w.sig)) == Pow2(w.sig + w.Bias() - 1)
  {
    MagOfBias(w);
    MagOfBias(n);
    Pow2Add(n.sig + n.Bias() - 1, UnitShift(w, n));
  }

  lemma MagOfBias(f: Format)
    requires f.Valid()
    ensures f.Bias() == Pow2(f.exp - 1) - 1 >= 1
    ensures f.Mag(Shl(f.Bias(), f.sig)) == Pow2(f.sig + f.Bias() - 1)
  {
    Pow2Mono(1, f.exp - 1);
    SplitUnique(Shl(f.Bias(), f.sig), f.sig, f.Bias(), 0);
    Pow2Add(f.sig, f.Bias() - 1);
  }

  // Encodings are ordered like the values they encode.

  ghost function Ulp(f: Format, r: nat): (u: nat)
    ensures u > 0
  {
    if f.Exponent(r) == 0 then 1 else Pow2(f.Exponent(r) - 1)
  }

  lemma MagStep(f: Format, r: nat)
    ensures f.Mag(r + 1) == f.Mag(r) + Ulp(f, r)
  {
    hide Low, Shr;
    var p, e, m := Pow2(f.sig), f.Exponent(r), Low(r, f.sig);
    Split(r, f.sig);
    if m + 1 < p {
      SplitUnique(r + 1, f.sig, e, m + 1);
      if e > 0 {
        Distribute(p + m, 1, Pow2(e - 1));
      }
    } else {
      Distribute(e, 1, p);
      SplitUnique(r + 1, f.sig, e + 1, 0);
      if e > 0 {
        Double(p, Pow2(e - 1));
        Distribute(p + m, 1, Pow2(e - 1));
        Distribute(p, p, Pow2(e - 1));
      }
    }
  }

  lemma {:induction false} MagMono(f: Format, q: nat, r: nat)
    requires q < r
    ensures f.Mag(q) < f.Mag(r)
    decreases r
  {
    MagStep(f, r - 1);
    if q < r - 1 {
      MagMono(f, q, r - 1);
    }
  }

  lemma ScaledStep(w: Format, n: Format, q: nat)
    requires Widens(w, n)
    ensures Scaled(w, n, q + 1) == Scaled(w, n, q) + Ulp(n, q) * Pow2(UnitShift(w, n))
  {
    MagStep(n, q);
    Distribute(n.Mag(q), Ulp(n, q), Pow2(UnitShift(w, n)));
  }

  lemma ScaledMono(w: Format, n: Format, q: nat, r: nat)
    requires Widens(w, n) && q < r
    ensures Scaled(w, n, q) < Scaled(w, n, r)
  {
    MagMono(n, q, r);
    MulMono(n.Mag(q), n.Mag(r), Pow2(UnitShift(w, n)));
  }

  lemma MulMono(x: nat, y: nat, k: nat)
    requires x < y && k > 0
    ensures x * k < y * k
  {
  }

  /** The threshold lies halfway between the greatest finite magnitude and the next power of two. */
  lemma ThresholdIsMidpoint(w: Format, n: Format)
    requires Widens(w, n)
    ensures n.Infinity() >= 1 && n.Infinity() % 2 == 0
    ensures Scaled(w, n, n.Infinity() - 1) + Scaled(w, n, n.Infinity()) == TwiceThreshold(w, n)
  {
    var p, u, inf, ie := Pow2(n.sig), Pow2(UnitShift(w, n)), n.Infinity(), n.InfExp();
    hide Low, Shr;
    Pow2Mono(2, n.exp);
    Double(ie, Pow2(n.sig - 1));
    InfinityShape(ie, p);
    SplitUnique(inf - 1, n.sig, ie - 1, p - 1);
    SplitUnique(inf, n.sig, ie, 0);
    MidpointIdentity(p, Pow2(ie - 2), u);
  }

  lemma InfinityShape(ie: nat, p: nat)
    requires ie >= 2 && p >= 1
    ensures ie * p >= 1 && ie * p - 1 == (ie - 1) * p + (p - 1)
  {
    Distribute(ie, 1, p);
  }

  lemma MidpointIdentity(p: nat, s: nat, u: nat)
    requires p >= 1
    ensures ((p + (p - 1)) * s) * u + (p * (2 * s)) * u == (4 * p - 1) * s * u
  {
    assert (p + (p - 1)) * s + p * (2 * s) == (4 * p - 1) * s;
    Distribute((p + (p - 1)) * s, p * (2 * s), u);
  }

  /** The rounding rule on a quotient t and remainder rho gives the nearest value. */
  lemma RoundingRule(w: Format, n: Format, x: nat, t: nat, rho: nat, gap: nat, r: nat)
    requires Widens(w, n) && x < w.Infinity()
    requires t < n.Infinity() && rho < gap
    requires w.Mag(x) == Scaled(w, n, t) + rho
    requires Scaled(w, n, t + 1) == Scaled(w, n, t) + gap
    requires r == if 2 * rho > gap then t + 1 else if 2 * rho == gap then t + t % 2 else t
    ensures RoundsTo(w, n, x, r)
  {
    BelowThreshold(w, n, w.Mag(x), t, rho, gap);
    if r < n.Infinity() {
      forall q: nat | q < n.Infinity()
        ensures NoCloserEncoding(w, n, w.Mag(x), r, q)
      {
        RoundingIsNearest(w, n, w.Mag(x), t, rho, gap, r, q);
      }
    }
  }

  lemma BelowThreshold(w: Format, n: Format, v: nat, t: nat, rho: nat, gap: nat)
    requires Widens(w, n) && t < n.Infinity() && rho < gap
    requires v == Scaled(w, n, t) + rho
    requires Scaled(w, n, t + 1) == Scaled(w, n, t) + gap
    ensures 2 * v >= TwiceThreshold(w, n) <==> t + 1 == n.Infinity() && 2 * rho >= gap
    ensures t + 1 == n.Infinity() ==> t % 2 == 1
  {
    hide *;
    ThresholdIsMidpoint(w, n);
    if t + 1 < n.Infinity() {
      ScaledMono(w, n, n.Infinity() - 1, n.Infinity());
      if t + 1 < n.Infinity() - 1 {
        ScaledMono(w, n, t + 1, n.Infinity() - 1);
      }
    }
  }

  lemma RoundingIsNearest(w: Format, n: Format, v: nat, t: nat, rho: nat, gap: nat, r: nat, q: nat)
    requires Widens(w, n) && rho < gap
    requires v == Scaled(w, n, t) + rho
    requires Scaled(w, n, t + 1) == Scaled(w, n, t) + gap
    requires r == if 2 * rho > gap then t + 1 else if 2 * rho == gap then t + t % 2 else t
    ensures NoCloserEncoding(w, n, v, r, q)
  {
    hide Scaled, Format.Mag, Pow2, Widens;
    if q < t {
      ScaledMono(w, n, q, t);
    } else if q > t + 1 {
      ScaledMono(w, n, t + 1, q);
    }
  }

  /** Rounding is a monotone function of the magnitude. */
  lemma RoundsToMonotone(w: Format, n: Format, x: nat, y: nat, r: nat, s: nat)
    requires Widens(w, n) && x <= y <= w.Infinity()
    requires RoundsTo(w, n, x, r) && RoundsTo(w, n, y, s)
    ensures r <= s
    ensures x == y ==> r == s
  {
    if x < y {
      MagMono(w, x, y);
    }
    if r < n.Infinity() && s < n.Infinity() {
      NearestOrdered(w, n, w.Mag(x), w.Mag(y), r, s);
      if x == y {
        NearestOrdered(w, n, w.Mag(x), w.Mag(y), s, r);
      }
    }
  }

  lemma NearestOrdered(w: Format, n: Format, u: nat, v: nat, r: nat, s: nat)
    requires Widens(w, n) && u <= v && r < n.Infinity() && s < n.Infinity()
    requires forall q: nat | q < n.Infinity() :: NoCloserEncoding(w, n, u, r, q)
    requires forall q: nat | q < n.Infinity() :: NoCloserEncoding(w, n, v, s, q)
    ensures r <= s
  {
    if s < r {
      assert NoCloserEncoding(w, n, u, r, s) && NoCloserEncoding(w, n, v, s, r);
      assert NoCloserEncoding(w, n, u, r, s + 1);
      ScaledMono(w, n, s, r);
      assert r % 2 == 0 && s % 2 == 0;
      ScaledMono(w, n, s, s + 1);
      ScaledMono(w, n, s + 1, r);
    }
  }
}
