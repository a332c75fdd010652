/**
 Softmax attention of one head, over reals. Scores are in base two: the scale carries log2(e), so
 that exp2 of a score is the exponential of the scaled dot product. A masked score is minus
 infinity and has weight zero. Reads past the sequence give zero, as tile copies do.
 */
module AttentionSpec {
  import opened Sums
  import opened TileOps

  datatype Exponential = Exponential(exp2: real -> real, log2: real -> real)

  predicate Multiplies(e: Exponential, x: real, y: real) {
    e.exp2(x + y) == e.exp2(x) * e.exp2(y)
  }

  ghost predicate Laws(e: Exponential) {
    && (forall x :: e.exp2(x) > 0.0)
    && (forall x, y :: Multiplies(e, x, y))
    && (forall x | x > 0.0 :: e.exp2(e.log2(x)) == x)
  }

  datatype Score = NegInf | Fin(x: real)

  datatype Head = Head(
    q: (nat, nat) -> real, k: (nat, nat) -> real, v: (nat, nat) -> real,
    len: nat, dim: nat, scale: real, causal: bool, e: Exponential)

  function Raw(h: Head, r: nat, j: nat): real {
    Sum(h.dim, (d: nat) => Load(h.q, h.len, r, d) * h.scale * Load(h.k, h.len, j, d))
  }

  /** Score of key j for query r. */
  function ScoreOf(h: Head, r: nat, j: nat): Score {
    if h.causal && r < j then NegInf else Fin(Raw(h, r, j))
  }

  function Exp2(e: Exponential, s: Score, m: real): real {
    match s
    case NegInf => 0.0
    case Fin(x) => e.exp2(x - m)
  }

  /** Weight of key j for query r, relative to m. */
  function Weight(h: Head, r: nat, j: nat, m: real): real {
    Exp2(h.e, ScoreOf(h, r, j), m)
  }

  function WeightSum(h: Head, r: nat, n: nat, m: real): real {
    Sum(n, (j: nat) => Weight(h, r, j, m))
  }

  function WeightedV(h: Head, r: nat, n: nat, m: real, d: nat): real {
    Sum(n, (j: nat) => Weight(h, r, j, m) * Load(h.v, h.len, j, d))
  }

  /** Weighted mean of the first n values. Under the laws the weights never add up to zero. */
  ghost function Mean(h: Head, r: nat, n: nat, d: nat): real {
    var total := WeightSum(h, r, n, 0.0);
    if total == 0.0 then 0.0 else WeightedV(h, r, n, 0.0, d) / total
  }

  /** Softmax attention by its definition: exponentials of all scores, normalised. */
  ghost function Softmax(h: Head, r: nat, d: nat): real {
    Mean(h, r, h.len, d)
  }

  function MaxScore(a: Score, b: Score): Score {
    match (a, b)
    case (NegInf, _) => b
    case (_, NegInf) => a
    case (Fin(x), Fin(y)) => if x >= y then a else b
  }

  /** Greatest score among the first n keys. */
  function PrefixMax(h: Head, r: nat, n: nat): Score {
    if n == 0 then NegInf else MaxScore(PrefixMax(h, r, n - 1), ScoreOf(h, r, n - 1))
  }

  lemma Exp2Zero(e: Exponential)
    requires Laws(e)
    ensures e.exp2(0.0) == 1.0
  {
    assert Multiplies(e, 0.0, 0.0);
    ZeroSquares(e, 0.0);
    Idempotent(e.exp2(0.0));
  }

  lemma ZeroSquares(e: Exponential, z: real)
    requires Multiplies(e, z, z) && z == 0.0
    ensures e.exp2(z) == e.exp2(z) * e.exp2(z)
  {
    var twice := z + z;
    assert twice == z;
    assert e.exp2(twice) == e.exp2(z);
  }

  lemma Idempotent(x: real)
    requires x > 0.0 && x == x * x
    ensures x == 1.0
  {
    assert x * (x - 1.0) == 0.0;
  }

  /** Changing the reference point rescales every weight alike. */
  lemma Rescale(h: Head, r: nat, j: nat, m: real, m': real)
    requires Laws(h.e)
    ensures Weight(h, r, j, m') == h.e.exp2(m - m') * Weight(h, r, j, m)
  {
    var s := ScoreOf(h, r, j);
    if s.Fin? {
      assert Multiplies(h.e, m - m', s.x - m);
      assert (m - m') + (s.x - m) == s.x - m';
    }
  }

  lemma RescaleSum(h: Head, r: nat, n: nat, m: real, m': real)
    requires Laws(h.e)
    ensures WeightSum(h, r, n, m') == h.e.exp2(m - m') * WeightSum(h, r, n, m)
  {
    hide Laws, Sum, ScoreOf, Exp2;
    var c := h.e.exp2(m - m');
    var f, g := (j: nat) => Weight(h, r, j, m), (j: nat) => Weight(h, r, j, m');
    forall j: nat | j < n ensures g(j) == c * f(j) {
      Rescale(h, r, j, m, m');
    }
    SumScale(n, c, f, g);
  }

  lemma RescaleV(h: Head, r: nat, n: nat, m: real, m': real, d: nat)
    requires Laws(h.e)
    ensures WeightedV(h, r, n, m', d) == h.e.exp2(m - m') * WeightedV(h, r, n, m, d)
  {
    hide Laws, Sum, Weight, Load;
    var c := h.e.exp2(m - m');
    var f := (j: nat) => Weight(h, r, j, m) * Load(h.v, h.len, j, d);
    var g := (j: nat) => Weight(h, r, j, m') * Load(h.v, h.len, j, d);
    forall j: nat | j < n ensures g(j) == c * f(j) {
      Rescale(h, r, j, m, m');
      Assoc(c, Weight(h, r, j, m), Load(h.v, h.len, j, d));
    }
    SumScale(n, c, f, g);
  }

  lemma Assoc(x: real, y: real, z: real)
    ensures (x * y) * z == x * (y * z)
  {
  }

  lemma WeightSumPositive(h: Head, r: nat, n: nat, m: real)
    requires Laws(h.e) && n > 0
    ensures WeightSum(h, r, n, m) > 0.0
  {
    SumPositive(n, (j: nat) => Weight(h, r, j, m));
  }

  /** The first key is never masked, so the running maximum is finite from the first block on. */
  lemma {:induction false} MaxIsFinite(h: Head, r: nat, n: nat)
    requires n > 0
    ensures PrefixMax(h, r, n).Fin?
  {
    if n == 1 {
      assert PrefixMax(h, r, 0) == NegInf;
    } else {
      MaxIsFinite(h, r, n - 1);
    }
  }

  /** The running maximum is an upper bound that is attained. */
  lemma {:induction false} MaxIsMaximum(h: Head, r: nat, n: nat)
    requires n > 0
    ensures exists j: nat :: j < n && ScoreOf(h, r, j) == PrefixMax(h, r, n)
    ensures forall j: nat | j < n && ScoreOf(h, r, j).Fin? ::
              PrefixMax(h, r, n).Fin? && ScoreOf(h, r, j).x <= PrefixMax(h, r, n).x
  {
    if n == 1 {
      assert PrefixMax(h, r, 0) == NegInf;
      assert ScoreOf(h, r, 0) == PrefixMax(h, r, 1);
    } else {
      MaxIsMaximum(h, r, n - 1);
      assert ScoreOf(h, r, n - 1) == PrefixMax(h, r, n) || PrefixMax(h, r, n - 1) == PrefixMax(h, r, n);
    }
  }

  /** The ratio does not depend on the reference point. */
  lemma RatioInvariant(h: Head, r: nat, n: nat, m: real, d: nat)
    requires Laws(h.e) && n > 0
    ensures WeightSum(h, r, n, m) > 0.0
    ensures WeightedV(h, r, n, m, d) / WeightSum(h, r, n, m) == Mean(h, r, n, d)
  {
    WeightSumPositive(h, r, n, m);
    WeightSumPositive(h, r, n, 0.0);
    RescaleSum(h, r, n, 0.0, m);
    RescaleV(h, r, n, 0.0, m, d);
    CancelFactor(h.e.exp2(0.0 - m), WeightedV(h, r, n, 0.0, d), WeightSum(h, r, n, 0.0));
  }

  lemma CancelFactor(c: real, x: real, y: real)
    requires c != 0.0 && y != 0.0
    ensures c * y != 0.0 && (c * x) / (c * y) == x / y
  {
    var q := x / y;
    assert x == q * y;
    assert c * x == q * (c * y);
  }

  /** Causal rows: any number of keys past the diagonal gives the same sums. */
  lemma CausalSum(h: Head, r: nat, n: nat)
    requires h.causal && r < n
    ensures WeightSum(h, r, n, 0.0) == WeightSum(h, r, r + 1, 0.0)
  {
    hide Sum, Raw;
    SumTail(r + 1, n, (j: nat) => Weight(h, r, j, 0.0));
  }

  lemma CausalV(h: Head, r: nat, n: nat, d: nat)
    requires h.causal && r < n
    ensures WeightedV(h, r, n, 0.0, d) == WeightedV(h, r, r + 1, 0.0, d)
  {
    hide Sum, Raw, Load;
    SumTail(r + 1, n, (j: nat) => Weight(h, r, j, 0.0) * Load(h.v, h.len, j, d));
  }

  /** Without a mask, every key past the sequence adds one to the sum and nothing to the output. */
  lemma PaddedSums(h: Head, r: nat, pad: nat, d: nat)
    requires Laws(h.e) && !h.causal
    ensures WeightSum(h, r, h.len + pad, 0.0) == WeightSum(h, r, h.len, 0.0) + pad as real
    ensures WeightedV(h, r, h.len + pad, 0.0, d) == WeightedV(h, r, h.len, 0.0, d)
  {
    var f := (j: nat) => Weight(h, r, j, 0.0);
    var one := (j: nat) => 1.0;
    forall j: nat | j >= h.len ensures f(j) == 1.0 {
      PaddedScore(h, r, j);
      Exp2Zero(h.e);
    }
    SumSplit(h.len, pad, f, one);
    SumOnes(pad, one);
    SumTail(h.len, h.len + pad, (j: nat) => Weight(h, r, j, 0.0) * Load(h.v, h.len, j, d));
  }

  lemma PaddedScore(h: Head, r: nat, j: nat)
    requires !h.causal && j >= h.len
    ensures ScoreOf(h, r, j) == Fin(0.0)
  {
    SumZero(h.dim, (d: nat) => Load(h.q, h.len, r, d) * h.scale * Load(h.k, h.len, j, d));
  }

  lemma {:induction false} SumOnes(n: nat, one: nat -> real)
    requires forall i: nat :: one(i) == 1.0
    ensures Sum(n, one) == n as real
  {
    if n > 0 {
      SumOnes(n - 1, one);
    }
  }
}
