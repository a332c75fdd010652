/**
 What attention and its gradients are for, without the tiles and the masked scores they are computed
 by: softmax by its definition, the exact change of probabilities with one score, and the gradients
 as the factors by which changes of values, queries and keys count.
 */
module AttentionLaws {
  import opened Sums
  import opened TileOps
  import opened AttentionSpec
  import opened AttentionGradient
  import opened AttentionBackwardResults

  /** Exponential of the scaled product of query r and key j; a causal query sees no later key. */
  function Exponentiated(h: Head, r: nat, j: nat): real {
    if h.causal && j > r then 0.0 else h.e.exp2(Sum(h.dim, (d: nat) => h.q(r, d) * h.scale * h.k(j, d)))
  }

  lemma WeightIsExponential(h: Head, r: nat, j: nat)
    requires r < h.len && j < h.len
    ensures Weight(h, r, j, 0.0) == Exponentiated(h, r, j)
  {
    var f := (d: nat) => Load(h.q, h.len, r, d) * h.scale * Load(h.k, h.len, j, d);
    var g := (d: nat) => h.q(r, d) * h.scale * h.k(j, d);
    SumCong(h.dim, f, g);
    assert Raw(h, r, j) - 0.0 == Sum(h.dim, g) by {
      SumCong(h.dim, f, (d: nat) => Load(h.q, h.len, r, d) * h.scale * Load(h.k, h.len, j, d));
    }
  }

  lemma SumsByDefinition(h: Head, r: nat, d: nat)
    requires r < h.len
    ensures WeightSum(h, r, h.len, 0.0) == Sum(h.len, (j: nat) => Exponentiated(h, r, j))
    ensures WeightedV(h, r, h.len, 0.0, d) == Sum(h.len, (j: nat) => Exponentiated(h, r, j) * h.v(j, d))
  {
    hide Sum, Weight, Exponentiated;
    forall j: nat | j < h.len ensures Weight(h, r, j, 0.0) == Exponentiated(h, r, j) {
      WeightIsExponential(h, r, j);
    }
    SumCong(h.len, (j: nat) => Weight(h, r, j, 0.0), (j: nat) => Exponentiated(h, r, j));
    SumCong(h.len, (j: nat) => Weight(h, r, j, 0.0) * Load(h.v, h.len, j, d),
            (j: nat) => Exponentiated(h, r, j) * h.v(j, d));
  }

  /** The output is the mean of the values, weighted by the exponentials. */
  lemma SoftmaxByDefinition(h: Head, r: nat, d: nat)
    requires Laws(h.e) && r < h.len
    ensures Sum(h.len, (j: nat) => Exponentiated(h, r, j)) > 0.0
    ensures Softmax(h, r, d) * Sum(h.len, (j: nat) => Exponentiated(h, r, j))
         == Sum(h.len, (j: nat) => Exponentiated(h, r, j) * h.v(j, d))
  {
    hide Laws, Sum, WeightSum, WeightedV, Exponentiated;
    WeightSumPositive(h, r, h.len, 0.0);
    SumsByDefinition(h, r, d);
    Divide(WeightedV(h, r, h.len, 0.0, d), WeightSum(h, r, h.len, 0.0));
  }

  // The Jacobian of softmax.

  /** The weights of row r with that of key j multiplied by c. */
  function Bumped(h: Head, r: nat, j: nat, c: real): nat -> real {
    (i: nat) => if i == j then c * Weight(h, r, i, 0.0) else Weight(h, r, i, 0.0)
  }

  lemma BumpedSum(h: Head, r: nat, j: nat, c: real)
    requires j < h.len
    ensures Sum(h.len, Bumped(h, r, j, c)) == WeightSum(h, r, h.len, 0.0) + (c - 1.0) * Weight(h, r, j, 0.0)
  {
    hide Sum, Weight;
    var f, g := (i: nat) => Weight(h, r, i, 0.0), (i: nat) => if i == j then (c - 1.0) * Weight(h, r, i, 0.0) else 0.0;
    forall i: nat | i < h.len ensures Bumped(h, r, j, c)(i) == f(i) + g(i) {
      Distribute(Weight(h, r, i, 0.0), c, -1.0);
    }
    SumAdd(h.len, f, g, Bumped(h, r, j, c));
    SumSingle(h.len, j, g);
  }

  /**
   Multiplying the exponential of one score by c changes every probability by the entry of the
   Jacobian times c - 1, over 1 + (c - 1) times the probability of that key.
   */
  lemma ProbabilitySecant(h: Head, r: nat, j: nat, i: nat, c: real)
    requires Laws(h.e) && r < h.len && i < h.len && j < h.len && c > 0.0
    ensures Sum(h.len, Bumped(h, r, j, c)) > 0.0
    ensures (Bumped(h, r, j, c)(i) / Sum(h.len, Bumped(h, r, j, c)) - Prob(h, r, i)) * (1.0 + (c - 1.0) * Prob(h, r, j))
         == (c - 1.0) * Jacobian(h, r, j, i)
  {
    hide Laws, Sum, Weight, WeightSum, Prob;
    ProbIsRatio(h, r, i);
    ProbIsRatio(h, r, j);
    BumpedSum(h, r, j, c);
    ProbWithinOne(h, r, j);
    var total := WeightSum(h, r, h.len, 0.0);
    NewTotal(Prob(h, r, j), total, c, Weight(h, r, j, 0.0), Sum(h.len, Bumped(h, r, j, c)));
    Secant(Prob(h, r, i), Prob(h, r, j), total, c, i == j, Bumped(h, r, j, c)(i), Sum(h.len, Bumped(h, r, j, c)));
  }

  lemma ProbWithinOne(h: Head, r: nat, j: nat)
    requires Laws(h.e) && r < h.len && j < h.len
    ensures 0.0 <= Prob(h, r, j) <= 1.0
  {
    ProbIsRatio(h, r, j);
    var total := WeightSum(h, r, h.len, 0.0);
    assert Weight(h, r, j, 0.0) >= 0.0;
    BumpedSum(h, r, j, 0.0);
    hide Laws, WeightSum, Weight, Prob;
    assert Sum(h.len, Bumped(h, r, j, 0.0)) >= 0.0 by {
      WeightsNonNegative(h, r);
      SumNonNegative(h.len, Bumped(h, r, j, 0.0));
    }
    Sign(Prob(h, r, j), total);
    Sign(1.0 - Prob(h, r, j), total);
  }

  lemma WeightsNonNegative(h: Head, r: nat)
    requires Laws(h.e)
    ensures forall i: nat :: Weight(h, r, i, 0.0) >= 0.0
  {
  }

  lemma {:induction false} SumNonNegative(n: nat, f: nat -> real)
    requires forall i: nat | i < n :: f(i) >= 0.0
    ensures Sum(n, f) >= 0.0
  {
    if n > 0 {
      SumNonNegative(n - 1, f);
    }
  }

  lemma Sign(x: real, t: real)
    requires t > 0.0 && x * t >= 0.0
    ensures x >= 0.0
  {
  }

  lemma NewTotal(q: real, t: real, c: real, w: real, total: real)
    requires t > 0.0 && c > 0.0 && 0.0 <= q <= 1.0 && w == q * t && total == t + (c - 1.0) * w
    ensures 1.0 + (c - 1.0) * q > 0.0
    ensures total == t * (1.0 + (c - 1.0) * q)
    ensures total > 0.0
  {
    assert 1.0 + (c - 1.0) * q == (1.0 - q) + c * q;
    Mix(q, c);
    Product(t, 1.0 + (c - 1.0) * q);
  }

  /** The algebra: p and q are the probabilities of keys i and j, t and total the sums of the weights. */
  lemma Secant(p: real, q: real, t: real, c: real, same: bool, weight: real, total: real)
    requires t > 0.0 && 1.0 + (c - 1.0) * q > 0.0 && total > 0.0
    requires weight == if same then c * (p * t) else p * t
    requires total == t * (1.0 + (c - 1.0) * q)
    ensures (weight / total - p) * (1.0 + (c - 1.0) * q) == (c - 1.0) * (p * ((if same then 1.0 else 0.0) - q))
  {
    var factor, one := if same then c else 1.0, 1.0 + (c - 1.0) * q;
    assert weight == factor * p * t;
    Ratio(factor * p, t, one);
    Distribute(one, weight / total, -p);
    assert p * one == p + (c - 1.0) * (p * q);
  }

  lemma Mix(q: real, c: real)
    requires 0.0 <= q <= 1.0 && c > 0.0
    ensures (1.0 - q) + c * q > 0.0
  {
    if q > 0.0 {
      Product(c, q);
    }
  }

  lemma Product(x: real, y: real)
    requires x > 0.0 && y > 0.0
    ensures x * y > 0.0
  {
  }

  lemma Ratio(a: real, t: real, one: real)
    requires t > 0.0 && one > 0.0
    ensures t * one != 0.0 && a * t / (t * one) * one == a
  {
    var x := a * t / (t * one);
    assert x * (t * one) == a * t;
    assert (x * one - a) * t == 0.0;
  }

  // Gradients.

  /** Column d of the output moves with the values by the gradient, exactly. */
  lemma ValuesCount(b: Backward, v': (nat, nat) -> real, d: nat)
    requires Laws(b.h.e)
    ensures Sum(b.h.len, (r: nat) => (Softmax(b.h.(v := v'), r, d) - Softmax(b.h, r, d)) * b.dO(r, d))
         == Sum(b.h.len, (j: nat) => TrueDV(b, j, d) * (v'(j, d) - b.h.v(j, d)))
  {
    var h := b.h;
    hide Laws, Sum, Prob, Softmax;
    var term := (r: nat, j: nat) => Prob(h, r, j) * b.dO(r, d) * (v'(j, d) - h.v(j, d));
    var rows := (r: nat) => (Softmax(h.(v := v'), r, d) - Softmax(h, r, d)) * b.dO(r, d);
    var cols := (j: nat) => TrueDV(b, j, d) * (v'(j, d) - h.v(j, d));
    forall r: nat | r < h.len ensures rows(r) == Sum(h.len, (j: nat) => term(r, j)) {
      OutputMoves(b, v', r, d);
      SumScale(h.len, b.dO(r, d), (j: nat) => Prob(h, r, j) * (v'(j, d) - h.v(j, d)), (j: nat) => term(r, j));
    }
    forall j: nat | j < h.len ensures cols(j) == Sum(h.len, (r: nat) => term(r, j)) {
      SumScale(h.len, v'(j, d) - h.v(j, d), (r: nat) => Prob(h, r, j) * Load(b.dO, h.len, r, d), (r: nat) => term(r, j));
    }
    SumSwap(h.len, h.len, term, rows, cols);
  }

  lemma OutputMoves(b: Backward, v': (nat, nat) -> real, r: nat, d: nat)
    requires Laws(b.h.e) && r < b.h.len
    ensures Softmax(b.h.(v := v'), r, d) - Softmax(b.h, r, d)
         == Sum(b.h.len, (j: nat) => Prob(b.h, r, j) * (v'(j, d) - b.h.v(j, d)))
  {
    hide Laws, Sum, Prob, Softmax, Load;
    SoftmaxIsMean(b.h, r, d);
    SoftmaxIsMean(b.h.(v := v'), r, d);
    MeanMoves(b.h, v', r, d);
  }

  lemma MeanMoves(h: Head, v': (nat, nat) -> real, r: nat, d: nat)
    ensures var h' := h.(v := v');
            Sum(h'.len, (j: nat) => Prob(h', r, j) * Load(h'.v, h'.len, j, d))
            == Sum(h.len, (j: nat) => Prob(h, r, j) * Load(h.v, h.len, j, d))
               + Sum(h.len, (j: nat) => Prob(h, r, j) * (v'(j, d) - h.v(j, d)))
  {
    hide Sum, Prob;
    var h' := h.(v := v');
    SameProbs(h, v', r);
    var before := (j: nat) => Prob(h, r, j) * Load(h.v, h.len, j, d);
    var after := (j: nat) => Prob(h', r, j) * Load(h'.v, h'.len, j, d);
    var change := (j: nat) => Prob(h, r, j) * (v'(j, d) - h.v(j, d));
    forall j: nat | j < h.len ensures after(j) == before(j) + change(j) {
      Moves(Prob(h, r, j), h.v(j, d), v'(j, d));
    }
    SumAdd(h.len, before, change, after);
  }

  lemma Moves(p: real, x: real, y: real)
    ensures p * y == p * x + p * (y - x)
  {
  }

  /** The probabilities do not depend on the values. */
  lemma SameProbs(h: Head, v': (nat, nat) -> real, r: nat)
    ensures forall j: nat :: Prob(h.(v := v'), r, j) == Prob(h, r, j)
  {
    var h' := h.(v := v');
    forall j: nat ensures Weight(h', r, j, 0.0) == Weight(h, r, j, 0.0) {
      SumCong(h.dim, (d: nat) => Load(h'.q, h'.len, r, d) * h'.scale * Load(h'.k, h'.len, j, d),
              (d: nat) => Load(h.q, h.len, r, d) * h.scale * Load(h.k, h.len, j, d));
    }
    SumCong(h.len, (j: nat) => Weight(h', r, j, 0.0), (j: nat) => Weight(h, r, j, 0.0));
  }

  /** Score of query q and key k to the base e; a change u of one of them changes it by the product with u. */
  function ScaledProduct(b: Backward, q: nat -> real, k: nat -> real): real {
    Sum(b.h.dim, (d: nat) => q(d) * b.smScale * k(d))
  }

  /** Scores times their gradients move with a query by the gradient of the query. */
  lemma QueryCounts(b: Backward, r: nat, u: nat -> real)
    requires r < b.h.len
    ensures Sum(b.h.len, (j: nat) => ScoreGrad(b, r, j) * ScaledProduct(b, u, (d: nat) => b.h.k(j, d)))
         == Sum(b.h.dim, (d: nat) => TrueDQ(b, r, d) * u(d))
  {
    hide Sum, ScoreGrad;
    var h := b.h;
    var term := (j: nat, d: nat) => ScoreGrad(b, r, j) * (u(d) * b.smScale * h.k(j, d));
    var rows := (j: nat) => ScoreGrad(b, r, j) * ScaledProduct(b, u, (d: nat) => h.k(j, d));
    var cols := (d: nat) => TrueDQ(b, r, d) * u(d);
    forall j: nat | j < h.len ensures rows(j) == Sum(h.dim, (d: nat) => term(j, d)) {
      var k := (d: nat) => h.k(j, d);
      SumScale(h.dim, ScoreGrad(b, r, j), (d: nat) => u(d) * b.smScale * k(d), (d: nat) => term(j, d));
    }
    forall d: nat | d < h.dim ensures cols(d) == Sum(h.len, (j: nat) => term(j, d)) {
      forall j: nat | j < h.len ensures term(j, d) == u(d) * (ScoreGrad(b, r, j) * b.smScale * Load(h.k, h.len, j, d)) {
        Shuffle(ScoreGrad(b, r, j), u(d), b.smScale, h.k(j, d));
      }
      SumScale(h.len, u(d), (j: nat) => ScoreGrad(b, r, j) * b.smScale * Load(h.k, h.len, j, d), (j: nat) => term(j, d));
    }
    SumSwap(h.len, h.dim, term, rows, cols);
  }

  lemma Shuffle(g: real, u: real, s: real, k: real)
    ensures g * (u * s * k) == u * (g * s * k) == g * (k * s * u)
  {
  }

  /** And with a key by the gradient of the key. */
  lemma KeyCounts(b: Backward, j: nat, u: nat -> real)
    requires j < b.h.len
    ensures Sum(b.h.len, (r: nat) => ScoreGrad(b, r, j) * ScaledProduct(b, (d: nat) => b.h.q(r, d), u))
         == Sum(b.h.dim, (d: nat) => TrueDK(b, j, d) * u(d))
  {
    hide Sum, ScoreGrad;
    var h := b.h;
    var term := (r: nat, d: nat) => ScoreGrad(b, r, j) * (h.q(r, d) * b.smScale * u(d));
    var rows := (r: nat) => ScoreGrad(b, r, j) * ScaledProduct(b, (d: nat) => h.q(r, d), u);
    var cols := (d: nat) => TrueDK(b, j, d) * u(d);
    forall r: nat | r < h.len ensures rows(r) == Sum(h.dim, (d: nat) => term(r, d)) {
      var q := (d: nat) => h.q(r, d);
      SumScale(h.dim, ScoreGrad(b, r, j), (d: nat) => q(d) * b.smScale * u(d), (d: nat) => term(r, d));
    }
    forall d: nat | d < h.dim ensures cols(d) == Sum(h.len, (r: nat) => term(r, d)) {
      forall r: nat | r < h.len ensures term(r, d) == u(d) * (ScoreGrad(b, r, j) * b.smScale * Load(h.q, h.len, r, d)) {
        Shuffle(ScoreGrad(b, r, j), u(d), b.smScale, h.q(r, d));
      }
      SumScale(h.len, u(d), (r: nat) => ScoreGrad(b, r, j) * b.smScale * Load(h.q, h.len, r, d), (r: nat) => term(r, d));
    }
    SumSwap(h.len, h.dim, term, rows, cols);
  }
}
