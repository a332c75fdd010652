/**
 Gradients of softmax attention: what the backward kernels are to compute, as sums over whole rows
 and columns, and the identities that let them work from the log-sum-exp and the row means alone.
 */
module AttentionGradient {
  import opened Sums
  import opened TileOps
  import opened AttentionSpec

  /** A head, the gradient of its output, and what the forward pass and the preprocessing left. */
  datatype Backward = Backward(h: Head, dO: (nat, nat) -> real, lse: nat -> real, delta: nat -> real, smScale: real)

  /** Probability of key j for query r. */
  ghost function Prob(h: Head, r: nat, j: nat): real {
    var total := WeightSum(h, r, h.len, 0.0);
    if total == 0.0 then 0.0 else Weight(h, r, j, 0.0) / total
  }

  /** Gradient with respect to the probability of key j for query r. */
  function ProbGrad(b: Backward, r: nat, j: nat): real {
    Sum(b.h.dim, (d: nat) => Load(b.h.v, b.h.len, j, d) * Load(b.dO, b.h.len, r, d))
  }

  /** Mean of the probability gradients of row r. */
  ghost function RowMean(b: Backward, r: nat): real {
    Sum(b.h.len, (j: nat) => Prob(b.h, r, j) * ProbGrad(b, r, j))
  }

  /** Product of output and output gradient, row r. */
  ghost function OutputProduct(b: Backward, r: nat): real {
    Sum(b.h.dim, (d: nat) => Softmax(b.h, r, d) * Load(b.dO, b.h.len, r, d))
  }

  /** Gradient with respect to the score of key j for query r: the Jacobian of softmax, applied. */
  ghost function ScoreGrad(b: Backward, r: nat, j: nat): real {
    Sum(b.h.len, (i: nat) => Jacobian(b.h, r, j, i) * ProbGrad(b, r, i))
  }

  /** Derivative of the probability of key i by the score of key j. */
  ghost function Jacobian(h: Head, r: nat, j: nat, i: nat): real {
    Prob(h, r, i) * ((if i == j then 1.0 else 0.0) - Prob(h, r, j))
  }

  lemma ProbIsRatio(h: Head, r: nat, j: nat)
    requires Laws(h.e) && r < h.len
    ensures WeightSum(h, r, h.len, 0.0) > 0.0
    ensures Weight(h, r, j, 0.0) == Prob(h, r, j) * WeightSum(h, r, h.len, 0.0)
  {
    WeightSumPositive(h, r, h.len, 0.0);
    hide Laws, WeightSum, Weight;
    Divide(Weight(h, r, j, 0.0), WeightSum(h, r, h.len, 0.0));
  }

  lemma Divide(x: real, y: real)
    requires y != 0.0
    ensures x == x / y * y
  {
  }

  /** The probabilities of a row add up to one. */
  lemma ProbsSumToOne(h: Head, r: nat)
    requires Laws(h.e) && r < h.len
    ensures Sum(h.len, (j: nat) => Prob(h, r, j)) == 1.0
  {
    hide Laws, Sum, Prob, Weight;
    var total := WeightSum(h, r, h.len, 0.0);
    var f, g := (j: nat) => Prob(h, r, j), (j: nat) => Weight(h, r, j, 0.0);
    forall j: nat | j < h.len ensures g(j) == total * f(j) {
      ProbIsRatio(h, r, j);
    }
    ProbIsRatio(h, r, 0);
    SumScale(h.len, total, f, g);
    CancelOne(total, Sum(h.len, f));
  }

  lemma CancelOne(x: real, y: real)
    requires x != 0.0 && x == x * y
    ensures y == 1.0
  {
    assert x * (y - 1.0) == 0.0;
  }

  /** The output is the mean of the values under the probabilities. */
  lemma SoftmaxIsMean(h: Head, r: nat, d: nat)
    requires Laws(h.e) && r < h.len
    ensures Softmax(h, r, d) == Sum(h.len, (j: nat) => Prob(h, r, j) * Load(h.v, h.len, j, d))
  {
    var total := WeightSum(h, r, h.len, 0.0);
    var f := (j: nat) => Prob(h, r, j) * Load(h.v, h.len, j, d);
    var g := (j: nat) => Weight(h, r, j, 0.0) * Load(h.v, h.len, j, d);
    hide Laws, Sum, Weight, Load, Prob;
    forall j: nat | j < h.len ensures g(j) == total * f(j) {
      ProbIsRatio(h, r, j);
      Regroup(Prob(h, r, j), total, Load(h.v, h.len, j, d));
    }
    ProbIsRatio(h, r, 0);
    SumScale(h.len, total, f, g);
    Quotient(total, Sum(h.len, f));
  }

  lemma Regroup(x: real, y: real, z: real)
    ensures (x * y) * z == y * (x * z)
  {
  }

  lemma Quotient(x: real, y: real)
    requires x != 0.0
    ensures x * y / x == y
  {
  }

  /** The row product that preprocessing computes is the mean of the probability gradients. */
  lemma OutputProductIsMean(b: Backward, r: nat)
    requires Laws(b.h.e) && r < b.h.len
    ensures OutputProduct(b, r) == RowMean(b, r)
  {
    var h := b.h;
    var term := (d: nat, j: nat) => Prob(h, r, j) * (Load(h.v, h.len, j, d) * Load(b.dO, h.len, r, d));
    var rows := (d: nat) => Softmax(h, r, d) * Load(b.dO, h.len, r, d);
    var cols := (j: nat) => Prob(h, r, j) * ProbGrad(b, r, j);
    hide Laws, Sum, Prob, Load, Softmax;
    forall d: nat | d < h.dim ensures rows(d) == Sum(h.len, (j: nat) => term(d, j)) {
      SoftmaxIsMean(h, r, d);
      var f, c := (j: nat) => Prob(h, r, j) * Load(h.v, h.len, j, d), Load(b.dO, h.len, r, d);
      forall j: nat | j < h.len ensures term(d, j) == c * f(j) {
        Regroup(Prob(h, r, j) * Load(h.v, h.len, j, d), c, 1.0);
        Assoc(Prob(h, r, j), Load(h.v, h.len, j, d), c);
      }
      SumScale(h.len, c, f, (j: nat) => term(d, j));
    }
    forall j: nat | j < h.len ensures cols(j) == Sum(h.dim, (d: nat) => term(d, j)) {
      SumScale(h.dim, Prob(h, r, j), (d: nat) => Load(h.v, h.len, j, d) * Load(b.dO, h.len, r, d),
               (d: nat) => term(d, j));
    }
    SumSwap(h.dim, h.len, term, rows, cols);
  }

  /** The Jacobian applied to a row: probability times deviation from the row mean. */
  lemma ScoreGradClosed(b: Backward, r: nat, j: nat)
    requires j < b.h.len
    ensures ScoreGrad(b, r, j) == Prob(b.h, r, j) * (ProbGrad(b, r, j) - RowMean(b, r))
  {
    hide Prob, ProbGrad, Sum;
    var h, p := b.h, Prob(b.h, r, j);
    var pick := (i: nat) => if i == j then Prob(h, r, i) * ProbGrad(b, r, i) else 0.0;
    var mean := (i: nat) => Prob(h, r, i) * ProbGrad(b, r, i);
    var spread := (i: nat) => -p * (Prob(h, r, i) * ProbGrad(b, r, i));
    var whole := (i: nat) => Jacobian(h, r, j, i) * ProbGrad(b, r, i);
    forall i: nat | i < h.len ensures whole(i) == pick(i) + spread(i) {
      Expand(Prob(h, r, i), p, ProbGrad(b, r, i), i == j);
    }
    SumAdd(h.len, pick, spread, whole);
    SumScale(h.len, -p, mean, spread);
    SumSingle(h.len, j, pick);
    Distribute(p, ProbGrad(b, r, j), -RowMean(b, r));
  }

  lemma Expand(x: real, p: real, y: real, same: bool)
    ensures x * ((if same then 1.0 else 0.0) - p) * y == (if same then x * y else 0.0) + (-p * (x * y))
  {
  }

  /** Softmax does not change when all scores shift, so the score gradients of a row add up to zero. */
  lemma ScoreGradsCancel(b: Backward, r: nat)
    requires Laws(b.h.e) && r < b.h.len
    ensures Sum(b.h.len, (j: nat) => ScoreGrad(b, r, j)) == 0.0
  {
    hide Laws, Prob, ProbGrad, Sum, ScoreGrad;
    var h := b.h;
    ProbsSumToOne(h, r);
    var m := RowMean(b, r);
    var f := (j: nat) => Prob(h, r, j) * ProbGrad(b, r, j);
    var p := (j: nat) => Prob(h, r, j);
    var g := (j: nat) => -m * Prob(h, r, j);
    var s := (j: nat) => ScoreGrad(b, r, j);
    forall j: nat | j < h.len ensures s(j) == f(j) + g(j) {
      ScoreGradClosed(b, r, j);
      Distribute(Prob(h, r, j), ProbGrad(b, r, j), -m);
    }
    SumAdd(h.len, f, g, s);
    SumScale(h.len, -m, p, g);
  }
}
