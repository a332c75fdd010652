/** The forward kernel over the whole grid, against softmax attention. */
module AttentionResults {
  import opened Sums
  import opened TileOps
  import opened AttentionSpec
  import opened AttentionForward

  /** Row r holds the mean over the first n keys, and its log-sum-exp. */
  ghost predicate RowDone(h: Head, r: nat, n: nat, output: array2<real>, lse: array<real>)
    requires r < output.Length0 == lse.Length && output.Length1 == h.dim
    reads output, lse
  {
    && (forall d: nat | d < h.dim :: output[r, d] == Mean(h, r, n, d))
    && h.e.exp2(lse[r]) == WeightSum(h, r, n, 0.0)
  }

  /**
   The grid: its blocks run in any order. Every row ends up with the mean over the keys its tile
   visits.
   */
  method FlashForward(h: Head, bM: nat, bN: nat, order: seq<nat>, output: array2<real>, lse: array<real>)
    requires Laws(h.e) && bM > 0 && bN > 0
    requires output.Length0 == lse.Length == h.len && output.Length1 == h.dim
    requires Covers(order, CeilDiv(h.len, bM))
    modifies output, lse
    ensures forall r: nat | r < h.len :: RowDone(h, r, Visited(h, BlockOf(r, bM), bM, bN), output, lse)
  {
    hide Laws, Mean, WeightSum, Visited, BlockOf, CeilDiv;
    for x := 0 to |order|
      invariant forall r: nat | r < h.len && BlockOf(r, bM) in order[..x] ::
                  RowDone(h, r, Visited(h, BlockOf(r, bM), bM, bN), output, lse)
    {
      label before:
      BlockInGrid(order[x], bM, h.len);
      AttendTile(h, order[x], bM, bN, output, lse);
      forall r: nat | r < h.len && BlockOf(r, bM) in order[..x + 1]
        ensures RowDone(h, r, Visited(h, BlockOf(r, bM), bM, bN), output, lse)
      {
        InBlock(r, bM, order[x]);
        if BlockOf(r, bM) != order[x] {
          assert BlockOf(r, bM) in order[..x];
          assert old@before(RowDone(h, r, Visited(h, BlockOf(r, bM), bM, bN), output, lse));
        }
      }
    }
    forall r: nat | r < h.len ensures BlockOf(r, bM) in order[..|order|] {
      InBlock(r, bM, BlockOf(r, bM));
      BlockInGrid(BlockOf(r, bM), bM, h.len);
      assert order[..|order|] == order;
    }
  }

  /** A causal kernel computes softmax attention for every length and every block size. */
  lemma CausalIsSoftmax(h: Head, r: nat, bM: nat, bN: nat, d: nat)
    requires Laws(h.e) && bM > 0 && bN > 0 && r < h.len && h.causal
    ensures Mean(h, r, Visited(h, BlockOf(r, bM), bM, bN), d) == Softmax(h, r, d)
    ensures WeightSum(h, r, Visited(h, BlockOf(r, bM), bM, bN), 0.0) == WeightSum(h, r, h.len, 0.0)
  {
    var bx := BlockOf(r, bM);
    InBlock(r, bM, bx);
    VisitsKeys(h, bx, bM, bN);
    var n := Visited(h, bx, bM, bN);
    hide Laws, WeightSum, WeightedV, Visited, BlockOf;
    CausalSum(h, r, n);
    CausalSum(h, r, h.len);
    CausalV(h, r, n, d);
    CausalV(h, r, h.len, d);
  }

  /**
   Without a mask the keys that pad the last block each weigh one: the output is the softmax shrunk
   by sum / (sum + padding). It is right exactly when there is no padding or the right value is zero.
   */
  lemma PaddingShrinks(h: Head, r: nat, bM: nat, bN: nat, d: nat)
    requires Laws(h.e) && bM > 0 && bN > 0 && r < h.len && !h.causal
    ensures var n := Visited(h, BlockOf(r, bM), bM, bN); var total := WeightSum(h, r, h.len, 0.0);
            && n >= h.len && total > 0.0
            && WeightSum(h, r, n, 0.0) == total + (n - h.len) as real
            && Mean(h, r, n, d) * (total + (n - h.len) as real) == Softmax(h, r, d) * total
            && (Mean(h, r, n, d) == Softmax(h, r, d) <==> h.len % bN == 0 || Softmax(h, r, d) == 0.0)
  {
    var bx := BlockOf(r, bM);
    InBlock(r, bM, bx);
    VisitsKeys(h, bx, bM, bN);
    var n := Visited(h, bx, bM, bN);
    WeightSumPositive(h, r, h.len, 0.0);
    hide Laws, Visited, BlockOf;
    PaddedSums(h, r, n - h.len, d);
    hide WeightSum, WeightedV;
    Shrink(WeightedV(h, r, h.len, 0.0, d), WeightSum(h, r, h.len, 0.0), (n - h.len) as real);
  }

  lemma Shrink(v: real, total: real, pad: real)
    requires total > 0.0 && pad >= 0.0
    ensures v / (total + pad) * (total + pad) == v / total * total
    ensures v / (total + pad) == v / total <==> pad == 0.0 || v / total == 0.0
  {
    var x, y := v / (total + pad), v / total;
    assert x * (total + pad) == v && y * total == v;
    if x == y {
      assert x * pad == 0.0;
    }
    if y == 0.0 {
      assert v == 0.0;
    }
  }

  /** Every head of the given length without a mask gets softmax attention. */
  ghost predicate AlwaysSoftmax(e: Exponential, len: nat, bM: nat, bN: nat)
    requires bM > 0 && bN > 0
  {
    forall h: Head, r: nat, d: nat | h.e == e && h.len == len && !h.causal && r < len ::
      Mean(h, r, Visited(h, BlockOf(r, bM), bM, bN), d) == Softmax(h, r, d)
  }

  /** Without a mask the kernel is right on every input exactly when the key block divides the length. */
  lemma UnmaskedIsSoftmax(e: Exponential, len: nat, bM: nat, bN: nat)
    requires Laws(e) && bM > 0 && bN > 0 && len > 0
    ensures AlwaysSoftmax(e, len, bM, bN) <==> len % bN == 0
  {
    hide Laws, Mean, Softmax, Visited, BlockOf, WeightSum;
    if len % bN == 0 {
      forall h: Head, r: nat, d: nat | h.e == e && h.len == len && !h.causal && r < len
        ensures Mean(h, r, Visited(h, BlockOf(r, bM), bM, bN), d) == Softmax(h, r, d)
      {
        PaddingShrinks(h, r, bM, bN, d);
      }
    } else {
      var zero, one := (i: nat, d: nat) => 0.0, (i: nat, d: nat) => 1.0;
      var h := Head(zero, zero, one, len, 1, 1.0, false, e);
      PaddingShrinks(h, 0, bM, bN, 0);
      SoftmaxOfOnes(h, 0, 0);
      assert Mean(h, 0, Visited(h, BlockOf(0, bM), bM, bN), 0) != Softmax(h, 0, 0);
    }
  }

  /** The mean of values that are all one is one. */
  lemma SoftmaxOfOnes(h: Head, r: nat, d: nat)
    requires Laws(h.e) && r < h.len && forall i: nat | i < h.len :: h.v(i, d) == 1.0
    ensures Softmax(h, r, d) == 1.0
  {
    WeightSumPositive(h, r, h.len, 0.0);
    hide Laws, Sum, Weight;
    SumCong(h.len, (j: nat) => Weight(h, r, j, 0.0), (j: nat) => Weight(h, r, j, 0.0) * Load(h.v, h.len, j, d));
    SelfRatio(WeightSum(h, r, h.len, 0.0));
  }

  lemma SelfRatio(x: real)
    requires x != 0.0
    ensures x / x == 1.0
  {
  }

  /** With a mask, or with a key block that divides the length, the kernel leaves exact attention and log-sum-exps. */
  lemma ForwardIsExact(h: Head, bM: nat, bN: nat, output: array2<real>, lse: array<real>, r: nat)
    requires Laws(h.e) && bM > 0 && bN > 0 && (h.causal || h.len % bN == 0)
    requires output.Length0 == lse.Length == h.len && output.Length1 == h.dim && r < h.len
    requires RowDone(h, r, Visited(h, BlockOf(r, bM), bM, bN), output, lse)
    ensures forall d: nat | d < h.dim :: output[r, d] == Softmax(h, r, d)
    ensures h.e.exp2(lse[r]) == WeightSum(h, r, h.len, 0.0)
  {
    hide Laws, Mean, Softmax, WeightSum, Visited, BlockOf;
    if h.causal {
      CausalIsSoftmax(h, r, bM, bN, 0);
    } else {
      PaddingShrinks(h, r, bM, bN, 0);
      NoPadding(h, r, bM, bN);
    }
    forall d: nat | d < h.dim ensures output[r, d] == Softmax(h, r, d) {
      if h.causal {
        CausalIsSoftmax(h, r, bM, bN, d);
      } else {
        PaddingShrinks(h, r, bM, bN, d);
      }
    }
  }

  lemma NoPadding(h: Head, r: nat, bM: nat, bN: nat)
    requires bM > 0 && bN > 0 && !h.causal && h.len % bN == 0 && r < h.len
    ensures Visited(h, BlockOf(r, bM), bM, bN) == h.len
  {
    CeilDivBounds(h.len, bN);
  }
}
