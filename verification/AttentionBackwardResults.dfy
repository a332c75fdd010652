/** What the backward kernels leave in dQ, dK and dV, against the gradients of softmax attention. */
module AttentionBackwardResults {
  import opened Sums
  import opened TileOps
  import opened AttentionSpec
  import opened AttentionGradient
  import opened AttentionBackward
  import opened AttentionBackwardGrid
  import opened AttentionPreprocess

  /** The additions of all blocks, block after block. */
  function AllAdds(logs: seq<seq<Add>>): seq<Add> {
    if logs == [] then [] else AllAdds(logs[..|logs| - 1]) + logs[|logs| - 1]
  }

  lemma {:induction false} AddedConcat(a: seq<Add>, c: seq<Add>, r: nat, d: nat)
    ensures Added(a + c, r, d) == Added(a, r, d) + Added(c, r, d)
  {
    if c == [] {
      assert a + c == a;
    } else {
      var last := c[|c| - 1];
      assert a + c == a + c[..|c| - 1] + [last];
      AddedSnoc(a + c[..|c| - 1], last, r, d);
      AddedConcat(a, c[..|c| - 1], r, d);
    }
  }

  /** Where a permutation keeps the last element, and that the rest is a permutation of the rest. */
  lemma FindLast(a: seq<Add>, c: seq<Add>) returns (k: nat)
    requires multiset(a) == multiset(c) && a != []
    ensures k < |c| && c[k] == a[|a| - 1]
    ensures multiset(a[..|a| - 1]) == multiset(c[..k] + c[k + 1..])
  {
    var n := |a| - 1;
    assert a[n] in multiset(c);
    k :| k < |c| && c[k] == a[n];
    RemoveAt(a, n);
    RemoveAt(c, k);
    assert a[..n] + a[n + 1..] == a[..n];
  }

  lemma RemoveAt(c: seq<Add>, k: nat)
    requires k < |c|
    ensures multiset(c[..k] + c[k + 1..]) == multiset(c) - multiset{c[k]}
  {
    var left, right := c[..k], c[k + 1..];
    assert c == left + [c[k]] + right;
    assert multiset(left + right) == multiset(left) + multiset(right);
    assert multiset(c) == multiset(left) + multiset{c[k]} + multiset(right);
  }

  /** Atomic additions may run in any order. */
  lemma {:induction false} AddedPermutes(a: seq<Add>, c: seq<Add>, r: nat, d: nat)
    requires multiset(a) == multiset(c)
    ensures Added(a, r, d) == Added(c, r, d)
    decreases |a|
  {
    if a == [] {
      assert |multiset(c)| == 0;
    } else {
      hide Added;
      var n := |a| - 1;
      assert a == a[..n] + [a[n]];
      var k := FindLast(a, c);
      var left, right := c[..k], c[k + 1..];
      assert c == left + [c[k]] + right;
      AddedSnoc(a[..n], a[n], r, d);
      AddedPermutes(a[..n], left + right, r, d);
      AddedConcat(left, right, r, d);
      AddedConcat(left + [c[k]], right, r, d);
      AddedSnoc(left, c[k], r, d);
    }
  }

  lemma {:induction false} AddedByBlocks(logs: seq<seq<Add>>, r: nat, d: nat, share: nat -> real)
    requires forall y: nat | y < |logs| :: Added(logs[y], r, d) == share(y)
    ensures Added(AllAdds(logs), r, d) == Sum(|logs|, share)
  {
    if logs != [] {
      AddedByBlocks(logs[..|logs| - 1], r, d, share);
      AddedConcat(AllAdds(logs[..|logs| - 1]), logs[|logs| - 1], r, d);
    }
  }

  /** Entry (r, d) of dQ as one sum over the keys of the sequence. */
  function QueryGrad(b: Backward, r: nat, d: nat): real {
    Sum(b.h.len, (j: nat) => KernelGrad(b, r, j) * Load(b.h.k, b.h.len, j, d))
  }

  lemma SharesAddUp(b: Backward, bM: nat, r: nat, d: nat, share: nat -> real)
    requires bM > 0
    requires forall y: nat | y < CeilDiv(b.h.len, bM) :: share(y) == QueryShare(b, y * bM, bM, r, d)
    ensures Sum(CeilDiv(b.h.len, bM), share) == QueryGrad(b, r, d)
  {
    CeilDivBounds(b.h.len, bM);
    var t := CeilDiv(b.h.len, bM);
    hide CeilDiv, KernelGrad, Sum;
    var f := (j: nat) => KernelGrad(b, r, j) * Load(b.h.k, b.h.len, j, d);
    forall y: nat | y < t ensures share(y) == Sum(bM, Tile(f, bM, y)) {
      var row: nat := y * bM;
      SumCong(bM, (i: nat) => KernelGrad(b, r, row + i) * Load(b.h.k, b.h.len, row + i, d), Tile(f, bM, y));
    }
    SumTiles(t, bM, f, share);
    SumTail(b.h.len, t * bM, f);
  }

  /** However the blocks' additions interleave, entry (r, d) of dQ grows by its gradient. */
  lemma AnyScheduleAddsGradient(b: Backward, bM: nat, logs: seq<seq<Add>>, schedule: seq<Add>, r: nat, d: nat)
    requires bM > 0 && |logs| == CeilDiv(b.h.len, bM) && Logged(b, bM, logs)
    requires multiset(schedule) == multiset(AllAdds(logs))
    requires r < b.h.len && d < b.h.dim
    ensures Added(schedule, r, d) == QueryGrad(b, r, d)
  {
    hide CeilDiv, QueryShare, QueryGrad, Added, AllAdds, Sum;
    AddedPermutes(schedule, AllAdds(logs), r, d);
    var share := (y: nat) => var row: nat := y * bM; QueryShare(b, row, bM, r, d);
    forall y: nat | y < |logs| ensures Added(logs[y], r, d) == share(y) {
      assert Shared(b, y * bM, bM, b.h.len, logs[y]);
    }
    AddedByBlocks(logs, r, d, share);
    SharesAddUp(b, bM, r, d, share);
  }

  /** The buffer of dQ has the shape of its layout. */
  ghost predicate DqShaped(dQ: array4<real>, len: nat, dim: nat) {
    dQ.Length0 == CeilDiv(len, 8) && dQ.Length1 == CeilDiv(dim, 8) && dQ.Length2 == 2 && dQ.Length3 == 32
  }

  /** Element (r, d) of dQ, read through the layout. */
  function Element(dQ: array4<real>, len: nat, dim: nat, r: nat, d: nat): real
    requires DqShaped(dQ, len, dim) && r < len && d < dim
    reads dQ
  {
    LayoutInvertible(r, d, len, dim);
    var p := DqLayout(r, d);
    dQ[p.rowBlock, p.colBlock, p.parity, p.lane]
  }

  /** An addition through the layout changes one element and no other. */
  method AtomicAdd(dQ: array4<real>, len: nat, dim: nat, a: Add)
    requires DqShaped(dQ, len, dim) && a.r < len && a.d < dim
    modifies dQ
    ensures forall r: nat, d: nat | r < len && d < dim ::
              Element(dQ, len, dim, r, d)
              == old(Element(dQ, len, dim, r, d)) + if a.r == r && a.d == d then a.value else 0.0
  {
    hide CeilDiv;
    LayoutInvertible(a.r, a.d, len, dim);
    var p := DqLayout(a.r, a.d);
    assert InShape(p, len, dim);
    dQ[p.rowBlock, p.colBlock, p.parity, p.lane] := dQ[p.rowBlock, p.colBlock, p.parity, p.lane] + a.value;
    forall r: nat, d: nat | r < len && d < dim
      ensures Element(dQ, len, dim, r, d)
              == old(Element(dQ, len, dim, r, d)) + if a.r == r && a.d == d then a.value else 0.0
    {
      LayoutInvertible(r, d, len, dim);
      assert DqLayout(r, d) == p ==> (r, d) == (a.r, a.d);
      hide DqLayout;
    }
  }

  /** Runs atomic additions one after the other. */
  method RunAdds(dQ: array4<real>, len: nat, dim: nat, schedule: seq<Add>)
    requires DqShaped(dQ, len, dim)
    requires forall x | 0 <= x < |schedule| :: schedule[x].r < len && schedule[x].d < dim
    modifies dQ
    ensures forall r: nat, d: nat | r < len && d < dim ::
              Element(dQ, len, dim, r, d) == old(Element(dQ, len, dim, r, d)) + Added(schedule, r, d)
  {
    hide Element;
    for x := 0 to |schedule|
      invariant forall r: nat, d: nat | r < len && d < dim ::
                  Element(dQ, len, dim, r, d) == old(Element(dQ, len, dim, r, d)) + Added(schedule[..x], r, d)
    {
      var a := schedule[x];
      assert schedule[..x + 1] == schedule[..x] + [a];
      forall r: nat, d: nat | r < len && d < dim
        ensures Added(schedule[..x + 1], r, d)
             == Added(schedule[..x], r, d) + if a.r == r && a.d == d then a.value else 0.0
      {
        AddedSnoc(schedule[..x], a, r, d);
      }
      AtomicAdd(dQ, len, dim, a);
    }
    assert schedule[..|schedule|] == schedule;
  }

  const POST_BLK: nat := 64

  /** Reads dQ back from its layout, blocks of rows in any order. */
  method Postprocess(dQ: array4<real>, len: nat, dim: nat, order: seq<nat>, out: array2<real>)
    requires DqShaped(dQ, len, dim) && out.Length0 == len && out.Length1 == dim && Covers(order, CeilDiv(len, POST_BLK))
    modifies out
    ensures forall r: nat, d: nat | r < len && d < dim :: out[r, d] == Element(dQ, len, dim, r, d)
  {
    hide Element, CeilDiv, BlockOf, DqShaped;
    for x := 0 to |order|
      invariant forall r: nat, d: nat | r < len && d < dim && BlockOf(r, POST_BLK) in order[..x] ::
                  out[r, d] == Element(dQ, len, dim, r, d)
    {
      var row := order[x] * POST_BLK;
      forall r: nat, d: nat | row <= r < row + POST_BLK && r < len && d < dim {
        out[r, d] := Element(dQ, len, dim, r, d);
      }
      forall r: nat | BlockOf(r, POST_BLK) in order[..x + 1] && BlockOf(r, POST_BLK) !in order[..x]
        ensures row <= r < row + POST_BLK
      {
        assert BlockOf(r, POST_BLK) == order[x];
        InBlock(r, POST_BLK, order[x]);
      }
    }
    forall r: nat | r < len ensures BlockOf(r, POST_BLK) in order[..|order|] {
      InBlock(r, POST_BLK, BlockOf(r, POST_BLK));
      BlockInGrid(BlockOf(r, POST_BLK), POST_BLK, len);
      assert order[..|order|] == order;
    }
  }

  /** The forward pass left the exact log-sum-exp, and preprocessing the exact row products. */
  ghost predicate Ready(b: Backward) {
    && Laws(b.h.e)
    && forall r: nat | r < b.h.len ::
         b.h.e.exp2(b.lse(r)) == WeightSum(b.h, r, b.h.len, 0.0) && b.delta(r) == OutputProduct(b, r)
  }

  /** Recomputing from score and log-sum-exp gives the probability. */
  lemma KernelProbIsProb(b: Backward, r: nat, j: nat)
    requires Ready(b) && r < b.h.len
    ensures KernelProb(b, r, j) == Prob(b.h, r, j)
  {
    var h, lse := b.h, b.lse(r);
    ProbIsRatio(h, r, j);
    var s := ScoreOf(h, r, j);
    if s.Fin? {
      assert s.x == Raw(h, r, j);
      assert Multiplies(h.e, s.x - lse, lse);
      assert s.x - lse + lse == s.x == s.x - 0.0;
      assert Weight(h, r, j, 0.0) == h.e.exp2(s.x);
      Cancel(h.e.exp2(s.x - lse), Prob(h, r, j), h.e.exp2(lse));
    } else {
      Cancel(0.0, Prob(h, r, j), WeightSum(h, r, h.len, 0.0));
    }
  }

  lemma Cancel(x: real, y: real, z: real)
    requires z != 0.0 && x * z == y * z
    ensures x == y
  {
    assert (x - y) * z == 0.0;
  }

  /** The kernel's score gradient is the true one, scaled. */
  lemma KernelGradIsGrad(b: Backward, r: nat, j: nat)
    requires Ready(b) && r < b.h.len && j < b.h.len
    ensures KernelGrad(b, r, j) == ScoreGrad(b, r, j) * b.smScale
  {
    assert b.delta(r) == OutputProduct(b, r);
    KernelProbIsProb(b, r, j);
    OutputProductIsMean(b, r);
    ScoreGradClosed(b, r, j);
  }

  /** The three gradients, as sums over the whole sequence. */
  ghost function TrueDV(b: Backward, j: nat, d: nat): real {
    Sum(b.h.len, (r: nat) => Prob(b.h, r, j) * Load(b.dO, b.h.len, r, d))
  }

  ghost function TrueDK(b: Backward, j: nat, d: nat): real {
    Sum(b.h.len, (r: nat) => ScoreGrad(b, r, j) * b.smScale * Load(b.h.q, b.h.len, r, d))
  }

  ghost function TrueDQ(b: Backward, r: nat, d: nat): real {
    Sum(b.h.len, (j: nat) => ScoreGrad(b, r, j) * b.smScale * Load(b.h.k, b.h.len, j, d))
  }

  lemma ValueGradIsTrue(b: Backward, j: nat, d: nat)
    requires Ready(b)
    ensures ValueGrad(b, j, d, b.h.len) == TrueDV(b, j, d)
  {
    hide Ready, KernelProb, Prob, Load, Sum;
    var f := (r: nat) => KernelProb(b, r, j) * Load(b.dO, b.h.len, r, d);
    var g := (r: nat) => Prob(b.h, r, j) * Load(b.dO, b.h.len, r, d);
    forall r: nat | r < b.h.len ensures f(r) == g(r) {
      KernelProbIsProb(b, r, j);
    }
    SumCong(b.h.len, f, g);
  }

  lemma KeyGradIsTrue(b: Backward, j: nat, d: nat)
    requires Ready(b) && j < b.h.len
    ensures KeyGrad(b, j, d, b.h.len) == TrueDK(b, j, d)
  {
    hide Ready, KernelGrad, ScoreGrad, Load, Sum;
    var f := (r: nat) => KernelGrad(b, r, j) * Load(b.h.q, b.h.len, r, d);
    var g := (r: nat) => ScoreGrad(b, r, j) * b.smScale * Load(b.h.q, b.h.len, r, d);
    forall r: nat | r < b.h.len ensures f(r) == g(r) {
      KernelGradIsGrad(b, r, j);
    }
    SumCong(b.h.len, f, g);
  }

  lemma QueryGradIsTrue(b: Backward, r: nat, d: nat)
    requires Ready(b) && r < b.h.len
    ensures QueryGrad(b, r, d) == TrueDQ(b, r, d)
  {
    hide Ready, KernelGrad, ScoreGrad, Load, Sum;
    var f := (j: nat) => KernelGrad(b, r, j) * Load(b.h.k, b.h.len, j, d);
    var g := (j: nat) => ScoreGrad(b, r, j) * b.smScale * Load(b.h.k, b.h.len, j, d);
    forall j: nat | j < b.h.len ensures f(j) == g(j) {
      KernelGradIsGrad(b, r, j);
    }
    SumCong(b.h.len, f, g);
  }

  /** The kernel's sums are the gradients. */
  ghost predicate Gradients(b: Backward) {
    forall r: nat, d: nat | r < b.h.len ::
      && ValueGrad(b, r, d, b.h.len) == TrueDV(b, r, d)
      && KeyGrad(b, r, d, b.h.len) == TrueDK(b, r, d)
      && QueryGrad(b, r, d) == TrueDQ(b, r, d)
  }

  lemma ReadyGivesGradients(b: Backward)
    requires Ready(b)
    ensures Gradients(b)
  {
    hide Ready, TrueDV, TrueDK, TrueDQ, ValueGrad, KeyGrad, QueryGrad;
    forall r: nat, d: nat | r < b.h.len
      ensures ValueGrad(b, r, d, b.h.len) == TrueDV(b, r, d)
      ensures KeyGrad(b, r, d, b.h.len) == TrueDK(b, r, d)
      ensures QueryGrad(b, r, d) == TrueDQ(b, r, d)
    {
      ValueGradIsTrue(b, r, d);
      KeyGradIsTrue(b, r, d);
      QueryGradIsTrue(b, r, d);
    }
  }

  lemma {:induction false} AllAddsInRange(b: Backward, logs: seq<seq<Add>>)
    requires forall y: nat | y < |logs| :: InRange(b, logs[y])
    ensures InRange(b, AllAdds(logs))
  {
    if logs != [] {
      AllAddsInRange(b, logs[..|logs| - 1]);
    }
  }

  lemma PermutedInRange(b: Backward, a: seq<Add>, c: seq<Add>)
    requires multiset(a) == multiset(c) && InRange(b, c)
    ensures InRange(b, a)
  {
    forall x: nat | x < |a| ensures a[x].r < b.h.len && a[x].d < b.h.dim {
      assert a[x] in multiset(a);
      assert a[x] in multiset(c);
    }
  }

  /**
   The whole backward kernel, blocks in any order and the atomic additions under any scheduler: dV
   and dK are the kernel's sums over the sequence, and dQ, read through its layout, is what it held
   before plus the kernel's sum. From exact log-sum-exps and row products these are the gradients.
   */
  method BackwardPass(b: Backward, bM: nat, bN: nat, order: seq<nat>, schedule: seq<seq<Add>> -> seq<Add>,
                      dQ: array4<real>, dK: array2<real>, dV: array2<real>)
    requires bM > 0 && bN > 0 && Schedules(order, CeilDiv(b.h.len, bM))
    requires forall logs :: multiset(schedule(logs)) == multiset(AllAdds(logs))
    requires DqShaped(dQ, b.h.len, b.h.dim) && dK != dV
    requires dK.Length0 == dV.Length0 == b.h.len && dK.Length1 == dV.Length1 == b.h.dim
    modifies dQ, dK, dV
    ensures forall j: nat, d: nat | j < b.h.len && d < b.h.dim ::
              dV[j, d] == ValueGrad(b, j, d, b.h.len) && dK[j, d] == KeyGrad(b, j, d, b.h.len)
    ensures forall r: nat, d: nat | r < b.h.len && d < b.h.dim ::
              Element(dQ, b.h.len, b.h.dim, r, d) == old(Element(dQ, b.h.len, b.h.dim, r, d)) + QueryGrad(b, r, d)
    ensures Ready(b) ==> Gradients(b)
  {
    hide Ready, Gradients, CeilDiv, ValueGrad, KeyGrad, QueryGrad, Added, AllAdds, Element, DqShaped, Schedules;
    var logs := FlashBackward(b, bM, bN, order, dV, dK);
    var adds := schedule(logs);
    assert forall y: nat | y < |logs| :: Shared(b, y * bM, bM, b.h.len, logs[y]);
    AllAddsInRange(b, logs);
    PermutedInRange(b, adds, AllAdds(logs));
    hide Shared, Logged;
    forall r: nat, d: nat | r < b.h.len && d < b.h.dim ensures Added(adds, r, d) == QueryGrad(b, r, d) {
      AnyScheduleAddsGradient(b, bM, logs, adds, r, d);
    }
    forall j: nat, d: nat | j < b.h.len && d < b.h.dim
      ensures dV[j, d] == ValueGrad(b, j, d, b.h.len) && dK[j, d] == KeyGrad(b, j, d, b.h.len)
    {
      assert RowDone(b, j, dV, dK);
    }
    RunAdds(dQ, b.h.len, b.h.dim, adds);
    if Ready(b) {
      ReadyGivesGradients(b);
    }
  }
}
