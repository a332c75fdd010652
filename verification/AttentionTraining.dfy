/** Forward pass, preprocessing, backward pass and postprocessing of one head, one after the other. */
module AttentionTraining {
  import opened Sums
  import opened TileOps
  import opened AttentionSpec
  import opened AttentionForward
  import opened AttentionResults
  import opened AttentionGradient
  import opened AttentionPreprocess
  import opened AttentionBackward
  import opened AttentionBackwardResults

  /** Block sizes of the two attention kernels, and the order in which the blocks of each kernel run. */
  datatype Launch = Launch(
    fM: nat, fN: nat, bM: nat, bN: nat,
    forward: seq<nat>, prep: seq<nat>, backward: seq<nat>, post: seq<nat>, atomics: seq<seq<Add>> -> seq<Add>)

  ghost predicate Fits(l: Launch, h: Head) {
    && l.fM > 0 && l.fN > 0 && l.bM > 0 && l.bN > 0
    && Covers(l.forward, CeilDiv(h.len, l.fM)) && Covers(l.prep, CeilDiv(h.len, BLK))
    && Schedules(l.backward, CeilDiv(h.len, l.bM)) && Covers(l.post, CeilDiv(h.len, POST_BLK))
    && forall logs :: multiset(l.atomics(logs)) == multiset(AllAdds(logs))
  }

  /** For every head and all block sizes there is such a launch. */
  lemma LaunchExists(h: Head, fM: nat, fN: nat, bM: nat, bN: nat)
    requires fM > 0 && fN > 0 && bM > 0 && bN > 0
    ensures exists l: Launch :: l.fM == fM && l.fN == fN && l.bM == bM && l.bN == bN && Fits(l, h)
  {
    hide CeilDiv, AllAdds;
    var upTo := (n: nat) => seq(n, (i: nat) => i);
    var l := Launch(fM, fN, bM, bN, upTo(CeilDiv(h.len, fM)), upTo(CeilDiv(h.len, BLK)), upTo(CeilDiv(h.len, bM)),
                    upTo(CeilDiv(h.len, POST_BLK)), logs => AllAdds(logs));
    forall n: nat ensures Schedules(upTo(n), n) {
      forall y: nat | y < n ensures y in upTo(n) {
        assert upTo(n)[y] == y;
      }
    }
    assert Fits(l, h);
  }

  /** The elements of a matrix as a function. */
  method Contents(a: array2<real>) returns (f: (nat, nat) -> real)
    ensures forall i: nat, j: nat | i < a.Length0 && j < a.Length1 :: f(i, j) == a[i, j]
  {
    var rows: seq<seq<real>> := [];
    for i := 0 to a.Length0
      invariant |rows| == i && forall x: nat | x < i :: |rows[x]| == a.Length1
      invariant forall x: nat, y: nat | x < i && y < a.Length1 :: rows[x][y] == a[x, y]
    {
      var row := seq(a.Length1, j requires 0 <= j < a.Length1 reads a => a[i, j]);
      rows := rows + [row];
    }
    f := (i: nat, j: nat) => if i < |rows| && j < |rows[i]| then rows[i][j] else 0.0;
  }

  function RowFunction(s: seq<real>): nat -> real {
    (r: nat) => if r < |s| then s[r] else 0.0
  }

  lemma ProductIsOutputProduct(b: Backward, o: (nat, nat) -> real, r: nat)
    requires r < b.h.len && forall d: nat | d < b.h.dim :: o(r, d) == Softmax(b.h, r, d)
    ensures RowProduct(o, b.dO, b.h.dim, r) == OutputProduct(b, r)
  {
    hide Sum, Softmax;
    SumCong(b.h.dim, (d: nat) => o(r, d) * b.dO(r, d),
            (d: nat) => Softmax(b.h, r, d) * Load(b.dO, b.h.len, r, d));
  }

  /** The forward pass is right on this head: it has a mask, or the key block divides the length. */
  predicate ForwardRight(l: Launch, h: Head)
    requires l.fN > 0
  {
    h.causal || h.len % l.fN == 0
  }

  /** Number of keys the forward pass visits for row r. */
  function Seen(l: Launch, h: Head, r: nat): nat
    requires l.fM > 0 && l.fN > 0
  {
    Visited(h, BlockOf(r, l.fM), l.fM, l.fN)
  }

  /**
   The first two kernels: the mean over the keys visited and its log-sum-exp for every row, and the
   row products. Where the forward pass is right, this is what the backward pass starts from.
   */
  method Prepare(h: Head, dO: (nat, nat) -> real, smScale: real, l: Launch,
                 output: array2<real>, lse: array<real>, delta: array<real>) returns (b: Backward)
    requires Laws(h.e) && Fits(l, h)
    requires output.Length0 == lse.Length == delta.Length == h.len && output.Length1 == h.dim && lse != delta
    modifies output, lse, delta
    ensures b.h == h && b.dO == dO && b.smScale == smScale
    ensures forall r: nat, d: nat | r < h.len && d < h.dim :: output[r, d] == Mean(h, r, Seen(l, h, r), d)
    ensures forall r: nat | r < h.len :: h.e.exp2(b.lse(r)) == WeightSum(h, r, Seen(l, h, r), 0.0)
    ensures ForwardRight(l, h) ==>
              Ready(b) && forall r: nat, d: nat | r < h.len && d < h.dim :: output[r, d] == Softmax(h, r, d)
  {
    hide Laws, Softmax, Mean, WeightSum, CeilDiv, Covers, RowProduct, OutputProduct, Visited, BlockOf;
    FlashForward(h, l.fM, l.fN, l.forward, output, lse);
    assert forall r: nat | r < h.len :: RowDone(h, r, Visited(h, BlockOf(r, l.fM), l.fM, l.fN), output, lse);
    var o := Contents(output);
    Preprocess(o, dO, h.len, h.dim, l.prep, delta);
    b := Backward(h, dO, RowFunction(lse[..]), RowFunction(delta[..]), smScale);
    if ForwardRight(l, h) {
      forall r: nat | r < h.len ensures h.e.exp2(lse[r]) == WeightSum(h, r, h.len, 0.0) {
        ForwardIsExact(h, l.fM, l.fN, output, lse, r);
      }
      forall r: nat, d: nat | r < h.len && d < h.dim ensures output[r, d] == Softmax(h, r, d) {
        ForwardIsExact(h, l.fM, l.fN, output, lse, r);
      }
      forall r: nat | r < h.len ensures b.delta(r) == OutputProduct(b, r) {
        ProductIsOutputProduct(b, o, r);
      }
    }
  }

  /**
   A head through all four kernels, each with its blocks in any order. Where the forward pass is
   right, the output is softmax attention, dV and dK are its gradients, and dQ is its gradient
   exactly where the buffer held zero.
   */
  method ForwardBackward(h: Head, dO: (nat, nat) -> real, smScale: real, l: Launch,
                         output: array2<real>, lse: array<real>, delta: array<real>,
                         buffer: array4<real>, dQ: array2<real>, dK: array2<real>, dV: array2<real>)
    returns (b: Backward)
    requires Laws(h.e) && Fits(l, h)
    requires output.Length0 == lse.Length == delta.Length == dQ.Length0 == dK.Length0 == dV.Length0 == h.len
    requires output.Length1 == dQ.Length1 == dK.Length1 == dV.Length1 == h.dim && DqShaped(buffer, h.len, h.dim)
    requires lse != delta && output !in {dQ, dK, dV} && dQ !in {dK, dV} && dK != dV
    modifies output, lse, delta, buffer, dQ, dK, dV
    ensures b.h == h && b.dO == dO && b.smScale == smScale
    ensures forall r: nat, d: nat | r < h.len && d < h.dim :: output[r, d] == Mean(h, r, Seen(l, h, r), d)
    ensures forall j: nat, d: nat | j < h.len && d < h.dim ::
              dV[j, d] == ValueGrad(b, j, d, h.len) && dK[j, d] == KeyGrad(b, j, d, h.len)
    ensures forall r: nat, d: nat | r < h.len && d < h.dim ::
              dQ[r, d] == old(Element(buffer, h.len, h.dim, r, d)) + QueryGrad(b, r, d)
    ensures ForwardRight(l, h) ==> forall r: nat, d: nat | r < h.len && d < h.dim ::
              && output[r, d] == Softmax(h, r, d)
              && dV[r, d] == TrueDV(b, r, d) && dK[r, d] == TrueDK(b, r, d)
              && (dQ[r, d] == TrueDQ(b, r, d) <==> old(Element(buffer, h.len, h.dim, r, d)) == 0.0)
  {
    hide Laws, Softmax, Mean, CeilDiv, Ready, TrueDV, TrueDK, TrueDQ, ValueGrad, KeyGrad, QueryGrad;
    hide Element, DqShaped, Covers, AllAdds, Seen;
    b := Prepare(h, dO, smScale, l, output, lse, delta);
    BackwardPass(b, l.bM, l.bN, l.backward, l.atomics, buffer, dK, dV);
    Postprocess(buffer, h.len, h.dim, l.post, dQ);
  }
}
