/**
 The backward kernel of one block of keys: it recomputes probabilities from the log-sum-exp, adds
 up its rows of dV and dK, and sends its share of dQ as atomic additions.
 */
module AttentionBackward {
  import opened Sums
  import opened TileOps
  import opened AttentionSpec
  import opened AttentionGradient

  function LoadRow(v: nat -> real, len: nat, r: nat): real {
    if r < len then v(r) else 0.0
  }

  /** The kernel's probability: from score and log-sum-exp, masked after the exponential. */
  function KernelProb(b: Backward, r: nat, j: nat): real {
    if b.h.causal && r < j then 0.0 else b.h.e.exp2(Raw(b.h, r, j) - LoadRow(b.lse, b.h.len, r))
  }

  /** The kernel's score gradient, with the softmax scale. */
  function KernelGrad(b: Backward, r: nat, j: nat): real {
    KernelProb(b, r, j) * (ProbGrad(b, r, j) - LoadRow(b.delta, b.h.len, r)) * b.smScale
  }

  /** Entry (j, d) of dV after the first n queries. */
  function ValueGrad(b: Backward, j: nat, d: nat, n: nat): real {
    Sum(n, (r: nat) => KernelProb(b, r, j) * Load(b.dO, b.h.len, r, d))
  }

  /** Entry (j, d) of dK after the first n queries. */
  function KeyGrad(b: Backward, j: nat, d: nat, n: nat): real {
    Sum(n, (r: nat) => KernelGrad(b, r, j) * Load(b.h.q, b.h.len, r, d))
  }

  /** What the keys row..row + bM - 1 add to entry (r, d) of dQ. */
  function QueryShare(b: Backward, row: nat, bM: nat, r: nat, d: nat): real {
    Sum(bM, (i: nat) => KernelGrad(b, r, row + i) * Load(b.h.k, b.h.len, row + i, d))
  }

  /** An atomic addition to entry (r, d) of dQ. */
  datatype Add = Add(r: nat, d: nat, value: real)

  /** What a run of atomic additions adds to entry (r, d). */
  function Added(events: seq<Add>, r: nat, d: nat): real {
    if events == [] then 0.0
    else
      var last := events[|events| - 1];
      Added(events[..|events| - 1], r, d) + if last.r == r && last.d == d then last.value else 0.0
  }

  lemma AddedSnoc(events: seq<Add>, a: Add, r: nat, d: nat)
    ensures Added(events + [a], r, d) == Added(events, r, d) + if a.r == r && a.d == d then a.value else 0.0
  {
    assert (events + [a])[..|events|] == events;
  }

  /** Tiles as functions. */
  function ScaledKey(b: Backward, row: nat): (nat, nat) -> real {
    (i: nat, d: nat) => Load(b.h.k, b.h.len, row + i, d) * b.h.scale
  }

  function RowsOf(m: (nat, nat) -> real, len: nat, start: nat): (nat, nat) -> real {
    (i: nat, d: nat) => Load(m, len, start + i, d)
  }

  function ColsOf(m: (nat, nat) -> real, len: nat, start: nat): (nat, nat) -> real {
    (d: nat, i: nat) => Load(m, len, start + i, d)
  }

  function ProbTile(b: Backward, row: nat, col: nat): (nat, nat) -> real {
    (i: nat, j: nat) => KernelProb(b, col + j, row + i)
  }

  function GradTile(b: Backward, row: nat, col: nat): (nat, nat) -> real {
    (i: nat, j: nat) => KernelGrad(b, col + j, row + i)
  }

  function GradTileT(b: Backward, row: nat, col: nat): (nat, nat) -> real {
    (j: nat, i: nat) => KernelGrad(b, col + j, row + i)
  }

  lemma RawTransposed(b: Backward, row: nat, col: nat, i: nat, j: nat)
    ensures Product(b.h.dim, ScaledKey(b, row), ColsOf(b.h.q, b.h.len, col), i, j) == Raw(b.h, col + j, row + i)
  {
    var f, g := ScaledKey(b, row), ColsOf(b.h.q, b.h.len, col);
    var x := (l: nat) => f(i, l) * g(l, j);
    var y := (d: nat) => Load(b.h.q, b.h.len, col + j, d) * b.h.scale * Load(b.h.k, b.h.len, row + i, d);
    hide Load, Sum;
    forall d: nat | d < b.h.dim ensures x(d) == y(d) {
      Swap(Load(b.h.k, b.h.len, row + i, d), b.h.scale, Load(b.h.q, b.h.len, col + j, d));
    }
    SumCong(b.h.dim, x, y);
  }

  lemma Swap(x: real, y: real, z: real)
    ensures x * y * z == z * y * x
  {
  }

  /** The recomputed probabilities of a tile of keys by queries. */
  method RecomputeProbs(b: Backward, row: nat, col: nat, kLocal: array2<real>, q: array2<real>,
                        lse: array<real>, qkT: array2<real>)
    requires qkT !in {kLocal, q}
    requires kLocal.Length0 == qkT.Length0 && q.Length0 == qkT.Length1 == lse.Length
    requires kLocal.Length1 == q.Length1 == b.h.dim
    requires Holds(kLocal, false, ScaledKey(b, row)) && Holds(q, true, ColsOf(b.h.q, b.h.len, col))
    modifies lse, qkT
    ensures Holds(qkT, false, ProbTile(b, row, col))
  {
    hide Product, Load, Raw, Holds;
    forall i: nat, j: nat | i < qkT.Length0 && j < qkT.Length1 {
      qkT[i, j] := 0.0;
    }
    Gemm(kLocal, q, qkT, false, true, ScaledKey(b, row), ColsOf(b.h.q, b.h.len, col));
    forall i: nat, j: nat | i < qkT.Length0 && j < qkT.Length1 ensures qkT[i, j] == Raw(b.h, col + j, row + i) {
      RawTransposed(b, row, col, i, j);
    }
    forall j: nat | j < lse.Length {
      lse[j] := LoadRow(b.lse, b.h.len, col + j);
    }
    Exponentiate(b, row, col, lse, qkT);
  }

  method Exponentiate(b: Backward, row: nat, col: nat, lse: array<real>, qkT: array2<real>)
    requires lse.Length == qkT.Length1
    requires forall i: nat, j: nat | i < qkT.Length0 && j < qkT.Length1 :: qkT[i, j] == Raw(b.h, col + j, row + i)
    requires forall j: nat | j < lse.Length :: lse[j] == LoadRow(b.lse, b.h.len, col + j)
    modifies qkT
    ensures Holds(qkT, false, ProbTile(b, row, col))
  {
    hide Raw, LoadRow;
    forall i: nat, j: nat | i < qkT.Length0 && j < qkT.Length1 {
      qkT[i, j] := b.h.e.exp2(qkT[i, j] - lse[j]);
    }
    if b.h.causal {
      forall i: nat, j: nat | i < qkT.Length0 && j < qkT.Length1 {
        qkT[i, j] := if row + i <= col + j then qkT[i, j] else 0.0;
      }
    }
    forall i: nat, j: nat | i < qkT.Length0 && j < qkT.Length1 ensures qkT[i, j] == ProbTile(b, row, col)(i, j) {
      assert qkT[i, j] == KernelProb(b, col + j, row + i);
    }
  }

  /** The scaled score gradients of a tile. */
  method ScoreGrads(b: Backward, row: nat, col: nat, vLocal: array2<real>, dO: array2<real>, qkT: array2<real>,
                    delta: array<real>, dsT: array2<real>, dsTCast: array2<real>)
    requires dsT !in {vLocal, dO, qkT, dsTCast} && dsTCast !in {vLocal, dO, qkT}
    requires vLocal.Length0 == qkT.Length0 == dsT.Length0 == dsTCast.Length0
    requires dO.Length0 == qkT.Length1 == dsT.Length1 == dsTCast.Length1 == delta.Length
    requires vLocal.Length1 == dO.Length1 == b.h.dim
    requires Holds(vLocal, false, RowsOf(b.h.v, b.h.len, row)) && Holds(dO, true, ColsOf(b.dO, b.h.len, col))
    requires Holds(qkT, false, ProbTile(b, row, col))
    modifies delta, dsT, dsTCast
    ensures Holds(dsTCast, false, GradTile(b, row, col))
  {
    hide Load, KernelProb, LoadRow, Sum;
    forall j: nat | j < delta.Length {
      delta[j] := LoadRow(b.delta, b.h.len, col + j);
    }
    forall i: nat, j: nat | i < dsT.Length0 && j < dsT.Length1 {
      dsT[i, j] := 0.0;
    }
    Gemm(vLocal, dO, dsT, false, true, RowsOf(b.h.v, b.h.len, row), ColsOf(b.dO, b.h.len, col));
    forall i: nat, j: nat | i < dsT.Length0 && j < dsT.Length1 ensures dsT[i, j] == ProbGrad(b, col + j, row + i) {
      ProbGradIsProduct(b, row, col, i, j);
    }
    hide ProbGrad;
    forall i: nat, j: nat | i < dsT.Length0 && j < dsT.Length1 {
      dsTCast[i, j] := qkT[i, j] * (dsT[i, j] - delta[j]) * b.smScale;
    }
    forall i: nat, j: nat | i < dsT.Length0 && j < dsT.Length1 ensures dsTCast[i, j] == GradTile(b, row, col)(i, j) {
      assert qkT[i, j] == KernelProb(b, col + j, row + i);
      assert dsTCast[i, j] == KernelGrad(b, col + j, row + i);
    }
  }

  lemma ProbGradIsProduct(b: Backward, row: nat, col: nat, i: nat, j: nat)
    ensures Product(b.h.dim, RowsOf(b.h.v, b.h.len, row), ColsOf(b.dO, b.h.len, col), i, j)
         == ProbGrad(b, col + j, row + i)
  {
    var f, g := RowsOf(b.h.v, b.h.len, row), ColsOf(b.dO, b.h.len, col);
    hide Load, Sum;
    SumCong(b.h.dim, (l: nat) => f(i, l) * g(l, j),
            (d: nat) => Load(b.h.v, b.h.len, row + i, d) * Load(b.dO, b.h.len, col + j, d));
  }

  lemma NextValueGrad(b: Backward, row: nat, col: nat, bN: nat, i: nat, d: nat)
    ensures ValueGrad(b, row + i, d, col + bN)
         == ValueGrad(b, row + i, d, col) + Product(bN, ProbTile(b, row, col), RowsOf(b.dO, b.h.len, col), i, d)
  {
    hide Load, Sum, KernelProb;
    var f, g := ProbTile(b, row, col), RowsOf(b.dO, b.h.len, col);
    SumSplit(col, bN, (r: nat) => KernelProb(b, r, row + i) * Load(b.dO, b.h.len, r, d), (l: nat) => f(i, l) * g(l, d));
  }

  lemma NextKeyGrad(b: Backward, row: nat, col: nat, bN: nat, i: nat, d: nat)
    ensures KeyGrad(b, row + i, d, col + bN)
         == KeyGrad(b, row + i, d, col) + Product(bN, GradTile(b, row, col), RowsOf(b.h.q, b.h.len, col), i, d)
  {
    hide Load, Sum, KernelGrad;
    var f, g := GradTile(b, row, col), RowsOf(b.h.q, b.h.len, col);
    SumSplit(col, bN, (r: nat) => KernelGrad(b, r, row + i) * Load(b.h.q, b.h.len, r, d), (l: nat) => f(i, l) * g(l, d));
  }

  lemma ShareIsProduct(b: Backward, row: nat, bM: nat, col: nat, i: nat, d: nat)
    ensures Product(bM, GradTileT(b, row, col), RowsOf(b.h.k, b.h.len, row), i, d) == QueryShare(b, row, bM, col + i, d)
  {
    hide Load, Sum, KernelGrad;
    var f, g := GradTileT(b, row, col), RowsOf(b.h.k, b.h.len, row);
    SumCong(bM, (l: nat) => f(i, l) * g(l, d),
            (x: nat) => KernelGrad(b, col + i, row + x) * Load(b.h.k, b.h.len, row + x, d));
  }

  /** The fragments one block of keys works on. */
  datatype Fragments = Fragments(
    kShared: array2<real>, kLocal: array2<real>, vLocal: array2<real>, q: array2<real>, dO: array2<real>,
    qkT: array2<real>, dsT: array2<real>, dsTCast: array2<real>, lse: array<real>, delta: array<real>,
    dv: array2<real>, dk: array2<real>, dq: array2<real>)

  ghost predicate Shaped(t: Fragments, bM: nat, bN: nat, dim: nat) {
    && t.kShared.Length0 == t.kLocal.Length0 == t.vLocal.Length0 == t.dv.Length0 == t.dk.Length0 == bM
    && t.qkT.Length0 == t.dsT.Length0 == t.dsTCast.Length0 == bM
    && t.q.Length0 == t.dO.Length0 == t.dq.Length0 == t.lse.Length == t.delta.Length == bN
    && t.qkT.Length1 == t.dsT.Length1 == t.dsTCast.Length1 == bN
    && t.kShared.Length1 == t.kLocal.Length1 == t.vLocal.Length1 == t.dv.Length1 == t.dk.Length1 == dim
    && t.q.Length1 == t.dO.Length1 == t.dq.Length1 == dim
  }

  ghost predicate Distinct(t: Fragments) {
    && t.kShared !in {t.kLocal, t.vLocal, t.q, t.dO, t.qkT, t.dsT, t.dsTCast, t.dv, t.dk, t.dq}
    && t.kLocal !in {t.vLocal, t.q, t.dO, t.qkT, t.dsT, t.dsTCast, t.dv, t.dk, t.dq}
    && t.vLocal !in {t.q, t.dO, t.qkT, t.dsT, t.dsTCast, t.dv, t.dk, t.dq}
    && t.q !in {t.dO, t.qkT, t.dsT, t.dsTCast, t.dv, t.dk, t.dq}
    && t.dO !in {t.qkT, t.dsT, t.dsTCast, t.dv, t.dk, t.dq}
    && t.qkT !in {t.dsT, t.dsTCast, t.dv, t.dk, t.dq}
    && t.dsT !in {t.dsTCast, t.dv, t.dk, t.dq}
    && t.dsTCast !in {t.dv, t.dk, t.dq}
    && t.dv !in {t.dk, t.dq} && t.dk != t.dq
    && t.lse != t.delta
  }

  /** The rows of dV and dK after n queries. */
  ghost predicate Summed(b: Backward, row: nat, n: nat, dv: array2<real>, dk: array2<real>)
    reads dv, dk
  {
    && (forall i: nat, d: nat | i < dv.Length0 && d < dv.Length1 :: dv[i, d] == ValueGrad(b, row + i, d, n))
    && (forall i: nat, d: nat | i < dk.Length0 && d < dk.Length1 :: dk[i, d] == KeyGrad(b, row + i, d, n))
  }

  /** A tile of queries: probabilities, then its share of dV. */
  method AddValueGrads(b: Backward, row: nat, col: nat, t: Fragments, bM: nat, bN: nat)
    requires Shaped(t, bM, bN, b.h.dim) && Distinct(t)
    requires Holds(t.kLocal, false, ScaledKey(b, row))
    requires forall i: nat, d: nat | i < bM && d < b.h.dim :: t.dv[i, d] == ValueGrad(b, row + i, d, col)
    modifies t.q, t.lse, t.qkT, t.dO, t.dv
    ensures Holds(t.q, false, RowsOf(b.h.q, b.h.len, col))
    ensures Holds(t.dO, true, ColsOf(b.dO, b.h.len, col))
    ensures Holds(t.qkT, false, ProbTile(b, row, col))
    ensures forall i: nat, d: nat | i < bM && d < b.h.dim :: t.dv[i, d] == ValueGrad(b, row + i, d, col + bN)
  {
    hide ValueGrad, KernelProb, Product, Load;
    Copy(b.h.q, b.h.len, col, t.q);
    RecomputeProbs(b, row, col, t.kLocal, t.q, t.lse, t.qkT);
    Copy(b.dO, b.h.len, col, t.dO);
    Gemm(t.qkT, t.dO, t.dv, false, false, ProbTile(b, row, col), RowsOf(b.dO, b.h.len, col));
    forall i: nat, d: nat | i < bM && d < b.h.dim ensures t.dv[i, d] == ValueGrad(b, row + i, d, col + bN) {
      NextValueGrad(b, row, col, bN, i, d);
    }
  }

  /** Score gradients, then the tile's share of dK and of dQ. */
  method AddKeyGrads(b: Backward, row: nat, col: nat, t: Fragments, bM: nat, bN: nat)
    requires Shaped(t, bM, bN, b.h.dim) && Distinct(t)
    requires Holds(t.kShared, false, RowsOf(b.h.k, b.h.len, row)) && Holds(t.vLocal, false, RowsOf(b.h.v, b.h.len, row))
    requires Holds(t.q, false, RowsOf(b.h.q, b.h.len, col)) && Holds(t.dO, true, ColsOf(b.dO, b.h.len, col))
    requires Holds(t.qkT, false, ProbTile(b, row, col))
    requires forall i: nat, d: nat | i < bM && d < b.h.dim :: t.dk[i, d] == KeyGrad(b, row + i, d, col)
    modifies t.delta, t.dsT, t.dsTCast, t.dk, t.dq
    ensures forall i: nat, d: nat | i < bM && d < b.h.dim :: t.dk[i, d] == KeyGrad(b, row + i, d, col + bN)
    ensures forall i: nat, d: nat | i < bN && d < b.h.dim :: t.dq[i, d] == QueryShare(b, row, bM, col + i, d)
  {
    hide KeyGrad, QueryShare, KernelGrad, KernelProb, Product, Load;
    ScoreGrads(b, row, col, t.vLocal, t.dO, t.qkT, t.delta, t.dsT, t.dsTCast);
    Gemm(t.dsTCast, t.q, t.dk, false, false, GradTile(b, row, col), RowsOf(b.h.q, b.h.len, col));
    forall i: nat, d: nat | i < bM && d < b.h.dim ensures t.dk[i, d] == KeyGrad(b, row + i, d, col + bN) {
      NextKeyGrad(b, row, col, bN, i, d);
    }
    forall i: nat, d: nat | i < bN && d < b.h.dim {
      t.dq[i, d] := 0.0;
    }
    Gemm(t.dsTCast, t.kShared, t.dq, true, false, GradTileT(b, row, col), RowsOf(b.h.k, b.h.len, row));
    forall i: nat, d: nat | i < bN && d < b.h.dim ensures t.dq[i, d] == QueryShare(b, row, bM, col + i, d) {
      ShareIsProduct(b, row, bM, col, i, d);
    }
  }

  /** After i whole rows and j entries of row i of a tile at col, the additions are those of the tile inside the sequence. */
  ghost predicate Sent(before: seq<Add>, events: seq<Add>, col: nat, len: nat, dim: nat,
                       f: (nat, nat) -> real, i: nat, j: nat)
  {
    forall r: nat, d: nat :: Added(events, r, d) == Added(before, r, d)
      + if r < len && ((col <= r < col + i && d < dim) || (r == col + i && d < j)) then f(r, d) else 0.0
  }

  /** Every addition falls inside the sequence. */
  ghost predicate InRange(b: Backward, events: seq<Add>) {
    forall x: nat | x < |events| :: events[x].r < b.h.len && events[x].d < b.h.dim
  }

  method SendAdds(b: Backward, dq: array2<real>, col: nat, before: seq<Add>, ghost f: (nat, nat) -> real)
    returns (events: seq<Add>)
    requires InRange(b, before) && dq.Length1 == b.h.dim
    requires forall i: nat, d: nat | i < dq.Length0 && d < dq.Length1 :: dq[i, d] == f(col + i, d)
    ensures Sent(before, events, col, b.h.len, dq.Length1, f, dq.Length0, 0)
    ensures InRange(b, events)
  {
    events := before;
    for i := 0 to dq.Length0
      invariant Sent(before, events, col, b.h.len, dq.Length1, f, i, 0) && InRange(b, events)
    {
      for j := 0 to dq.Length1
        invariant Sent(before, events, col, b.h.len, dq.Length1, f, i, j) && InRange(b, events)
      {
        if col + i < b.h.len {
          forall r: nat, d: nat
            ensures Added(events + [Add(col + i, j, dq[i, j])], r, d)
                 == Added(events, r, d) + if col + i == r && j == d then dq[i, j] else 0.0
          {
            AddedSnoc(events, Add(col + i, j, dq[i, j]), r, d);
          }
          events := events + [Add(col + i, j, dq[i, j])];
        }
      }
    }
  }
}
