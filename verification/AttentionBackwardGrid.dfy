/** The backward kernel over all blocks of keys, with its atomic additions taken in any order. */
module AttentionBackwardGrid {
  import opened Sums
  import opened TileOps
  import opened AttentionSpec
  import opened AttentionGradient
  import opened AttentionBackward

  /** First block of queries a causal block of keys visits. */
  function FirstBlock(b: Backward, row: nat, bN: nat): nat
    requires bN > 0
  {
    if b.h.causal then row / bN else 0
  }

  lemma FirstBlockBounds(b: Backward, row: nat, bN: nat)
    requires bN > 0 && row < b.h.len
    ensures FirstBlock(b, row, bN) <= CeilDiv(b.h.len, bN) && CeilDiv(b.h.len, bN) * bN >= b.h.len
    ensures FirstBlock(b, row, bN) * bN <= row
    ensures !b.h.causal ==> FirstBlock(b, row, bN) == 0
  {
    CeilDivBounds(b.h.len, bN);
    var q := row / bN;
    Commute(q, bN);
    assert row == bN * q + row % bN;
    Ordered(FirstBlock(b, row, bN), CeilDiv(b.h.len, bN), bN);
  }

  lemma MaskedIsZero(b: Backward, r: nat, j: nat)
    requires b.h.causal && r < j
    ensures KernelProb(b, r, j) == 0.0 && KernelGrad(b, r, j) == 0.0
  {
  }

  /** Queries before the first block are masked for every key of the tile. */
  lemma SkippedIsZero(b: Backward, row: nat, n: nat, i: nat, d: nat)
    requires n == 0 || (b.h.causal && n <= row)
    ensures ValueGrad(b, row + i, d, n) == 0.0 && KeyGrad(b, row + i, d, n) == 0.0
  {
    hide KernelProb, KernelGrad, Load;
    var f := (r: nat) => KernelProb(b, r, row + i) * Load(b.dO, b.h.len, r, d);
    var g := (r: nat) => KernelGrad(b, r, row + i) * Load(b.h.q, b.h.len, r, d);
    forall r: nat | r < n ensures f(r) == 0.0 && g(r) == 0.0 {
      MaskedIsZero(b, r, row + i);
    }
    SumZero(n, f);
    SumZero(n, g);
  }

  lemma SkippedShare(b: Backward, row: nat, bM: nat, r: nat, d: nat)
    requires b.h.causal && r < row
    ensures QueryShare(b, row, bM, r, d) == 0.0
  {
    hide KernelProb, KernelGrad, Load;
    var f := (i: nat) => KernelGrad(b, r, row + i) * Load(b.h.k, b.h.len, row + i, d);
    forall i: nat | i < bM ensures f(i) == 0.0 {
      MaskedIsZero(b, r, row + i);
    }
    SumZero(bM, f);
  }

  lemma NothingShared(b: Backward, row: nat, bM: nat, n: nat)
    requires n == 0 || (b.h.causal && n <= row)
    ensures Shared(b, row, bM, n, [])
  {
    forall r: nat, d: nat | r < n ensures QueryShare(b, row, bM, r, d) == 0.0 {
      SkippedShare(b, row, bM, r, d);
    }
  }

  /** Queries past the sequence add nothing. */
  lemma PaddedIsZero(b: Backward, j: nat, d: nat, n: nat)
    requires n >= b.h.len
    ensures ValueGrad(b, j, d, n) == ValueGrad(b, j, d, b.h.len)
    ensures KeyGrad(b, j, d, n) == KeyGrad(b, j, d, b.h.len)
  {
    hide KernelProb, KernelGrad, Sum;
    SumTail(b.h.len, n, (r: nat) => KernelProb(b, r, j) * Load(b.dO, b.h.len, r, d));
    SumTail(b.h.len, n, (r: nat) => KernelGrad(b, r, j) * Load(b.h.q, b.h.len, r, d));
  }

  method Allocate(bM: nat, bN: nat, dim: nat) returns (t: Fragments)
    ensures Shaped(t, bM, bN, dim) && Distinct(t)
    ensures fresh({t.kShared, t.kLocal, t.vLocal, t.q, t.dO, t.qkT, t.dsT, t.dsTCast, t.dv, t.dk, t.dq})
    ensures fresh({t.lse, t.delta})
  {
    var kShared, kLocal, vLocal := new real[bM, dim], new real[bM, dim], new real[bM, dim];
    var q, dO := new real[bN, dim], new real[bN, dim];
    var qkT, dsT, dsTCast := new real[bM, bN], new real[bM, bN], new real[bM, bN];
    var lse, delta := new real[bN], new real[bN];
    var dv, dk, dq := new real[bM, dim], new real[bM, dim], new real[bN, dim];
    t := Fragments(kShared, kLocal, vLocal, q, dO, qkT, dsT, dsTCast, lse, delta, dv, dk, dq);
  }

  method LoadKeys(b: Backward, row: nat, t: Fragments, bM: nat, bN: nat)
    requires Shaped(t, bM, bN, b.h.dim) && Distinct(t)
    modifies t.kShared, t.kLocal, t.vLocal
    ensures Holds(t.kShared, false, RowsOf(b.h.k, b.h.len, row)) && Holds(t.vLocal, false, RowsOf(b.h.v, b.h.len, row))
    ensures Holds(t.kLocal, false, ScaledKey(b, row))
  {
    Copy(b.h.k, b.h.len, row, t.kShared);
    Copy(b.h.v, b.h.len, row, t.vLocal);
    hide Load;
    forall i: nat, d: nat | i < bM && d < b.h.dim {
      t.kLocal[i, d] := t.kShared[i, d] * b.h.scale;
    }
  }

  method ClearGrads(b: Backward, row: nat, n: nat, t: Fragments, bM: nat, bN: nat)
    requires Shaped(t, bM, bN, b.h.dim) && Distinct(t)
    requires n == 0 || (b.h.causal && n <= row)
    modifies t.dv, t.dk
    ensures Summed(b, row, n, t.dv, t.dk)
  {
    hide ValueGrad, KeyGrad;
    forall i: nat, d: nat | i < bM && d < b.h.dim {
      t.dv[i, d] := 0.0;
    }
    forall i: nat, d: nat | i < bM && d < b.h.dim {
      t.dk[i, d] := 0.0;
    }
    forall i: nat, d: nat | i < bM && d < b.h.dim
      ensures t.dv[i, d] == ValueGrad(b, row + i, d, n) && t.dk[i, d] == KeyGrad(b, row + i, d, n)
    {
      SkippedIsZero(b, row, n, i, d);
    }
  }

  /** The additions to dQ sent for the first n queries. */
  ghost predicate Shared(b: Backward, row: nat, bM: nat, n: nat, events: seq<Add>) {
    && InRange(b, events)
    && forall r: nat, d: nat | r < b.h.len && d < b.h.dim ::
         Added(events, r, d) == if r < n then QueryShare(b, row, bM, r, d) else 0.0
  }

  ghost predicate Loaded(b: Backward, row: nat, t: Fragments)
    reads t.kShared, t.kLocal, t.vLocal
  {
    && Holds(t.kShared, false, RowsOf(b.h.k, b.h.len, row)) && Holds(t.vLocal, false, RowsOf(b.h.v, b.h.len, row))
    && Holds(t.kLocal, false, ScaledKey(b, row))
  }

  /** One block of queries. */
  method BackBlock(b: Backward, row: nat, col: nat, t: Fragments, bM: nat, bN: nat, before: seq<Add>)
    returns (events: seq<Add>)
    requires Shaped(t, bM, bN, b.h.dim) && Distinct(t) && Loaded(b, row, t)
    requires Summed(b, row, col, t.dv, t.dk) && Shared(b, row, bM, col, before)
    modifies t.q, t.lse, t.qkT, t.dO, t.dv, t.delta, t.dsT, t.dsTCast, t.dk, t.dq
    ensures Summed(b, row, col + bN, t.dv, t.dk) && Shared(b, row, bM, col + bN, events)
  {
    hide ValueGrad, KeyGrad, QueryShare, Added, RowsOf, ColsOf, ScaledKey, ProbTile, Holds;
    AddValueGrads(b, row, col, t, bM, bN);
    AddKeyGrads(b, row, col, t, bM, bN);
    ghost var f := (r: nat, d: nat) => QueryShare(b, row, bM, r, d);
    events := SendAdds(b, t.dq, col, before, f);
  }

  /** The loop over blocks of queries. */
  method BackLoop(b: Backward, row: nat, t: Fragments, bM: nat, bN: nat, first: nat, last: nat)
    returns (events: seq<Add>)
    requires Shaped(t, bM, bN, b.h.dim) && Distinct(t) && Loaded(b, row, t) && first <= last
    requires Summed(b, row, first * bN, t.dv, t.dk) && Shared(b, row, bM, first * bN, [])
    modifies t.q, t.lse, t.qkT, t.dO, t.dv, t.delta, t.dsT, t.dsTCast, t.dk, t.dq
    ensures Summed(b, row, last * bN, t.dv, t.dk) && Shared(b, row, bM, last * bN, events)
  {
    hide Holds, Shared, Summed, Shaped;
    events := [];
    for k := first to last
      invariant Loaded(b, row, t) && Summed(b, row, k * bN, t.dv, t.dk) && Shared(b, row, bM, k * bN, events)
    {
      NextBlock(k, bN);
      events := BackBlock(b, row, k * bN, t, bM, bN, events);
    }
  }

  /** The block of keys from row on: its rows of dV and dK, and its additions to dQ. */
  method BackBlocks(b: Backward, row: nat, bM: nat, bN: nat) returns (t: Fragments, events: seq<Add>)
    requires bN > 0 && row < b.h.len
    ensures Shaped(t, bM, bN, b.h.dim) && fresh(t.dv) && fresh(t.dk)
    ensures Summed(b, row, CeilDiv(b.h.len, bN) * bN, t.dv, t.dk)
    ensures Shared(b, row, bM, CeilDiv(b.h.len, bN) * bN, events)
  {
    hide Holds, Shared, Summed;
    t := Allocate(bM, bN, b.h.dim);
    LoadKeys(b, row, t, bM, bN);
    var first, last := FirstBlock(b, row, bN), CeilDiv(b.h.len, bN);
    FirstBlockBounds(b, row, bN);
    hide FirstBlock, CeilDiv, Shaped;
    ClearGrads(b, row, first * bN, t, bM, bN);
    NothingShared(b, row, bM, first * bN);
    events := BackLoop(b, row, t, bM, bN, first, last);
  }

  /** Row r of dV and dK, summed over all queries of the sequence. */
  ghost predicate RowDone(b: Backward, r: nat, dV: array2<real>, dK: array2<real>)
    requires r < dV.Length0 == dK.Length0 && dV.Length1 == dK.Length1 == b.h.dim
    reads dV, dK
  {
    forall d: nat | d < b.h.dim ::
      dV[r, d] == ValueGrad(b, r, d, b.h.len) && dK[r, d] == KeyGrad(b, r, d, b.h.len)
  }

  method WriteRows(b: Backward, row: nat, n: nat, bM: nat, dv: array2<real>, dk: array2<real>,
                   dV: array2<real>, dK: array2<real>)
    requires n >= b.h.len && dv.Length0 == dk.Length0 == bM && dv.Length1 == dk.Length1 == b.h.dim
    requires dV.Length0 == dK.Length0 == b.h.len && dV.Length1 == dK.Length1 == b.h.dim
    requires dV != dK && dv !in {dV, dK} && dk !in {dV, dK}
    requires Summed(b, row, n, dv, dk)
    modifies dV, dK
    ensures forall r: nat | row <= r < row + bM && r < b.h.len :: RowDone(b, r, dV, dK)
    ensures forall r: nat, d: nat | !(row <= r < row + bM) && r < b.h.len && d < b.h.dim ::
              dV[r, d] == old(dV[r, d]) && dK[r, d] == old(dK[r, d])
  {
    hide ValueGrad, KeyGrad;
    forall i: nat, d: nat | i < bM && d < b.h.dim
      ensures dv[i, d] == ValueGrad(b, row + i, d, b.h.len) && dk[i, d] == KeyGrad(b, row + i, d, b.h.len)
    {
      PaddedIsZero(b, row + i, d, n);
    }
    forall i: nat, d: nat | i < bM && d < b.h.dim && row + i < b.h.len {
      dV[row + i, d] := dv[i, d];
    }
    forall i: nat, d: nat | i < bM && d < b.h.dim && row + i < b.h.len {
      dK[row + i, d] := dk[i, d];
    }
    forall r: nat | row <= r < row + bM && r < b.h.len ensures RowDone(b, r, dV, dK) {
      forall d: nat | d < b.h.dim
        ensures dV[r, d] == ValueGrad(b, r, d, b.h.len) && dK[r, d] == KeyGrad(b, r, d, b.h.len)
      {
        assert dV[row + (r - row), d] == dv[r - row, d] && dK[row + (r - row), d] == dk[r - row, d];
      }
    }
  }

  /** One block of the grid: finishes its own rows and leaves the others alone. */
  method BackTile(b: Backward, row: nat, bM: nat, bN: nat, dV: array2<real>, dK: array2<real>)
    returns (events: seq<Add>)
    requires bN > 0 && dV != dK && row < b.h.len
    requires dV.Length0 == dK.Length0 == b.h.len && dV.Length1 == dK.Length1 == b.h.dim
    modifies dV, dK
    ensures forall r: nat | row <= r < row + bM && r < b.h.len :: RowDone(b, r, dV, dK)
    ensures forall r: nat, d: nat | !(row <= r < row + bM) && r < b.h.len && d < b.h.dim ::
              dV[r, d] == old(dV[r, d]) && dK[r, d] == old(dK[r, d])
    ensures Shared(b, row, bM, b.h.len, events)
  {
    hide Summed, Shared, RowDone;
    CeilDivBounds(b.h.len, bN);
    var n := CeilDiv(b.h.len, bN) * bN;
    hide CeilDiv;
    var t;
    t, events := BackBlocks(b, row, bM, bN);
    WriteRows(b, row, n, bM, t.dv, t.dk, dV, dK);
    SharedWithin(b, row, bM, n, events);
  }

  /** Log y holds the additions of the block of keys y. */
  ghost predicate Logged(b: Backward, bM: nat, logs: seq<seq<Add>>) {
    forall y: nat | y < |logs| :: Shared(b, y * bM, bM, b.h.len, logs[y])
  }

  /** The logs of the blocks that have run. */
  ghost predicate LoggedSoFar(b: Backward, bM: nat, order: seq<nat>, logs: seq<seq<Add>>) {
    forall y: nat | y < |logs| && y in order :: Shared(b, y * bM, bM, b.h.len, logs[y])
  }

  lemma SetLog(b: Backward, bM: nat, order: seq<nat>, logs: seq<seq<Add>>, y: nat, events: seq<Add>)
    requires LoggedSoFar(b, bM, order, logs) && y < |logs| && Shared(b, y * bM, bM, b.h.len, events)
    ensures LoggedSoFar(b, bM, order + [y], logs[y := events])
  {
    hide Shared;
    var logs' := logs[y := events];
    forall z: nat | z < |logs'| && z in order + [y] ensures Shared(b, z * bM, bM, b.h.len, logs'[z]) {
      if z != y {
        assert z in order && logs'[z] == logs[z];
      }
    }
  }

  /**
   The grid: one block per tile of keys, in any order. The additions to dQ of block y are kept as
   log y.
   */
  method FlashBackward(b: Backward, bM: nat, bN: nat, order: seq<nat>, dV: array2<real>, dK: array2<real>)
    returns (logs: seq<seq<Add>>)
    requires bM > 0 && bN > 0 && dV != dK
    requires dV.Length0 == dK.Length0 == b.h.len && dV.Length1 == dK.Length1 == b.h.dim
    requires Schedules(order, CeilDiv(b.h.len, bM))
    modifies dV, dK
    ensures forall r: nat | r < b.h.len :: RowDone(b, r, dV, dK)
    ensures |logs| == CeilDiv(b.h.len, bM)
    ensures Logged(b, bM, logs)
  {
    hide Shared, CeilDiv, ValueGrad, KeyGrad, BlockOf;
    var grid := CeilDiv(b.h.len, bM);
    logs := seq(grid, _ => []);
    assert LoggedSoFar(b, bM, [], logs);
    hide LoggedSoFar;
    assert order[..0] == [];
    for x := 0 to |order|
      invariant |logs| == grid && LoggedSoFar(b, bM, order[..x], logs)
      invariant forall r: nat | r < b.h.len && BlockOf(r, bM) in order[..x] :: RowDone(b, r, dV, dK)
    {
      var y := order[x];
      BlockInGrid(y, bM, b.h.len);
      label before:
      var events := BackTile(b, y * bM, bM, bN, dV, dK);
      assert order[..x + 1] == order[..x] + [y];
      forall r: nat | r < b.h.len && BlockOf(r, bM) in order[..x + 1] ensures RowDone(b, r, dV, dK) {
        InBlock(r, bM, y);
        if BlockOf(r, bM) != y {
          assert old@before(RowDone(b, r, dV, dK));
        }
      }
      SetLog(b, bM, order[..x], logs, y, events);
      logs := logs[y := events];
    }
    assert order[..|order|] == order;
    AllLogged(b, bM, order, logs);
    forall r: nat | r < b.h.len ensures RowDone(b, r, dV, dK) {
      InBlock(r, bM, BlockOf(r, bM));
      BlockInGrid(BlockOf(r, bM), bM, b.h.len);
    }
  }

  lemma AllLogged(b: Backward, bM: nat, order: seq<nat>, logs: seq<seq<Add>>)
    requires Covers(order, |logs|) && LoggedSoFar(b, bM, order, logs)
    ensures Logged(b, bM, logs)
  {
    hide Shared;
  }

  lemma SharedWithin(b: Backward, row: nat, bM: nat, n: nat, events: seq<Add>)
    requires Shared(b, row, bM, n, events) && n >= b.h.len
    ensures Shared(b, row, bM, b.h.len, events)
  {
  }
}
