/**
 The forward flash-attention kernel: one pass over blocks of keys that keeps, for every query row
 of its tile, a running maximum, a running sum of weights and a running weighted sum of values.
 */
module AttentionForward {
  import opened Sums
  import opened TileOps
  import opened AttentionSpec

  /** The running maximum as a number; zero while no key has been seen. */
  function MaxValue(h: Head, r: nat, n: nat): real {
    match PrefixMax(h, r, n)
    case NegInf => 0.0
    case Fin(x) => x
  }

  /** Once a key has been seen the maximum is finite, so no infinity is ever subtracted from another. */
  lemma MaxIsValue(h: Head, r: nat, n: nat)
    requires n > 0
    ensures PrefixMax(h, r, n) == Fin(MaxValue(h, r, n))
  {
    MaxIsFinite(h, r, n);
  }

  function RunningSum(h: Head, r: nat, n: nat): real {
    WeightSum(h, r, n, MaxValue(h, r, n))
  }

  function RunningV(h: Head, r: nat, n: nat, d: nat): real {
    WeightedV(h, r, n, MaxValue(h, r, n), d)
  }

  /** Factor that moves the running sums of n keys to the maximum over n + b keys. */
  function Correction(h: Head, r: nat, n: nat, b: nat): real {
    Exp2(h.e, PrefixMax(h, r, n), MaxValue(h, r, n + b))
  }

  lemma Corrected(h: Head, r: nat, n: nat, b: nat, d: nat)
    requires Laws(h.e)
    ensures WeightSum(h, r, n, MaxValue(h, r, n + b)) == RunningSum(h, r, n) * Correction(h, r, n, b)
    ensures WeightedV(h, r, n, MaxValue(h, r, n + b), d) == RunningV(h, r, n, d) * Correction(h, r, n, b)
  {
    if n == 0 {
      hide Laws, Weight, Load, PrefixMax, MaxValue, Exp2;
    } else {
      MaxIsFinite(h, r, n);
      hide Laws, Sum, Weight, WeightSum, WeightedV, PrefixMax;
      RescaleSum(h, r, n, MaxValue(h, r, n), MaxValue(h, r, n + b));
      RescaleV(h, r, n, MaxValue(h, r, n), MaxValue(h, r, n + b), d);
    }
  }

  lemma NextSum(h: Head, r: nat, n: nat, b: nat, tile: nat -> real)
    requires Laws(h.e)
    requires forall j: nat | j < b :: tile(j) == Weight(h, r, n + j, MaxValue(h, r, n + b))
    ensures RunningSum(h, r, n + b) == RunningSum(h, r, n) * Correction(h, r, n, b) + Sum(b, tile)
  {
    hide Laws, Sum, Weight, MaxValue, Correction;
    var m' := MaxValue(h, r, n + b);
    SumSplit(n, b, (j: nat) => Weight(h, r, j, m'), tile);
    Corrected(h, r, n, b, 0);
  }

  lemma NextV(h: Head, r: nat, n: nat, b: nat, d: nat, tile: nat -> real)
    requires Laws(h.e)
    requires forall j: nat | j < b ::
               tile(j) == Weight(h, r, n + j, MaxValue(h, r, n + b)) * Load(h.v, h.len, n + j, d)
    ensures RunningV(h, r, n + b, d) == RunningV(h, r, n, d) * Correction(h, r, n, b) + Sum(b, tile)
  {
    hide Laws, Sum, Weight, MaxValue, Correction, Load;
    var m' := MaxValue(h, r, n + b);
    SumSplit(n, b, (j: nat) => Weight(h, r, j, m') * Load(h.v, h.len, j, d), tile);
    Corrected(h, r, n, b, d);
  }

  function Plus(s: Score, x: real): Score {
    match s
    case NegInf => NegInf
    case Fin(y) => Fin(y + x)
  }

  /** Adds a times the transpose of b to a tile of scores; minus infinity absorbs. */
  method GemmScores(a: array2<real>, b: array2<real>, c: array2<Score>,
                    ghost f: (nat, nat) -> real, ghost g: (nat, nat) -> real)
    requires a.Length0 == c.Length0 && b.Length0 == c.Length1 && a.Length1 == b.Length1
    requires Holds(a, false, f) && Holds(b, true, g)
    modifies c
    ensures forall i: nat, j: nat | i < c.Length0 && j < c.Length1 ::
              c[i, j] == Plus(old(c[i, j]), Product(a.Length1, f, g, i, j))
  {
    hide Product;
    for i := 0 to c.Length0
      invariant forall x: nat, y: nat | x < i && y < c.Length1 ::
                  c[x, y] == Plus(old(c[x, y]), Product(a.Length1, f, g, x, y))
      invariant forall x: nat, y: nat | i <= x < c.Length0 && y < c.Length1 :: c[x, y] == old(c[x, y])
    {
      for j := 0 to c.Length1
        invariant forall x: nat, y: nat | x < i && y < c.Length1 ::
                    c[x, y] == Plus(old(c[x, y]), Product(a.Length1, f, g, x, y))
        invariant forall y: nat | y < j :: c[i, y] == Plus(old(c[i, y]), Product(a.Length1, f, g, i, y))
        invariant forall y: nat | j <= y < c.Length1 :: c[i, y] == old(c[i, y])
        invariant forall x: nat, y: nat | i < x < c.Length0 && y < c.Length1 :: c[x, y] == old(c[x, y])
      {
        var s := Dot(a, b, false, true, i, j, f, g);
        c[i, j] := Plus(c[i, j], s);
      }
    }
  }

  /** The query tile, scaled: what Q_local holds. */
  function ScaledQuery(h: Head, row: nat): (nat, nat) -> real {
    (i: nat, d: nat) => Load(h.q, h.len, row + i, d) * h.scale
  }

  /** The key tile, transposed. */
  function KeyTile(h: Head, col: nat): (nat, nat) -> real {
    (d: nat, j: nat) => Load(h.k, h.len, col + j, d)
  }

  lemma RawIsProduct(h: Head, row: nat, col: nat, i: nat, j: nat)
    ensures Product(h.dim, ScaledQuery(h, row), KeyTile(h, col), i, j) == Raw(h, row + i, col + j)
  {
    var f, g := ScaledQuery(h, row), KeyTile(h, col);
    SumCong(h.dim, (l: nat) => f(i, l) * g(l, j),
            (d: nat) => Load(h.q, h.len, row + i, d) * h.scale * Load(h.k, h.len, col + j, d));
  }

  /** Scores of a tile: mask first, then add the product. */
  method TileScores(h: Head, row: nat, col: nat, qLocal: array2<real>, kShared: array2<real>, accS: array2<Score>)
    requires qLocal != kShared
    requires qLocal.Length0 == accS.Length0 && kShared.Length0 == accS.Length1
    requires qLocal.Length1 == kShared.Length1 == h.dim
    requires Holds(qLocal, false, ScaledQuery(h, row))
    modifies kShared, accS
    ensures forall i: nat, j: nat | i < accS.Length0 && j < accS.Length1 ::
              accS[i, j] == ScoreOf(h, row + i, col + j)
  {
    hide Product, Raw;
    Copy(h.k, h.len, col, kShared);
    if h.causal {
      forall i: nat, j: nat | i < accS.Length0 && j < accS.Length1 {
        accS[i, j] := if row + i >= col + j then Fin(0.0) else NegInf;
      }
    } else {
      forall i: nat, j: nat | i < accS.Length0 && j < accS.Length1 {
        accS[i, j] := Fin(0.0);
      }
    }
    GemmScores(qLocal, kShared, accS, ScaledQuery(h, row), KeyTile(h, col));
    forall i: nat, j: nat | i < accS.Length0 && j < accS.Length1
      ensures accS[i, j] == ScoreOf(h, row + i, col + j)
    {
      RawIsProduct(h, row, col, i, j);
    }
  }

  /** Row maxima, starting from the maxima so far. */
  method ReduceMax(h: Head, row: nat, col: nat, s: array2<Score>, m: array<Score>)
    requires m.Length == s.Length0
    requires forall i: nat, j: nat | i < s.Length0 && j < s.Length1 :: s[i, j] == ScoreOf(h, row + i, col + j)
    requires forall i: nat | i < m.Length :: m[i] == PrefixMax(h, row + i, col)
    modifies m
    ensures forall i: nat | i < m.Length :: m[i] == PrefixMax(h, row + i, col + s.Length1)
  {
    hide ScoreOf;
    for i := 0 to m.Length
      invariant forall x: nat | x < i :: m[x] == PrefixMax(h, row + x, col + s.Length1)
      invariant forall x: nat | i <= x < m.Length :: m[x] == PrefixMax(h, row + x, col)
    {
      for j := 0 to s.Length1
        invariant m[i] == PrefixMax(h, row + i, col + j)
        invariant forall x: nat | x < i :: m[x] == PrefixMax(h, row + x, col + s.Length1)
        invariant forall x: nat | i < x < m.Length :: m[x] == PrefixMax(h, row + x, col)
      {
        m[i] := MaxScore(m[i], s[i, j]);
      }
    }
  }

  /** The fragments a block of the grid works on. */
  datatype Fragments = Fragments(
    qLocal: array2<real>, kShared: array2<real>, vShared: array2<real>,
    accS: array2<Score>, accP: array2<real>, accO: array2<real>,
    scoresMax: array<Score>, scoresMaxPrev: array<Score>,
    scoresScale: array<real>, scoresSum: array<real>, logsum: array<real>)

  ghost predicate Shaped(t: Fragments, bM: nat, bN: nat, dim: nat) {
    && t.qLocal.Length0 == t.accS.Length0 == t.accP.Length0 == t.accO.Length0 == bM
    && t.kShared.Length0 == t.vShared.Length0 == t.accS.Length1 == t.accP.Length1 == bN
    && t.qLocal.Length1 == t.kShared.Length1 == t.vShared.Length1 == t.accO.Length1 == dim
    && t.scoresMax.Length == t.scoresMaxPrev.Length == bM
    && t.scoresScale.Length == t.scoresSum.Length == t.logsum.Length == bM
    && t.qLocal !in {t.kShared, t.vShared, t.accP, t.accO}
    && t.kShared !in {t.vShared, t.accP, t.accO} && t.vShared !in {t.accP, t.accO} && t.accP != t.accO
    && t.scoresMax != t.scoresMaxPrev
    && t.scoresScale !in {t.scoresSum, t.logsum} && t.scoresSum != t.logsum
  }

  /** After n keys every row holds its running maximum, sum and weighted sum. */
  ghost predicate Running(h: Head, row: nat, n: nat, scoresMax: array<Score>, logsum: array<real>, accO: array2<real>)
    requires scoresMax.Length == logsum.Length == accO.Length0
    reads scoresMax, logsum, accO
  {
    && (forall i: nat | i < scoresMax.Length :: scoresMax[i] == PrefixMax(h, row + i, n))
    && (forall i: nat | i < logsum.Length :: logsum[i] == RunningSum(h, row + i, n))
    && (forall i: nat, d: nat | i < accO.Length0 && d < accO.Length1 :: accO[i, d] == RunningV(h, row + i, n, d))
  }

  /** Weights of a tile of keys relative to the maximum after that tile. */
  function WeightTile(h: Head, row: nat, col: nat, b: nat): (nat, nat) -> real {
    (i: nat, j: nat) => Weight(h, row + i, col + j, MaxValue(h, row + i, col + b))
  }

  function ValueTile(h: Head, col: nat): (nat, nat) -> real {
    (j: nat, d: nat) => Load(h.v, h.len, col + j, d)
  }

  /** Turns scores into weights relative to the new maximum and corrects the old output. */
  method Reweigh(h: Head, row: nat, col: nat, t: Fragments, bM: nat, bN: nat)
    requires Shaped(t, bM, bN, h.dim) && bN > 0
    requires forall i: nat, j: nat | i < bM && j < bN :: t.accS[i, j] == ScoreOf(h, row + i, col + j)
    requires forall i: nat | i < bM :: t.scoresMaxPrev[i] == PrefixMax(h, row + i, col)
    requires forall i: nat | i < bM :: t.scoresMax[i] == PrefixMax(h, row + i, col + bN)
    requires forall i: nat, d: nat | i < bM && d < h.dim :: t.accO[i, d] == RunningV(h, row + i, col, d)
    modifies t.scoresScale, t.accO, t.accP
    ensures forall i: nat | i < bM :: t.scoresScale[i] == Correction(h, row + i, col, bN)
    ensures forall i: nat, d: nat | i < bM && d < h.dim ::
              t.accO[i, d] == RunningV(h, row + i, col, d) * Correction(h, row + i, col, bN)
    ensures Holds(t.accP, false, WeightTile(h, row, col, bN))
  {
    hide PrefixMax, RunningV, MaxValue, ScoreOf, Exp2;
    forall i: nat | i < bM ensures t.scoresMax[i] == Fin(MaxValue(h, row + i, col + bN)) {
      MaxIsValue(h, row + i, col + bN);
    }
    forall i: nat | i < bM {
      t.scoresScale[i] := Exp2(h.e, t.scoresMaxPrev[i], t.scoresMax[i].x);
    }
    forall i: nat, d: nat | i < bM && d < h.dim {
      t.accO[i, d] := t.accO[i, d] * t.scoresScale[i];
    }
    forall i: nat, j: nat | i < bM && j < bN {
      t.accP[i, j] := Exp2(h.e, t.accS[i, j], t.scoresMax[i].x);
    }
    forall i: nat, j: nat | i < bM && j < bN ensures t.accP[i, j] == WeightTile(h, row, col, bN)(i, j) {
      var m := MaxValue(h, row + i, col + bN);
      assert t.accP[i, j] == Exp2(h.e, ScoreOf(h, row + i, col + j), m);
      assert t.accP[i, j] == Weight(h, row + i, col + j, m);
    }
  }

  /** One block of keys. */
  method AttendBlock(h: Head, row: nat, col: nat, t: Fragments, bM: nat, bN: nat)
    requires Laws(h.e) && Shaped(t, bM, bN, h.dim) && bN > 0
    requires Holds(t.qLocal, false, ScaledQuery(h, row))
    requires Running(h, row, col, t.scoresMax, t.logsum, t.accO)
    modifies t.kShared, t.vShared, t.accS, t.accP, t.accO
    modifies t.scoresMax, t.scoresMaxPrev, t.scoresScale, t.scoresSum, t.logsum
    ensures Running(h, row, col + bN, t.scoresMax, t.logsum, t.accO)
  {
    hide Laws, PrefixMax, RunningV, RunningSum, MaxValue, ScoreOf, Correction, Load, Sum, Product;
    TileScores(h, row, col, t.qLocal, t.kShared, t.accS);
    Copy(h.v, h.len, col, t.vShared);
    forall i: nat | i < bM {
      t.scoresMaxPrev[i] := t.scoresMax[i];
    }
    ReduceMax(h, row, col, t.accS, t.scoresMax);
    Reweigh(h, row, col, t, bM, bN);
    Accumulate(h, row, col, t, bM, bN);
  }

  method Accumulate(h: Head, row: nat, col: nat, t: Fragments, bM: nat, bN: nat)
    requires Laws(h.e) && Shaped(t, bM, bN, h.dim)
    requires forall i: nat | i < bM :: t.scoresScale[i] == Correction(h, row + i, col, bN)
    requires forall i: nat, d: nat | i < bM && d < h.dim ::
               t.accO[i, d] == RunningV(h, row + i, col, d) * Correction(h, row + i, col, bN)
    requires forall i: nat | i < bM :: t.logsum[i] == RunningSum(h, row + i, col)
    requires Holds(t.accP, false, WeightTile(h, row, col, bN)) && Holds(t.vShared, false, ValueTile(h, col))
    modifies t.accO, t.scoresSum, t.logsum
    ensures forall i: nat | i < bM :: t.logsum[i] == RunningSum(h, row + i, col + bN)
    ensures forall i: nat, d: nat | i < bM && d < h.dim :: t.accO[i, d] == RunningV(h, row + i, col + bN, d)
  {
    hide Laws, RunningV, RunningSum, MaxValue, Correction, Load, Sum, Weight;
    ghost var f, g := WeightTile(h, row, col, bN), ValueTile(h, col);
    Gemm(t.accP, t.vShared, t.accO, false, false, f, g);
    ReduceSum(t.accP, t.scoresSum, f);
    forall i: nat | i < bM {
      t.logsum[i] := t.logsum[i] * t.scoresScale[i] + t.scoresSum[i];
    }
    forall i: nat | i < bM ensures t.logsum[i] == RunningSum(h, row + i, col + bN) {
      NextSum(h, row + i, col, bN, (j: nat) => f(i, j));
    }
    forall i: nat, d: nat | i < bM && d < h.dim ensures t.accO[i, d] == RunningV(h, row + i, col + bN, d) {
      NextV(h, row + i, col, bN, d, (j: nat) => f(i, j) * g(j, d));
    }
  }

  /** Rows row.. of a tile of bM rows. */
  predicate InTile(row: nat, bM: nat, r: nat) {
    row <= r < row + bM
  }

  lemma LogSumExp(h: Head, r: nat, n: nat)
    requires Laws(h.e) && n > 0
    ensures RunningSum(h, r, n) > 0.0
    ensures h.e.exp2(h.e.log2(RunningSum(h, r, n)) + MaxValue(h, r, n)) == WeightSum(h, r, n, 0.0)
  {
    var s, m := RunningSum(h, r, n), MaxValue(h, r, n);
    WeightSumPositive(h, r, n, m);
    assert Multiplies(h.e, h.e.log2(s), m);
    assert h.e.exp2(h.e.log2(s)) == s;
    RescaleSum(h, r, n, m, 0.0);
    assert m - 0.0 == m;
  }

  /** Normalises the rows of a tile and writes those inside the sequence. */
  method WriteOutput(h: Head, row: nat, n: nat, bM: nat, logsum: array<real>, accO: array2<real>, output: array2<real>)
    requires Laws(h.e) && n > 0 && accO != output
    requires logsum.Length == accO.Length0 == bM && accO.Length1 == output.Length1 == h.dim && output.Length0 == h.len
    requires forall i: nat | i < bM :: logsum[i] == RunningSum(h, row + i, n)
    requires forall i: nat, d: nat | i < bM && d < h.dim :: accO[i, d] == RunningV(h, row + i, n, d)
    modifies accO, output
    ensures forall r: nat, d: nat | r < h.len && d < h.dim ::
              output[r, d] == if InTile(row, bM, r) then Mean(h, r, n, d) else old(output[r, d])
  {
    hide Laws, Mean, RunningSum, RunningV;
    forall i: nat, d: nat | i < bM && d < h.dim
      ensures logsum[i] > 0.0 && accO[i, d] / logsum[i] == Mean(h, row + i, n, d)
    {
      MeanOfRunning(h, row + i, n, d);
    }
    forall i: nat, d: nat | i < bM && d < h.dim {
      accO[i, d] := accO[i, d] / logsum[i];
    }
    forall i: nat, d: nat | i < bM && d < h.dim && row + i < h.len {
      output[row + i, d] := accO[i, d];
    }
    forall r: nat, d: nat | r < h.len && d < h.dim && InTile(row, bM, r) ensures output[r, d] == Mean(h, r, n, d) {
      assert output[row + (r - row), d] == accO[r - row, d];
    }
  }

  lemma MeanOfRunning(h: Head, r: nat, n: nat, d: nat)
    requires Laws(h.e) && n > 0
    ensures RunningSum(h, r, n) > 0.0
    ensures RunningV(h, r, n, d) / RunningSum(h, r, n) == Mean(h, r, n, d)
  {
    RatioInvariant(h, r, n, MaxValue(h, r, n), d);
  }

  /** Turns the sums into base-two log-sum-exps and writes those inside the sequence. */
  method WriteLse(h: Head, row: nat, n: nat, bM: nat, scoresMax: array<Score>, logsum: array<real>, lse: array<real>)
    requires Laws(h.e) && n > 0 && logsum != lse
    requires scoresMax.Length == logsum.Length == bM && lse.Length == h.len
    requires forall i: nat | i < bM :: logsum[i] == RunningSum(h, row + i, n)
    requires forall i: nat | i < bM :: scoresMax[i] == PrefixMax(h, row + i, n)
    modifies logsum, lse
    ensures forall r: nat | r < h.len && InTile(row, bM, r) :: h.e.exp2(lse[r]) == WeightSum(h, r, n, 0.0)
    ensures forall r: nat | r < h.len && !InTile(row, bM, r) :: lse[r] == old(lse[r])
  {
    hide Laws, RunningSum, PrefixMax, MaxValue, WeightSum;
    forall i: nat | i < bM
      ensures scoresMax[i].Fin?
      ensures h.e.exp2(h.e.log2(logsum[i]) + scoresMax[i].x) == WeightSum(h, row + i, n, 0.0)
    {
      LogSumExp(h, row + i, n);
      MaxIsValue(h, row + i, n);
    }
    forall i: nat | i < bM {
      logsum[i] := h.e.log2(logsum[i]) + scoresMax[i].x;
    }
    forall i: nat | i < bM && row + i < h.len {
      lse[row + i] := logsum[i];
    }
    forall r: nat | r < h.len && InTile(row, bM, r) ensures h.e.exp2(lse[r]) == WeightSum(h, r, n, 0.0) {
      assert lse[row + (r - row)] == logsum[r - row];
    }
  }

  /** Number of keys the tile of rows bx * bM.. visits. */
  function Visited(h: Head, bx: nat, bM: nat, bN: nat): nat
    requires bN > 0
  {
    (if h.causal then CeilDiv((bx + 1) * bM, bN) else CeilDiv(h.len, bN)) * bN
  }

  /** The running fragments at the start: no key seen. */
  method Clear(h: Head, row: nat, scoresMax: array<Score>, logsum: array<real>, accO: array2<real>)
    requires scoresMax.Length == logsum.Length == accO.Length0
    modifies scoresMax, logsum, accO
    ensures Running(h, row, 0, scoresMax, logsum, accO)
  {
    forall i: nat, d: nat | i < accO.Length0 && d < accO.Length1 {
      accO[i, d] := 0.0;
    }
    forall i: nat | i < logsum.Length {
      logsum[i] := 0.0;
    }
    forall i: nat | i < scoresMax.Length {
      scoresMax[i] := NegInf;
    }
  }

  method Allocate(bM: nat, bN: nat, dim: nat) returns (t: Fragments)
    ensures Shaped(t, bM, bN, dim)
    ensures fresh({t.qLocal, t.kShared, t.vShared, t.accP, t.accO}) && fresh(t.accS)
    ensures fresh({t.scoresMax, t.scoresMaxPrev}) && fresh({t.scoresScale, t.scoresSum, t.logsum})
  {
    var qLocal, kShared, vShared := new real[bM, dim], new real[bN, dim], new real[bN, dim];
    var accS, accP, accO := new Score[bM, bN], new real[bM, bN], new real[bM, dim];
    var scoresMax, scoresMaxPrev := new Score[bM], new Score[bM];
    var scoresScale, scoresSum, logsum := new real[bM], new real[bM], new real[bM];
    t := Fragments(qLocal, kShared, vShared, accS, accP, accO,
                   scoresMax, scoresMaxPrev, scoresScale, scoresSum, logsum);
  }

  method LoadQuery(h: Head, row: nat, qLocal: array2<real>)
    modifies qLocal
    ensures Holds(qLocal, false, ScaledQuery(h, row))
  {
    Copy(h.q, h.len, row, qLocal);
    forall i: nat, d: nat | i < qLocal.Length0 && d < qLocal.Length1 {
      qLocal[i, d] := qLocal[i, d] * h.scale;
    }
  }

  /** The loop over blocks of keys. */
  method AttendLoop(h: Head, row: nat, t: Fragments, range: nat, bM: nat, bN: nat)
    requires Laws(h.e) && Shaped(t, bM, bN, h.dim) && bN > 0
    requires Holds(t.qLocal, false, ScaledQuery(h, row))
    requires Running(h, row, 0, t.scoresMax, t.logsum, t.accO)
    modifies t.kShared, t.vShared, t.accS, t.accP, t.accO
    modifies t.scoresMax, t.scoresMaxPrev, t.scoresScale, t.scoresSum, t.logsum
    ensures Running(h, row, range * bN, t.scoresMax, t.logsum, t.accO)
  {
    hide Laws, Running, Holds;
    for k := 0 to range
      invariant Holds(t.qLocal, false, ScaledQuery(h, row))
      invariant Running(h, row, k * bN, t.scoresMax, t.logsum, t.accO)
    {
      NextBlock(k, bN);
      AttendBlock(h, row, k * bN, t, bM, bN);
    }
  }

  /** One block of the grid, up to the final division. */
  method AttendBlocks(h: Head, row: nat, range: nat, bM: nat, bN: nat) returns (t: Fragments)
    requires Laws(h.e) && bN > 0
    ensures Shaped(t, bM, bN, h.dim) && fresh(t.accO) && fresh(t.logsum)
    ensures Running(h, row, range * bN, t.scoresMax, t.logsum, t.accO)
  {
    hide Laws, Running, Holds;
    t := Allocate(bM, bN, h.dim);
    LoadQuery(h, row, t.qLocal);
    Clear(h, row, t.scoresMax, t.logsum, t.accO);
    AttendLoop(h, row, t, range, bM, bN);
  }

  /** One block of the grid: the rows of tile bx. */
  method AttendTile(h: Head, bx: nat, bM: nat, bN: nat, output: array2<real>, lse: array<real>)
    requires Laws(h.e) && bM > 0 && bN > 0 && bx * bM < h.len
    requires output.Length0 == lse.Length == h.len && output.Length1 == h.dim
    modifies output, lse
    ensures forall r: nat, d: nat | r < h.len && d < h.dim ::
              output[r, d] == if InTile(bx * bM, bM, r) then Mean(h, r, Visited(h, bx, bM, bN), d) else old(output[r, d])
    ensures forall r: nat | r < h.len && InTile(bx * bM, bM, r) ::
              h.e.exp2(lse[r]) == WeightSum(h, r, Visited(h, bx, bM, bN), 0.0)
    ensures forall r: nat | r < h.len && !InTile(bx * bM, bM, r) :: lse[r] == old(lse[r])
  {
    hide Laws, Mean, WeightSum, CeilDiv, RunningSum, RunningV, PrefixMax, InTile;
    VisitsKeys(h, bx, bM, bN);
    var row := bx * bM;
    var range := if h.causal then CeilDiv((bx + 1) * bM, bN) else CeilDiv(h.len, bN);
    var t := AttendBlocks(h, row, range, bM, bN);
    WriteOutput(h, row, range * bN, bM, t.logsum, t.accO, output);
    WriteLse(h, row, range * bN, bM, t.scoresMax, t.logsum, lse);
  }

  lemma VisitsKeys(h: Head, bx: nat, bM: nat, bN: nat)
    requires bM > 0 && bN > 0 && bx * bM < h.len
    ensures Visited(h, bx, bM, bN) > 0
    ensures h.causal ==> Visited(h, bx, bM, bN) >= bx * bM + bM
    ensures !h.causal ==> Visited(h, bx, bM, bN) >= h.len
    ensures !h.causal ==> (Visited(h, bx, bM, bN) == h.len <==> h.len % bN == 0)
  {
    assert (bx + 1) * bM == bx * bM + bM;
    CeilDivBounds((bx + 1) * bM, bN);
    CeilDivBounds(h.len, bN);
  }
}
