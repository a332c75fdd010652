/**
 Two-dimensional convolution as a matrix product: output positions are rows, taps are the shared
 dimension, and both are decoded from one flat index inside the tile loops.
 */
module Convolution {
  import opened Sums
  import opened TileOps

  const BLOCK_M: nat := 128
  const BLOCK_N: nat := 128
  const BLOCK_K: nat := 32

  /** Sizes of a convolution: batch, output and input channels, output size, kernel size, padding, stride, dilation. */
  datatype Shape = Shape(
    batch: nat, outC: nat, outH: nat, outW: nat, inC: nat, kW: nat, kH: nat, pad: nat, stride: nat, dilation: nat)

  function InputH(s: Shape): int {
    (s.outH - 1) * s.stride + (s.kH - 1) * s.dilation + 1 - 2 * s.pad
  }

  function InputW(s: Shape): int {
    (s.outW - 1) * s.stride + (s.kW - 1) * s.dilation + 1 - 2 * s.pad
  }

  /** Number of output positions and of taps. */
  function Positions(s: Shape): nat {
    s.batch * s.outH * s.outW
  }

  function Taps(s: Shape): nat {
    s.kH * s.kW * s.inC
  }

  datatype Tensors = Tensors(data: (nat, int, int, nat) -> real, kernel: (nat, nat, nat, nat) -> real)

  /** An input element, zero in the padding. */
  function Padded(s: Shape, t: Tensors, n: nat, y: int, x: int, c: nat): real {
    if y >= 0 && x >= 0 && y < InputH(s) && x < InputW(s) then t.data(n, y, x, c) else 0.0
  }

  /** The product one tap of the kernel contributes. */
  function Tap(s: Shape, t: Tensors, n: nat, h: nat, w: nat, f: nat, kh: nat, kw: nat, c: nat): real {
    Padded(s, t, n, h * s.stride + kh * s.dilation - s.pad, w * s.stride + kw * s.dilation - s.pad, c)
      * t.kernel(kh, kw, c, f)
  }

  function ChannelSum(s: Shape, t: Tensors, n: nat, h: nat, w: nat, f: nat, kh: nat, kw: nat): real {
    Sum(s.inC, (c: nat) => Tap(s, t, n, h, w, f, kh, kw, c))
  }

  function RowSum(s: Shape, t: Tensors, n: nat, h: nat, w: nat, f: nat, kh: nat): real {
    Sum(s.kW, (kw: nat) => ChannelSum(s, t, n, h, w, f, kh, kw))
  }

  /** Direct convolution: output (n, h, w, f) as a sum over kernel rows, columns and channels. */
  function Direct(s: Shape, t: Tensors, n: nat, h: nat, w: nat, f: nat): real {
    Sum(s.kH, (kh: nat) => RowSum(s, t, n, h, w, f, kh))
  }

  /** Entry (m, k) of the unfolded input, as the kernel decodes it. */
  function Unfolded(s: Shape, t: Tensors, m: nat, k: nat): real
    requires s.outH * s.outW > 0 && s.kW * s.inC > 0
  {
    NonZero(s.outH, s.outW);
    NonZero(s.kW, s.inC);
    Padded(s, t, m / (s.outH * s.outW), AccessH(s, m, k), AccessW(s, m, k), k % s.inC)
  }

  /** The input row and column that row m reads for tap k. */
  function AccessH(s: Shape, m: nat, k: nat): int
    requires s.outH * s.outW > 0 && s.kW * s.inC > 0
  {
    NonZero(s.outH, s.outW);
    (m % (s.outH * s.outW)) / s.outW * s.stride + k / (s.kW * s.inC) * s.dilation - s.pad
  }

  function AccessW(s: Shape, m: nat, k: nat): int
    requires s.outH * s.outW > 0 && s.kW * s.inC > 0
  {
    NonZero(s.outH, s.outW);
    NonZero(s.kW, s.inC);
    m % s.outW * s.stride + (k / s.inC) % s.kW * s.dilation - s.pad
  }

  /** The test that guards the read of the input. */
  predicate InBound(s: Shape, m: nat, k: nat)
    requires s.outH * s.outW > 0 && s.kW * s.inC > 0
  {
    var y, x := AccessH(s, m, k), AccessW(s, m, k);
    y >= 0 && x >= 0 && y < InputH(s) && x < InputW(s)
  }

  /** All four indices of the read lie inside the input. */
  predicate ReadsInside(s: Shape, m: nat, k: nat)
    requires s.outH * s.outW > 0 && s.kW * s.inC > 0
  {
    NonZero(s.kW, s.inC);
    && m / (s.outH * s.outW) < s.batch
    && 0 <= AccessH(s, m, k) < InputH(s) && 0 <= AccessW(s, m, k) < InputW(s)
    && k % s.inC < s.inC
  }

  /** Entry (k, f) of the kernel seen as a matrix. */
  function FlatKernel(s: Shape, t: Tensors, k: nat, f: nat): real
    requires s.kW * s.inC > 0
  {
    NonZero(s.kW, s.inC);
    t.kernel(k / (s.kW * s.inC), (k / s.inC) % s.kW, k % s.inC, f)
  }

  lemma NonZero(x: nat, y: nat)
    requires x * y > 0
    ensures x > 0 && y > 0
  {
  }

  /** Row-major index of output position (n, h, w), and of tap (kh, kw, c). */
  function Position(s: Shape, n: nat, h: nat, w: nat): nat {
    (n * s.outH + h) * s.outW + w
  }

  function TapIndex(s: Shape, kh: nat, kw: nat, c: nat): nat {
    (kh * s.kW + kw) * s.inC + c
  }

  /** Decoding a row-major index of three digits, with the middle digit taken either way. */
  lemma Decode(i: nat, j: nat, k: nat, a: nat, b: nat)
    requires j < a && k < b
    ensures a * b > 0
    ensures var x := (i * a + j) * b + k;
            && x / (a * b) == i
            && x % (a * b) == j * b + k
            && x % b == k
            && x / b == i * a + j
            && (x / b) % a == j
            && (x % (a * b)) / b == j
  {
    var x := (i * a + j) * b + k;
    Positive(a, b);
    Digit(j, k, a, b);
    Expanded(i, j, k, a, b);
    Divides(x, a * b, i, j * b + k);
    Divides(x, b, i * a + j, k);
    Divides(i * a + j, a, i, j);
    Divides(j * b + k, b, j, k);
  }

  lemma Positive(a: nat, b: nat)
    requires a > 0 && b > 0
    ensures a * b > 0
  {
  }

  lemma Digit(j: nat, k: nat, a: nat, b: nat)
    requires j < a && k < b
    ensures j * b + k < a * b
  {
    var d := a - 1 - j;
    NotNegative(d, b);
    assert a == d + j + 1;
    assert (d + j + 1) * b == d * b + j * b + b;
  }

  lemma Expanded(i: nat, j: nat, k: nat, a: nat, b: nat)
    ensures (i * a + j) * b + k == i * (a * b) + (j * b + k)
  {
    assert (i * a + j) * b == i * a * b + j * b;
  }

  lemma Divides(x: nat, b: nat, q: nat, r: nat)
    requires r < b && x == q * b + r
    ensures x / b == q && x % b == r
  {
    var p, s := x / b, x % b;
    assert x == b * p + s && 0 <= s < b;
    Commute(p, b);
    Unique(p, q, b, s, r);
  }

  /** The product at flat tap k for output row m and channel f. */
  function FlatTerm(s: Shape, t: Tensors, m: nat, f: nat): nat -> real {
    (k: nat) => if s.outH * s.outW > 0 && s.kW * s.inC > 0 then Unfolded(s, t, m, k) * FlatKernel(s, t, k, f) else 0.0
  }

  /** Every tap is met at exactly one flat index. */
  lemma TermIsTap(s: Shape, t: Tensors, n: nat, h: nat, w: nat, f: nat, kh: nat, kw: nat, c: nat)
    requires h < s.outH && w < s.outW && kw < s.kW && c < s.inC
    ensures FlatTerm(s, t, Position(s, n, h, w), f)(TapIndex(s, kh, kw, c)) == Tap(s, t, n, h, w, f, kh, kw, c)
  {
    hide Padded;
    Decode(n, h, w, s.outH, s.outW);
    Decode(kh, kw, c, s.kW, s.inC);
  }

  lemma ChannelTile(s: Shape, t: Tensors, n: nat, h: nat, w: nat, f: nat, kh: nat, kw: nat)
    requires h < s.outH && w < s.outW && kw < s.kW
    ensures Sum(s.inC, Tile(FlatTerm(s, t, Position(s, n, h, w), f), s.inC, kh * s.kW + kw))
         == ChannelSum(s, t, n, h, w, f, kh, kw)
  {
    hide Sum, Tap, FlatTerm, Position;
    var term := FlatTerm(s, t, Position(s, n, h, w), f);
    var tile := Tile(term, s.inC, kh * s.kW + kw);
    forall c: nat | c < s.inC ensures tile(c) == Tap(s, t, n, h, w, f, kh, kw, c) {
      TermIsTap(s, t, n, h, w, f, kh, kw, c);
    }
    SumCong(s.inC, tile, (c: nat) => Tap(s, t, n, h, w, f, kh, kw, c));
  }

  lemma RowTile(s: Shape, t: Tensors, n: nat, h: nat, w: nat, f: nat, kh: nat, channels: nat -> real)
    requires h < s.outH && w < s.outW
    requires forall q: nat :: channels(q) == Sum(s.inC, Tile(FlatTerm(s, t, Position(s, n, h, w), f), s.inC, q))
    ensures Sum(s.kW, Tile(channels, s.kW, kh)) == RowSum(s, t, n, h, w, f, kh)
  {
    hide Sum, ChannelSum, FlatTerm, Position;
    var tile := Tile(channels, s.kW, kh);
    forall kw: nat | kw < s.kW ensures tile(kw) == ChannelSum(s, t, n, h, w, f, kh, kw) {
      ChannelTile(s, t, n, h, w, f, kh, kw);
    }
    SumCong(s.kW, tile, (kw: nat) => ChannelSum(s, t, n, h, w, f, kh, kw));
  }

  /** The flat sum over taps is the direct convolution. */
  lemma FlatIsDirect(s: Shape, t: Tensors, n: nat, h: nat, w: nat, f: nat)
    requires h < s.outH && w < s.outW
    ensures Sum(Taps(s), FlatTerm(s, t, Position(s, n, h, w), f)) == Direct(s, t, n, h, w, f)
  {
    hide Sum, FlatTerm, Position, RowSum;
    var term := FlatTerm(s, t, Position(s, n, h, w), f);
    var channels := (q: nat) => Sum(s.inC, Tile(term, s.inC, q));
    var rows := (kh: nat) => RowSum(s, t, n, h, w, f, kh);
    forall kh: nat | kh < s.kH ensures rows(kh) == Sum(s.kW, Tile(channels, s.kW, kh)) {
      RowTile(s, t, n, h, w, f, kh, channels);
    }
    SumTiles(s.kH, s.kW, channels, rows);
    SumTiles(s.kH * s.kW, s.inC, term, channels);
  }

  /** Every row of the output matrix is one output position. */
  lemma PositionInRange(s: Shape, n: nat, h: nat, w: nat)
    requires n < s.batch && h < s.outH && w < s.outW
    ensures Position(s, n, h, w) < Positions(s)
  {
    Digit(n, h, s.batch, s.outH);
    Digit(n * s.outH + h, w, s.batch * s.outH, s.outW);
  }

  /** And every row is the position the tile loop decodes it to. */
  lemma RowIsPosition(s: Shape, m: nat)
    requires m < Positions(s)
    ensures s.outH > 0 && s.outW > 0 && s.outH * s.outW > 0
    ensures var n, h, w := m / (s.outH * s.outW), (m % (s.outH * s.outW)) / s.outW, m % s.outW;
            n < s.batch && h < s.outH && w < s.outW && Position(s, n, h, w) == m
  {
    SomeOutput(s, m);
    NonZero(s.outH, s.outW);
    var q, w := QuotientOf(m, s.outW);
    var n, h := QuotientOf(q, s.outH);
    Decode(n, h, w, s.outH, s.outW);
    Ordered(q, s.batch * s.outH, s.outW);
    Ordered(n, s.batch, s.outH);
  }

  lemma QuotientOf(x: nat, b: nat) returns (q: nat, t: nat)
    requires b > 0
    ensures x == q * b + t && t < b
  {
    q, t := x / b, x % b;
    Commute(q, b);
  }

  /** The guard does not look at the batch index: a guarded read is inside exactly if the row is an output position. */
  lemma GuardedReadInside(s: Shape, m: nat, k: nat)
    requires s.outH * s.outW > 0 && s.kW * s.inC > 0 && InBound(s, m, k)
    ensures ReadsInside(s, m, k) <==> m < Positions(s)
  {
    NonZero(s.kW, s.inC);
    QuotientBelow(m, s.outH * s.outW, s.batch);
    assert s.batch * s.outH * s.outW == s.batch * (s.outH * s.outW);
    hide AccessH, AccessW, InputH, InputW;
    assert k % s.inC < s.inC;
  }

  lemma QuotientBelow(m: nat, b: nat, n: nat)
    requires b > 0
    ensures m / b < n <==> m < n * b
  {
    var q, t := m / b, m % b;
    assert m == b * q + t && 0 <= t < b;
    Commute(q, b);
    if q < n {
      Digit(q, t, n, b);
    } else {
      assert (q - n) * b >= 0 && (q - n) * b == q * b - n * b;
    }
  }

  /** Rows and taps that the grid goes over. */
  function GridRows(s: Shape): nat {
    CeilDiv(Positions(s), BLOCK_M) * BLOCK_M
  }

  function GridTaps(s: Shape): nat {
    CeilDiv(Taps(s), BLOCK_K) * BLOCK_K
  }

  ghost predicate AllReadsInside(s: Shape)
    requires s.outH * s.outW > 0 && s.kW * s.inC > 0
  {
    forall m: nat, k: nat | m < GridRows(s) && k < GridTaps(s) && InBound(s, m, k) :: ReadsInside(s, m, k)
  }

  /**
   The grid reads inside the input exactly if no row past the last output position passes the guard.
   That is so when the row block divides the number of positions.
   */
  lemma GridReads(s: Shape)
    requires s.outH * s.outW > 0 && s.kW * s.inC > 0
    ensures AllReadsInside(s) <==>
              forall m: nat, k: nat | Positions(s) <= m < GridRows(s) && k < GridTaps(s) :: !InBound(s, m, k)
    ensures Positions(s) % BLOCK_M == 0 ==> AllReadsInside(s)
  {
    CeilDivBounds(Positions(s), BLOCK_M);
    hide Positions, GridTaps, CeilDiv, InBound, ReadsInside;
    forall m: nat, k: nat | InBound(s, m, k) ensures ReadsInside(s, m, k) <==> m < Positions(s) {
      GuardedReadInside(s, m, k);
    }
  }

  /** The first kernel row, and column, that reaches past the padding of the first position. */
  function FirstTap(s: Shape): nat
    requires s.pad == 0 || s.dilation > 0
  {
    if s.pad == 0 then 0 else CeilDiv(s.pad, s.dilation)
  }

  /** Padding, dilation and kernel size let the first position see the input. */
  predicate CornerReads(s: Shape) {
    && (s.pad == 0 || s.dilation > 0)
    && var c := FirstTap(s);
       && c < s.kH && c < s.kW
       && c * s.dilation - s.pad < InputH(s) && c * s.dilation - s.pad < InputW(s)
  }

  /** A kernel row or column reaches past the padding of the first position exactly from the first such one on. */
  lemma FirstTapIsFirst(s: Shape, k: nat)
    ensures k * s.dilation >= s.pad <==> (s.pad == 0 || s.dilation > 0) && k >= FirstTap(s)
    ensures (s.pad == 0 || s.dilation > 0) && k >= FirstTap(s) ==> k * s.dilation >= FirstTap(s) * s.dilation >= s.pad
  {
    NotNegative(k, s.dilation);
    if s.pad > 0 && s.dilation > 0 {
      var c := CeilDiv(s.pad, s.dilation);
      CeilDivBounds(s.pad, s.dilation);
      GridBounds(k, c, s.dilation, s.pad);
      if k >= c {
        NotNegative(k - c, s.dilation);
        assert k * s.dilation == (k - c) * s.dilation + c * s.dilation;
      }
    }
  }

  /** The condition says exactly that some tap of the first position lies in the input. */
  lemma CornerExactly(s: Shape)
    ensures CornerReads(s) <==>
              exists kh: nat, kw: nat :: kh < s.kH && kw < s.kW && Reaches(s, kh, InputH(s)) && Reaches(s, kw, InputW(s))
  {
    hide InputH, InputW;
    if CornerReads(s) {
      var c := FirstTap(s);
      FirstTapIsFirst(s, c);
      assert Reaches(s, c, InputH(s)) && Reaches(s, c, InputW(s));
    }
    forall kh: nat, kw: nat | kh < s.kH && kw < s.kW && Reaches(s, kh, InputH(s)) && Reaches(s, kw, InputW(s))
      ensures CornerReads(s)
    {
      FirstTapIsFirst(s, kh);
      FirstTapIsFirst(s, kw);
    }
  }

  /** From the first position, kernel row or column k falls inside an input of the given size. */
  predicate Reaches(s: Shape, k: nat, size: int) {
    0 <= k * s.dilation - s.pad < size
  }

  /** The first row past the last position reads what the first position reads, of a batch element too far. */
  lemma TailRowReads(s: Shape)
    requires s.outH * s.outW > 0 && s.kW * s.inC > 0 && CornerReads(s)
    ensures InBound(s, Positions(s), TapIndex(s, FirstTap(s), FirstTap(s), 0))
    ensures TapIndex(s, FirstTap(s), FirstTap(s), 0) < GridTaps(s)
  {
    var c := FirstTap(s);
    NonZero(s.outH, s.outW);
    NonZero(s.kW, s.inC);
    FirstTapIsFirst(s, c);
    Decode(s.batch, 0, 0, s.outH, s.outW);
    Decode(c, c, 0, s.kW, s.inC);
    Digit(c, c, s.kH, s.kW);
    Digit(c * s.kW + c, 0, s.kH * s.kW, s.inC);
    CeilDivBounds(Taps(s), BLOCK_K);
    hide CeilDiv, FirstTap, InputH, InputW;
    var k := TapIndex(s, c, c, 0);
    assert AccessH(s, Positions(s), k) == 0 * s.stride + c * s.dilation - s.pad;
    assert AccessW(s, Positions(s), k) == 0 * s.stride + c * s.dilation - s.pad;
  }

  lemma NotNegative(x: nat, y: nat)
    ensures x * y >= 0
  {
  }

  /** Where the first position sees the input, the grid reads inside it exactly if the row block divides the positions. */
  lemma PaddedReads(s: Shape)
    requires s.outH * s.outW > 0 && s.kW * s.inC > 0 && CornerReads(s)
    ensures AllReadsInside(s) <==> Positions(s) % BLOCK_M == 0
  {
    CeilDivBounds(Positions(s), BLOCK_M);
    TailRowReads(s);
    GridReads(s);
    hide Positions, CeilDiv, InBound, ReadsInside, AllReadsInside, Taps, GridTaps, CornerReads, FirstTap;
  }

  /** It does without padding. */
  lemma UnpaddedCornerReads(s: Shape)
    requires s.outH * s.outW > 0 && s.kW * s.inC > 0 && s.kH > 0 && s.pad == 0
    ensures CornerReads(s)
  {
    NonZero(s.outH, s.outW);
    NonZero(s.kW, s.inC);
    NotNegative(s.outH - 1, s.stride);
    NotNegative(s.outW - 1, s.stride);
    NotNegative(s.kH - 1, s.dilation);
    NotNegative(s.kW - 1, s.dilation);
  }

  /** The unfolded input of a tile. */
  function InputTile(s: Shape, t: Tensors, row: nat, col: nat): (nat, nat) -> real
    requires s.outH * s.outW > 0 && s.kW * s.inC > 0
  {
    (i: nat, j: nat) => Unfolded(s, t, row + i, col + j)
  }

  /** The kernel matrix, zero past its last row or column. */
  function KernelTile(s: Shape, t: Tensors, row: nat, col: nat): (nat, nat) -> real
    requires s.kW * s.inC > 0
  {
    (i: nat, j: nat) => if row + i < Taps(s) && col + j < s.outC then FlatKernel(s, t, row + i, col + j) else 0.0
  }

  /** Products of a row with taps past the last one are zero. */
  function ZeroFilled(s: Shape, t: Tensors, m: nat, f: nat): nat -> real {
    (k: nat) => if k < Taps(s) then FlatTerm(s, t, m, f)(k) else 0.0
  }

  lemma NextTaps(s: Shape, t: Tensors, row: nat, col: nat, k: nat, bK: nat, i: nat, j: nat)
    requires s.outH * s.outW > 0 && s.kW * s.inC > 0 && col + j < s.outC
    ensures Sum(k + bK, ZeroFilled(s, t, row + i, col + j))
         == Sum(k, ZeroFilled(s, t, row + i, col + j))
          + Product(bK, InputTile(s, t, row, k), KernelTile(s, t, k, col), i, j)
  {
    hide Sum, Unfolded, FlatKernel, Taps;
    var f, g := InputTile(s, t, row, k), KernelTile(s, t, k, col);
    var whole, tile := ZeroFilled(s, t, row + i, col + j), (l: nat) => f(i, l) * g(l, j);
    forall l: nat | l < bK ensures tile(l) == whole(k + l) {
      assert f(i, l) == Unfolded(s, t, row + i, k + l);
      if k + l < Taps(s) {
        assert g(l, j) == FlatKernel(s, t, k + l, col + j);
        assert FlatTerm(s, t, row + i, col + j)(k + l)
            == Unfolded(s, t, row + i, k + l) * FlatKernel(s, t, k + l, col + j);
      } else {
        assert g(l, j) == 0.0;
      }
    }
    SumSplit(k, bK, whole, tile);
  }

  lemma AllTaps(s: Shape, t: Tensors, m: nat, f: nat, n: nat)
    requires n >= Taps(s)
    ensures Sum(n, ZeroFilled(s, t, m, f)) == Sum(Taps(s), FlatTerm(s, t, m, f))
  {
    hide Sum, FlatTerm, Taps;
    SumTail(Taps(s), n, ZeroFilled(s, t, m, f));
    SumCong(Taps(s), ZeroFilled(s, t, m, f), FlatTerm(s, t, m, f));
  }

  /** The accumulator of a tile after n taps, for the channels that exist. */
  ghost predicate Summed(s: Shape, t: Tensors, row: nat, col: nat, n: nat, acc: array2<real>)
    reads acc
  {
    forall i: nat, j: nat | i < acc.Length0 && j < acc.Length1 && col + j < s.outC ::
      acc[i, j] == Sum(n, ZeroFilled(s, t, row + i, col + j))
  }

  /** One block of taps. */
  method AddTaps(s: Shape, t: Tensors, row: nat, col: nat, k: nat, bK: nat,
                 dataShared: array2<real>, kernelShared: array2<real>, acc: array2<real>)
    requires s.outH * s.outW > 0 && s.kW * s.inC > 0
    requires dataShared.Length0 == acc.Length0 && kernelShared.Length1 == acc.Length1
    requires dataShared.Length1 == kernelShared.Length0 == bK
    requires acc !in {dataShared, kernelShared} && dataShared != kernelShared
    requires Summed(s, t, row, col, k, acc)
    modifies dataShared, kernelShared, acc
    ensures Summed(s, t, row, col, k + bK, acc)
  {
    hide Sum, Unfolded, FlatKernel, Taps, ZeroFilled, Product;
    forall i: nat, j: nat | i < dataShared.Length0 && j < bK {
      dataShared[i, j] := Unfolded(s, t, row + i, k + j);
    }
    forall i: nat, j: nat | i < bK && j < kernelShared.Length1 {
      kernelShared[i, j] := if k + i < Taps(s) && col + j < s.outC then FlatKernel(s, t, k + i, col + j) else 0.0;
    }
    Gemm(dataShared, kernelShared, acc, false, false, InputTile(s, t, row, k), KernelTile(s, t, k, col));
    forall i: nat, j: nat | i < acc.Length0 && j < acc.Length1 && col + j < s.outC
      ensures acc[i, j] == Sum(k + bK, ZeroFilled(s, t, row + i, col + j))
    {
      NextTaps(s, t, row, col, k, bK, i, j);
    }
  }

  /** The tile of rows row.. and channels col.., all taps added up. */
  method ConvolveTile(s: Shape, t: Tensors, row: nat, col: nat, bM: nat, bN: nat, bK: nat) returns (acc: array2<real>)
    requires bK > 0 && s.outH * s.outW > 0
    ensures fresh(acc) && acc.Length0 == bM && acc.Length1 == bN
    ensures forall i: nat, j: nat | i < bM && j < bN && col + j < s.outC ::
              acc[i, j] == Sum(Taps(s), FlatTerm(s, t, row + i, col + j))
  {
    CeilDivBounds(Taps(s), bK);
    var range := CeilDiv(Taps(s), bK);
    TapsNonZero(s, range, bK);
    hide Taps, CeilDiv, Sum, ZeroFilled, FlatTerm;
    acc := new real[bM, bN];
    var dataShared, kernelShared := new real[bM, bK], new real[bK, bN];
    forall i: nat, j: nat | i < bM && j < bN {
      acc[i, j] := 0.0;
    }
    ClearedIsSummed(s, t, row, col, acc);
    hide Summed;
    for k := 0 to range
      invariant Summed(s, t, row, col, k * bK, acc)
    {
      NextBlock(k, bK);
      AddTaps(s, t, row, col, k * bK, bK, dataShared, kernelShared, acc);
    }
    SummedAll(s, t, row, col, range * bK, acc);
  }

  lemma TapsNonZero(s: Shape, range: nat, bK: nat)
    requires range * bK < Taps(s) + bK
    ensures range > 0 ==> s.kW * s.inC > 0
  {
    if s.kW * s.inC == 0 {
      assert s.kH * s.kW * s.inC == s.kH * (s.kW * s.inC);
      Ordered(range, 1, bK);
    }
  }

  lemma ClearedIsSummed(s: Shape, t: Tensors, row: nat, col: nat, acc: array2<real>)
    requires forall i: nat, j: nat | i < acc.Length0 && j < acc.Length1 :: acc[i, j] == 0.0
    ensures Summed(s, t, row, col, 0, acc)
  {
  }

  lemma SummedAll(s: Shape, t: Tensors, row: nat, col: nat, n: nat, acc: array2<real>)
    requires Summed(s, t, row, col, n, acc) && n >= Taps(s)
    ensures forall i: nat, j: nat | i < acc.Length0 && j < acc.Length1 && col + j < s.outC ::
              acc[i, j] == Sum(Taps(s), FlatTerm(s, t, row + i, col + j))
  {
    hide Sum, FlatTerm, Taps, ZeroFilled;
    forall i: nat, j: nat | i < acc.Length0 && j < acc.Length1 && col + j < s.outC
      ensures acc[i, j] == Sum(Taps(s), FlatTerm(s, t, row + i, col + j))
    {
      AllTaps(s, t, row + i, col + j, n);
    }
  }

  predicate InTile(row: nat, col: nat, bM: nat, bN: nat, m: nat, f: nat) {
    row <= m < row + bM && col <= f < col + bN
  }

  /** One block of the grid: computes a tile and writes the part inside the output. */
  method ConvolveBlock(s: Shape, t: Tensors, row: nat, col: nat, bM: nat, bN: nat, bK: nat, out: array2<real>)
    requires bK > 0 && s.outH * s.outW > 0
    requires out.Length0 == Positions(s) && out.Length1 == s.outC
    modifies out
    ensures forall m: nat, f: nat | m < out.Length0 && f < out.Length1 ::
              out[m, f] == if InTile(row, col, bM, bN, m, f) then Sum(Taps(s), FlatTerm(s, t, m, f)) else old(out[m, f])
  {
    hide Sum, Taps, FlatTerm, Positions;
    var acc := ConvolveTile(s, t, row, col, bM, bN, bK);
    forall i: nat, j: nat | i < bM && j < bN && row + i < out.Length0 && col + j < out.Length1 {
      out[row + i, col + j] := acc[i, j];
    }
    forall m: nat, f: nat | m < out.Length0 && f < out.Length1 && InTile(row, col, bM, bN, m, f)
      ensures out[m, f] == Sum(Taps(s), FlatTerm(s, t, m, f))
    {
      assert out[row + (m - row), col + (f - col)] == acc[m - row, f - col];
    }
  }

  /** The blocks of the grid: tile of channels, then tile of positions. */
  predicate InGrid(s: Shape, block: (nat, nat)) {
    block.0 * BLOCK_N < s.outC && block.1 * BLOCK_M < Positions(s)
  }

  /** Output (n, h, w, f) is the direct convolution. */
  ghost predicate Convolved(s: Shape, t: Tensors, n: nat, h: nat, w: nat, f: nat, out: array2<real>)
    reads out
  {
    && Position(s, n, h, w) < out.Length0 && f < out.Length1
    && out[Position(s, n, h, w), f] == Direct(s, t, n, h, w, f)
  }

  /** The grid, its blocks in any order: every output is the direct convolution. */
  method Convolve(s: Shape, t: Tensors, order: seq<(nat, nat)>, out: array2<real>)
    requires out.Length0 == Positions(s) && out.Length1 == s.outC
    requires forall x | 0 <= x < |order| :: InGrid(s, order[x])
    requires forall block: (nat, nat) | InGrid(s, block) :: block in order
    modifies out
    ensures forall n: nat, h: nat, w: nat, f: nat | n < s.batch && h < s.outH && w < s.outW && f < s.outC ::
              Convolved(s, t, n, h, w, f, out)
  {
    hide Sum, Taps, FlatTerm, Positions, BlockOf, Position, Direct;
    for x := 0 to |order|
      invariant forall m: nat, f: nat | m < out.Length0 && f < out.Length1
                  && (BlockOf(f, BLOCK_N), BlockOf(m, BLOCK_M)) in order[..x] ::
                  out[m, f] == Sum(Taps(s), FlatTerm(s, t, m, f))
    {
      var (tileC, tileM) := order[x];
      SomeOutput(s, tileM * BLOCK_M);
      ConvolveBlock(s, t, tileM * BLOCK_M, tileC * BLOCK_N, BLOCK_M, BLOCK_N, BLOCK_K, out);
      forall m: nat, f: nat | m < out.Length0 && f < out.Length1
                              && (BlockOf(f, BLOCK_N), BlockOf(m, BLOCK_M)) in order[..x + 1]
        ensures out[m, f] == Sum(Taps(s), FlatTerm(s, t, m, f))
      {
        InBlock(f, BLOCK_N, tileC);
        InBlock(m, BLOCK_M, tileM);
        if (BlockOf(f, BLOCK_N), BlockOf(m, BLOCK_M)) != order[x] {
          assert (BlockOf(f, BLOCK_N), BlockOf(m, BLOCK_M)) in order[..x];
        }
      }
    }
    forall n: nat, h: nat, w: nat, f: nat | n < s.batch && h < s.outH && w < s.outW && f < s.outC
      ensures Convolved(s, t, n, h, w, f, out)
    {
      PositionInRange(s, n, h, w);
      var m := Position(s, n, h, w);
      InBlock(f, BLOCK_N, BlockOf(f, BLOCK_N));
      InBlock(m, BLOCK_M, BlockOf(m, BLOCK_M));
      var block := (BlockOf(f, BLOCK_N), BlockOf(m, BLOCK_M));
      assert InGrid(s, block);
      assert order[..|order|] == order;
      FlatIsDirect(s, t, n, h, w, f);
    }
  }

  lemma SomeOutput(s: Shape, m: nat)
    requires m < Positions(s)
    ensures s.outH * s.outW > 0
  {
    assert s.batch * s.outH * s.outW == s.batch * (s.outH * s.outW);
  }
}
