/** Row products of output and output gradient, in tiles of 32 by 32, and the layout of dQ. */
module AttentionPreprocess {
  import opened Sums
  import opened TileOps

  const BLK: nat := 32

  /** Element (i, j) of a matrix of len rows and dim columns, zero outside. */
  function Load2(m: (nat, nat) -> real, len: nat, dim: nat, i: nat, j: nat): real {
    if i < len && j < dim then m(i, j) else 0.0
  }

  /** Product of the elements (r, d), zero outside the tensors. */
  function Term(o: (nat, nat) -> real, dO: (nat, nat) -> real, len: nat, dim: nat, r: nat): nat -> real {
    (d: nat) => Load2(o, len, dim, r, d) * Load2(dO, len, dim, r, d)
  }

  /** Column j of every tile of a row. */
  function Column(f: nat -> real, j: nat): nat -> real {
    (k: nat) => f(k * BLK + j)
  }

  /** Adding up the tiles first and the columns then is adding up the row. */
  lemma TilesThenColumns(t: nat, f: nat -> real, columns: nat -> real)
    requires forall j: nat | j < BLK :: columns(j) == Sum(t, Column(f, j))
    ensures Sum(BLK, columns) == Sum(t * BLK, f)
  {
    hide Sum;
    var cell := (k: nat, j: nat) => f(k * BLK + j);
    var rows := (k: nat) => Sum(BLK, Tile(f, BLK, k));
    forall k: nat | k < t ensures rows(k) == Sum(BLK, (j: nat) => cell(k, j)) {
      SumCong(BLK, Tile(f, BLK, k), (j: nat) => cell(k, j));
    }
    forall j: nat | j < BLK ensures columns(j) == Sum(t, (k: nat) => cell(k, j)) {
      SumCong(t, Column(f, j), (k: nat) => cell(k, j));
    }
    SumSwap(t, BLK, cell, rows, columns);
    SumTiles(t, BLK, f, rows);
  }

  lemma RowFromColumns(o: (nat, nat) -> real, dO: (nat, nat) -> real, len: nat, dim: nat, r: nat, columns: nat -> real)
    requires r < len
    requires forall j: nat | j < BLK :: columns(j) == Sum(CeilDiv(dim, BLK), Column(Term(o, dO, len, dim, r), j))
    ensures Sum(BLK, columns) == Sum(dim, (d: nat) => o(r, d) * dO(r, d))
  {
    hide Sum, CeilDiv, Column;
    var f := Term(o, dO, len, dim, r);
    var t := CeilDiv(dim, BLK);
    CeilDivBounds(dim, BLK);
    TilesThenColumns(t, f, columns);
    SumTail(dim, t * BLK, f);
    SumCong(dim, f, (d: nat) => o(r, d) * dO(r, d));
  }

  lemma NextTile(o: (nat, nat) -> real, dO: (nat, nat) -> real, len: nat, dim: nat, r: nat, k: nat, j: nat)
    ensures Sum(k + 1, Column(Term(o, dO, len, dim, r), j)) == Sum(k, Column(Term(o, dO, len, dim, r), j))
      + Load2(o, len, dim, r, k * BLK + j) * Load2(dO, len, dim, r, k * BLK + j)
  {
  }

  /** The products of the first n tiles, column by column. */
  ghost predicate Columns(o: (nat, nat) -> real, dO: (nat, nat) -> real, len: nat, dim: nat,
                          row: nat, n: nat, acc: array2<real>)
    reads acc
  {
    forall i: nat, j: nat | i < acc.Length0 && j < acc.Length1 ::
      acc[i, j] == Sum(n, Column(Term(o, dO, len, dim, row + i), j))
  }

  method AddTile(o: (nat, nat) -> real, dO: (nat, nat) -> real, len: nat, dim: nat, row: nat, k: nat,
                 oTile: array2<real>, dOTile: array2<real>, acc: array2<real>)
    requires acc.Length0 == acc.Length1 == oTile.Length0 == oTile.Length1 == dOTile.Length0 == dOTile.Length1 == BLK
    requires acc !in {oTile, dOTile} && oTile != dOTile
    requires Columns(o, dO, len, dim, row, k, acc)
    modifies oTile, dOTile, acc
    ensures Columns(o, dO, len, dim, row, k + 1, acc)
  {
    hide Sum, Load2, Column, Term;
    forall i: nat, j: nat | i < BLK && j < BLK {
      oTile[i, j] := Load2(o, len, dim, row + i, k * BLK + j);
    }
    forall i: nat, j: nat | i < BLK && j < BLK {
      dOTile[i, j] := Load2(dO, len, dim, row + i, k * BLK + j);
    }
    forall i: nat, j: nat | i < BLK && j < BLK {
      acc[i, j] := acc[i, j] + oTile[i, j] * dOTile[i, j];
    }
    forall i: nat, j: nat | i < BLK && j < BLK
      ensures acc[i, j] == Sum(k + 1, Column(Term(o, dO, len, dim, row + i), j))
    {
      NextTile(o, dO, len, dim, row + i, k, j);
    }
  }

  /** One block of 32 rows. */
  method BlockProducts(o: (nat, nat) -> real, dO: (nat, nat) -> real, len: nat, dim: nat, row: nat, acc: array2<real>)
    requires acc.Length0 == acc.Length1 == BLK
    modifies acc
    ensures Columns(o, dO, len, dim, row, CeilDiv(dim, BLK), acc)
  {
    hide Sum, Column, Term, CeilDiv;
    forall i: nat, j: nat | i < BLK && j < BLK {
      acc[i, j] := 0.0;
    }
    forall i: nat, j: nat | i < BLK && j < BLK
      ensures acc[i, j] == Sum(0, Column(Term(o, dO, len, dim, row + i), j))
    {
      SumZero(0, Column(Term(o, dO, len, dim, row + i), j));
    }
    hide Columns;
    var oTile, dOTile := new real[BLK, BLK], new real[BLK, BLK];
    for k := 0 to CeilDiv(dim, BLK)
      invariant Columns(o, dO, len, dim, row, k, acc)
    {
      AddTile(o, dO, len, dim, row, k, oTile, dOTile, acc);
    }
  }

  /** The product of output and output gradient of row r. */
  function RowProduct(o: (nat, nat) -> real, dO: (nat, nat) -> real, dim: nat, r: nat): real {
    Sum(dim, (d: nat) => o(r, d) * dO(r, d))
  }

  /** One block of the grid: the products of its rows. */
  method PreprocessBlock(o: (nat, nat) -> real, dO: (nat, nat) -> real, len: nat, dim: nat, row: nat, delta: array<real>)
    requires delta.Length == len
    modifies delta
    ensures forall r: nat | r < len ::
              delta[r] == if row <= r < row + BLK then RowProduct(o, dO, dim, r) else old(delta[r])
  {
    hide Sum, CeilDiv;
    var acc, sums := new real[BLK, BLK], new real[BLK];
    BlockProducts(o, dO, len, dim, row, acc);
    ghost var f := (i: nat, j: nat) => Sum(CeilDiv(dim, BLK), Column(Term(o, dO, len, dim, row + i), j));
    ReduceSum(acc, sums, f);
    forall i: nat | i < BLK && row + i < len ensures sums[i] == RowProduct(o, dO, dim, row + i) {
      RowFromColumns(o, dO, len, dim, row + i, (j: nat) => f(i, j));
    }
    hide RowProduct;
    forall i: nat | i < BLK && row + i < len {
      delta[row + i] := sums[i];
    }
    forall r: nat | row <= r < row + BLK && r < len ensures delta[r] == RowProduct(o, dO, dim, r) {
      assert delta[row + (r - row)] == sums[r - row];
    }
  }

  /** The grid, its blocks in any order: every row gets the product of its output and output gradient. */
  method Preprocess(o: (nat, nat) -> real, dO: (nat, nat) -> real, len: nat, dim: nat, order: seq<nat>, delta: array<real>)
    requires delta.Length == len && Covers(order, CeilDiv(len, BLK))
    modifies delta
    ensures forall r: nat | r < len :: delta[r] == RowProduct(o, dO, dim, r)
  {
    hide RowProduct, CeilDiv, BlockOf;
    for x := 0 to |order|
      invariant forall r: nat | r < len && BlockOf(r, BLK) in order[..x] :: delta[r] == RowProduct(o, dO, dim, r)
    {
      PreprocessBlock(o, dO, len, dim, order[x] * BLK, delta);
      assert order[..x + 1] == order[..x] + [order[x]];
      forall r: nat | r < len && BlockOf(r, BLK) in order[..x + 1] ensures delta[r] == RowProduct(o, dO, dim, r) {
        InBlock(r, BLK, order[x]);
      }
    }
    assert order[..|order|] == order;
    forall r: nat | r < len ensures delta[r] == RowProduct(o, dO, dim, r) {
      InBlock(r, BLK, BlockOf(r, BLK));
      BlockInGrid(BlockOf(r, BLK), BLK, len);
    }
  }

  /** Where the layout of dQ puts element (l, d) of a head: fragments of 8 by 8, two by 32. */
  datatype Place = Place(rowBlock: nat, colBlock: nat, parity: nat, lane: nat)

  function DqLayout(l: nat, d: nat): Place {
    Place(l / 8, d / 8, d % 2, 4 * (l % 8) + (d % 8) / 2)
  }

  function DqElement(p: Place): (nat, nat) {
    (8 * p.rowBlock + p.lane / 4, 8 * p.colBlock + 2 * (p.lane % 4) + p.parity)
  }

  predicate InShape(p: Place, len: nat, dim: nat) {
    p.rowBlock < CeilDiv(len, 8) && p.colBlock < CeilDiv(dim, 8) && p.parity < 2 && p.lane < 32
  }

  /** Every place of the shape holds an element. */
  ghost predicate Onto(len: nat, dim: nat) {
    forall p: Place | InShape(p, len, dim) :: DqElement(p).0 < len && DqElement(p).1 < dim
  }

  lemma Lane(r: nat, s: nat)
    requires s < 4
    ensures (4 * r + s) / 4 == r && (4 * r + s) % 4 == s
  {
  }

  lemma Half(q: nat, e: nat)
    ensures 2 * (e / 2) + e % 2 == e && (8 * q + e) % 2 == e % 2
  {
  }

  lemma Eighth(q: nat, e: nat)
    requires e < 8
    ensures (8 * q + e) / 8 == q && (8 * q + e) % 8 == e
  {
  }

  /** No two elements share a place, and every element has one. */
  lemma LayoutInvertible(l: nat, d: nat, len: nat, dim: nat)
    requires l < len && d < dim
    ensures DqElement(DqLayout(l, d)) == (l, d) && InShape(DqLayout(l, d), len, dim)
  {
    Lane(l % 8, (d % 8) / 2);
    Half(d / 8, d % 8);
  }

  /** Every place is the place of its element. */
  lemma PlaceInvertible(p: Place, len: nat, dim: nat)
    requires InShape(p, len, dim)
    ensures DqLayout(DqElement(p).0, DqElement(p).1) == p
  {
    var r, s := p.lane / 4, p.lane % 4;
    var e := 2 * s + p.parity;
    Eighth(p.rowBlock, r);
    Eighth(p.colBlock, e);
    Half(p.colBlock, e);
    assert DqElement(p) == (8 * p.rowBlock + r, 8 * p.colBlock + e);
  }

  /** The layout fills its shape exactly when 8 divides both sides. */
  lemma LayoutOnto(len: nat, dim: nat)
    requires len > 0 && dim > 0
    ensures Onto(len, dim) <==> len % 8 == 0 && dim % 8 == 0
  {
    if len % 8 != 0 {
      var p := Place((len - 1) / 8, 0, 0, 31);
      assert InShape(p, len, dim) && DqElement(p).0 >= len;
    } else if dim % 8 != 0 {
      var p := Place(0, (dim - 1) / 8, 1, 31);
      assert InShape(p, len, dim) && DqElement(p).1 >= dim;
    } else {
      forall p: Place | InShape(p, len, dim) ensures DqElement(p).0 < len && DqElement(p).1 < dim {
        assert p.rowBlock < len / 8 && p.colBlock < dim / 8;
      }
    }
  }

  /** Number of places in the layout's shape. */
  function BoxSize(len: nat, dim: nat): nat {
    CeilDiv(len, 8) * CeilDiv(dim, 8) * (2 * 32)
  }

  /** The shape has as many places as the tensor has elements if and only if 8 divides both sides, and otherwise more. */
  lemma BoxFits(len: nat, dim: nat)
    requires len > 0 && dim > 0
    ensures BoxSize(len, dim) >= len * dim
    ensures BoxSize(len, dim) == len * dim <==> len % 8 == 0 && dim % 8 == 0
  {
    CeilDivBounds(len, 8);
    CeilDivBounds(dim, 8);
    var a, b := CeilDiv(len, 8), CeilDiv(dim, 8);
    hide CeilDiv;
    assert a * b * 64 == (a * 8) * (b * 8);
    LargerProduct(len, dim, a * 8, b * 8);
  }

  lemma LargerProduct(x: nat, y: nat, x': nat, y': nat)
    requires 0 < x <= x' && 0 < y <= y'
    ensures x' * y' >= x * y
    ensures x' * y' == x * y <==> x' == x && y' == y
  {
    var i, j := x' - x, y' - y;
    assert x' * y' == x * y + x * j + i * y + i * j;
    assert x * j >= j && i * y >= i && i * j >= 0;
  }
}
