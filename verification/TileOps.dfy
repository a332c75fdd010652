/** The tile operations the kernels are written in: copy with zero fill, matrix product, row sums. */
module TileOps {
  import opened Sums

  /** Element (i, d) of a tensor with len rows, zero past the end. */
  function Load(m: (nat, nat) -> real, len: nat, i: nat, d: nat): real {
    if i < len then m(i, d) else 0.0
  }

  function CeilDiv(a: nat, b: nat): nat
    requires b > 0
  {
    (a + b - 1) / b
  }

  lemma CeilDivBounds(a: nat, b: nat)
    requires b > 0
    ensures a <= CeilDiv(a, b) * b < a + b
    ensures CeilDiv(a, b) * b == a <==> a % b == 0
  {
    var q, r := (a + b - 1) / b, (a + b - 1) % b;
    assert a + b - 1 == b * q + r && 0 <= r < b;
    Commute(q, b);
    if q * b == a {
      ModOfMultiple(q, b);
    }
    if a % b == 0 {
      var p := a / b;
      Commute(p, b);
      Unique(p, q, b, b - 1, r);
    }
  }

  lemma Commute(x: int, y: int)
    ensures x * y == y * x
  {
  }

  lemma ModOfMultiple(q: nat, b: nat)
    requires b > 0
    ensures (q * b) % b == 0
  {
    var p, r := (q * b) / b, (q * b) % b;
    assert q * b == b * p + r;
    Commute(p, b);
    Unique(p, q, b, r, 0);
  }

  /** Quotient and remainder are unique. */
  lemma Unique(p: int, q: int, b: int, r: int, s: int)
    requires 0 <= r < b && 0 <= s < b && p * b + r == q * b + s
    ensures p == q && r == s
  {
    var d := q - p;
    assert d * b == q * b - p * b == r - s;
  }

  lemma Ordered(x: nat, y: nat, b: nat)
    requires x * b < y * b
    ensures x < y
  {
    var d := y - x;
    assert d * b == y * b - x * b;
  }

  lemma NextBlock(k: nat, b: nat)
    ensures 0 <= k * b && (k + 1) * b == k * b + b
  {
  }

  /** The block of size b that x falls in. */
  function BlockOf(x: nat, b: nat): nat
    requires b > 0
  {
    x / b
  }

  lemma InBlock(x: nat, b: nat, y: nat)
    requires b > 0
    ensures y * b <= x < y * b + b <==> BlockOf(x, b) == y
  {
    var q, r := x / b, x % b;
    assert x == b * q + r && 0 <= r < b;
    Commute(q, b);
    if y * b <= x < y * b + b {
      Unique(y, q, b, x - y * b, r);
    }
  }

  /** The grid has a block exactly for every start inside the range. */
  lemma BlockInGrid(y: nat, b: nat, len: nat)
    requires b > 0
    ensures y < CeilDiv(len, b) <==> y * b < len
  {
    CeilDivBounds(len, b);
    GridBounds(y, CeilDiv(len, b), b, len);
  }

  lemma GridBounds(y: nat, grid: nat, b: nat, len: nat)
    requires len <= grid * b < len + b
    ensures y < grid <==> y * b < len
  {
    if y * b < len {
      Ordered(y, grid, b);
    }
    if y < grid {
      var d := grid - y - 1;
      assert grid * b == d * b + y * b + b;
      assert d * b >= 0;
    }
  }

  /** Every block of a grid runs, and only those. */
  ghost predicate Covers(order: seq<nat>, grid: nat) {
    && (forall x | 0 <= x < |order| :: order[x] < grid)
    && (forall y: nat | y < grid :: y in order)
  }

  /** Every block of a grid runs exactly once. */
  ghost predicate Schedules(order: seq<nat>, grid: nat) {
    Covers(order, grid) && forall x, y | 0 <= x < y < |order| :: order[x] != order[y]
  }

  /** Element (i, j) of a tile or of its transpose. */
  function At(a: array2<real>, transposed: bool, i: nat, j: nat): real
    requires if transposed then j < a.Length0 && i < a.Length1 else i < a.Length0 && j < a.Length1
    reads a
  {
    if transposed then a[j, i] else a[i, j]
  }

  ghost predicate Holds(a: array2<real>, transposed: bool, f: (nat, nat) -> real)
    reads a
  {
    if transposed then forall i: nat, j: nat | i < a.Length1 && j < a.Length0 :: a[j, i] == f(i, j)
    else forall i: nat, j: nat | i < a.Length0 && j < a.Length1 :: a[i, j] == f(i, j)
  }

  function Rows(a: array2<real>, transposed: bool): nat {
    if transposed then a.Length1 else a.Length0
  }

  function Cols(a: array2<real>, transposed: bool): nat {
    if transposed then a.Length0 else a.Length1
  }

  /** Rows start.. of a tensor; rows past its end read as zero. */
  method Copy(m: (nat, nat) -> real, len: nat, start: nat, t: array2<real>)
    modifies t
    ensures forall i: nat, j: nat | i < t.Length0 && j < t.Length1 :: t[i, j] == Load(m, len, start + i, j)
  {
    forall i: nat, j: nat | i < t.Length0 && j < t.Length1 {
      t[i, j] := Load(m, len, start + i, j);
    }
  }

  /** Entry (i, j) of the product of two matrices that share a dimension of size n. */
  function Product(n: nat, f: (nat, nat) -> real, g: (nat, nat) -> real, i: nat, j: nat): real {
    Sum(n, (l: nat) => f(i, l) * g(l, j))
  }

  method Dot(a: array2<real>, b: array2<real>, ta: bool, tb: bool, i: nat, j: nat,
             ghost f: (nat, nat) -> real, ghost g: (nat, nat) -> real) returns (s: real)
    requires i < Rows(a, ta) && j < Cols(b, tb) && Cols(a, ta) == Rows(b, tb)
    requires Holds(a, ta, f) && Holds(b, tb, g)
    ensures s == Product(Cols(a, ta), f, g, i, j)
  {
    s := 0.0;
    ghost var term := (l: nat) => f(i, l) * g(l, j);
    for l := 0 to Cols(a, ta)
      invariant s == Sum(l, term)
    {
      s := s + At(a, ta, i, l) * At(b, tb, l, j);
      assert Sum(l + 1, term) == Sum(l, term) + term(l);
    }
  }

  /** Adds the product of a and b, each taken as it is or transposed, to c. */
  method Gemm(a: array2<real>, b: array2<real>, c: array2<real>, ta: bool, tb: bool,
              ghost f: (nat, nat) -> real, ghost g: (nat, nat) -> real)
    requires c != a && c != b
    requires Rows(a, ta) == c.Length0 && Cols(b, tb) == c.Length1 && Cols(a, ta) == Rows(b, tb)
    requires Holds(a, ta, f) && Holds(b, tb, g)
    modifies c
    ensures forall i: nat, j: nat | i < c.Length0 && j < c.Length1 ::
              c[i, j] == old(c[i, j]) + Product(Cols(a, ta), f, g, i, j)
  {
    hide Product;
    for i := 0 to c.Length0
      invariant forall x: nat, y: nat | x < i && y < c.Length1 ::
                  c[x, y] == old(c[x, y]) + Product(Cols(a, ta), f, g, x, y)
      invariant forall x: nat, y: nat | i <= x < c.Length0 && y < c.Length1 :: c[x, y] == old(c[x, y])
    {
      for j := 0 to c.Length1
        invariant forall x: nat, y: nat | x < i && y < c.Length1 ::
                    c[x, y] == old(c[x, y]) + Product(Cols(a, ta), f, g, x, y)
        invariant forall y: nat | y < j :: c[i, y] == old(c[i, y]) + Product(Cols(a, ta), f, g, i, y)
        invariant forall y: nat | j <= y < c.Length1 :: c[i, y] == old(c[i, y])
        invariant forall x: nat, y: nat | i < x < c.Length0 && y < c.Length1 :: c[x, y] == old(c[x, y])
      {
        var s := Dot(a, b, ta, tb, i, j, f, g);
        c[i, j] := c[i, j] + s;
      }
    }
  }

  /** Row sums of a tile. */
  method ReduceSum(t: array2<real>, s: array<real>, ghost f: (nat, nat) -> real)
    requires s.Length == t.Length0 && Holds(t, false, f)
    modifies s
    ensures forall i: nat | i < s.Length :: s[i] == Sum(t.Length1, (j: nat) => f(i, j))
  {
    for i := 0 to s.Length
      invariant forall x: nat | x < i :: s[x] == Sum(t.Length1, (j: nat) => f(x, j))
    {
      ghost var term := (j: nat) => f(i, j);
      var sum := 0.0;
      for j := 0 to t.Length1
        invariant sum == Sum(j, term)
        invariant forall x: nat | x < i :: s[x] == Sum(t.Length1, (j: nat) => f(x, j))
      {
        sum := sum + t[i, j];
        assert Sum(j + 1, term) == Sum(j, term) + term(j);
      }
      s[i] := sum;
    }
  }
}
