/** Finite sums of reals, and of tiles of a longer range. */
module Sums {

  function Sum(n: nat, f: nat -> real): real {
    if n == 0 then 0.0 else Sum(n - 1, f) + f(n - 1)
  }

  lemma {:induction false} SumCong(n: nat, f: nat -> real, g: nat -> real)
    requires forall i: nat | i < n :: f(i) == g(i)
    ensures Sum(n, f) == Sum(n, g)
  {
    if n > 0 {
      SumCong(n - 1, f, g);
    }
  }

  lemma {:induction false} SumZero(n: nat, f: nat -> real)
    requires forall i: nat | i < n :: f(i) == 0.0
    ensures Sum(n, f) == 0.0
  {
    if n > 0 {
      SumZero(n - 1, f);
    }
  }

  lemma {:induction false} SumScale(n: nat, c: real, f: nat -> real, g: nat -> real)
    requires forall i: nat | i < n :: g(i) == c * f(i)
    ensures Sum(n, g) == c * Sum(n, f)
  {
    if n > 0 {
      SumScale(n - 1, c, f, g);
      Distribute(c, Sum(n - 1, f), f(n - 1));
    }
  }

  lemma Distribute(c: real, x: real, y: real)
    ensures c * (x + y) == c * x + c * y
  {
  }

  lemma {:induction false} SumAdd(n: nat, f: nat -> real, g: nat -> real, h: nat -> real)
    requires forall i: nat | i < n :: h(i) == f(i) + g(i)
    ensures Sum(n, h) == Sum(n, f) + Sum(n, g)
  {
    if n > 0 {
      SumAdd(n - 1, f, g, h);
    }
  }

  /** A range is a prefix and a tail. */
  lemma {:induction false} SumSplit(n: nat, m: nat, f: nat -> real, g: nat -> real)
    requires forall i: nat | i < m :: g(i) == f(n + i)
    ensures Sum(n + m, f) == Sum(n, f) + Sum(m, g)
  {
    if m > 0 {
      SumSplit(n, m - 1, f, g);
    }
  }

  /** A tail of zeros adds nothing. */
  lemma SumTail(n: nat, m: nat, f: nat -> real)
    requires n <= m && forall i: nat | n <= i < m :: f(i) == 0.0
    ensures Sum(m, f) == Sum(n, f)
  {
    var g := (i: nat) => f(n + i);
    SumSplit(n, m - n, f, g);
    SumZero(m - n, g);
  }

  lemma {:induction false} SumPositive(n: nat, f: nat -> real)
    requires n > 0 && f(0) > 0.0 && forall i: nat | i < n :: f(i) >= 0.0
    ensures Sum(n, f) > 0.0
  {
    if n == 1 {
      assert Sum(1, f) == Sum(0, f) + f(0);
    } else {
      SumPositive(n - 1, f);
    }
  }

  /** Tile k of width b. */
  function Tile(f: nat -> real, b: nat, k: nat): nat -> real {
    (i: nat) => f(k * b + i)
  }

  /** A sum over t tiles of width b is the sum over the whole range. */
  lemma {:induction false} SumTiles(t: nat, b: nat, f: nat -> real, g: nat -> real)
    requires forall k: nat | k < t :: g(k) == Sum(b, Tile(f, b, k))
    ensures Sum(t, g) == Sum(t * b, f)
  {
    if t > 0 {
      SumTiles(t - 1, b, f, g);
      assert t * b == (t - 1) * b + b;
      SumSplit((t - 1) * b, b, f, Tile(f, b, t - 1));
    }
  }

  /** Exchanging the order of summation. */
  lemma {:induction false} SumSwap(n: nat, m: nat, f: (nat, nat) -> real, rows: nat -> real, cols: nat -> real)
    requires forall i: nat | i < n :: rows(i) == Sum(m, (j: nat) => f(i, j))
    requires forall j: nat | j < m :: cols(j) == Sum(n, (i: nat) => f(i, j))
    ensures Sum(n, rows) == Sum(m, cols)
  {
    if n == 0 {
      SumZero(m, cols);
    } else {
      var shorter := (j: nat) => Sum(n - 1, (i: nat) => f(i, j));
      var last := (j: nat) => f(n - 1, j);
      SumSwap(n - 1, m, f, rows, shorter);
      forall j: nat | j < m ensures cols(j) == shorter(j) + last(j) {
        var whole := (i: nat) => f(i, j);
        assert Sum(n, whole) == Sum(n - 1, whole) + f(n - 1, j);
      }
      SumAdd(m, shorter, last, cols);
      assert rows(n - 1) == Sum(m, last) by {
        SumCong(m, last, (j: nat) => f(n - 1, j));
      }
    }
  }

  /** All terms but one are zero. */
  lemma {:induction false} SumSingle(n: nat, j: nat, f: nat -> real)
    requires j < n && forall i: nat | i < n && i != j :: f(i) == 0.0
    ensures Sum(n, f) == f(j)
  {
    if j == n - 1 {
      SumZero(n - 1, f);
    } else {
      SumSingle(n - 1, j, f);
    }
  }

  // Double sums.

  function Sum2(n: nat, m: nat, f: (nat, nat) -> real): real {
    Sum(n, (i: nat) => Sum(m, (j: nat) => f(i, j)))
  }

  lemma Sum2Cong(n: nat, m: nat, f: (nat, nat) -> real, g: (nat, nat) -> real)
    requires forall i: nat, j: nat | i < n && j < m :: f(i, j) == g(i, j)
    ensures Sum2(n, m, f) == Sum2(n, m, g)
  {
    hide Sum;
    var rows, rows' := (i: nat) => Sum(m, (j: nat) => f(i, j)), (i: nat) => Sum(m, (j: nat) => g(i, j));
    forall i: nat | i < n ensures rows(i) == rows'(i) {
      SumCong(m, (j: nat) => f(i, j), (j: nat) => g(i, j));
    }
    SumCong(n, rows, rows');
  }

  lemma Sum2Scale(n: nat, m: nat, c: real, f: (nat, nat) -> real, g: (nat, nat) -> real)
    requires forall i: nat, j: nat | i < n && j < m :: g(i, j) == c * f(i, j)
    ensures Sum2(n, m, g) == c * Sum2(n, m, f)
  {
    hide Sum;
    var rows, rows' := (i: nat) => Sum(m, (j: nat) => f(i, j)), (i: nat) => Sum(m, (j: nat) => g(i, j));
    forall i: nat | i < n ensures rows'(i) == c * rows(i) {
      SumScale(m, c, (j: nat) => f(i, j), (j: nat) => g(i, j));
    }
    SumScale(n, c, rows, rows');
  }

  lemma Sum2Single(n: nat, m: nat, i: nat, j: nat, f: (nat, nat) -> real)
    requires i < n && j < m && forall x: nat, y: nat | x < n && y < m && (x, y) != (i, j) :: f(x, y) == 0.0
    ensures Sum2(n, m, f) == f(i, j)
  {
    hide Sum;
    var rows := (x: nat) => Sum(m, (y: nat) => f(x, y));
    forall x: nat | x < n && x != i ensures rows(x) == 0.0 {
      SumZero(m, (y: nat) => f(x, y));
    }
    SumSingle(n, i, rows);
    SumSingle(m, j, (y: nat) => f(i, y));
  }

  lemma Sum2Zero(n: nat, m: nat, f: (nat, nat) -> real)
    requires forall i: nat, j: nat | i < n && j < m :: f(i, j) == 0.0
    ensures Sum2(n, m, f) == 0.0
  {
    hide Sum;
    var rows := (x: nat) => Sum(m, (y: nat) => f(x, y));
    forall x: nat | x < n ensures rows(x) == 0.0 {
      SumZero(m, (y: nat) => f(x, y));
    }
    SumZero(n, rows);
  }

  /** A sum inside a double sum moves outside. */
  lemma Sum21Swap(n: nat, m: nat, p: nat, f: (nat, nat, nat) -> real)
    ensures Sum2(n, m, (i: nat, j: nat) => Sum(p, (k: nat) => f(i, j, k)))
         == Sum(p, (k: nat) => Sum2(n, m, (i: nat, j: nat) => f(i, j, k)))
  {
    hide Sum;
    var inner := (i: nat, k: nat) => Sum(m, (j: nat) => f(i, j, k));
    var rows := (i: nat) => Sum(m, (j: nat) => Sum(p, (k: nat) => f(i, j, k)));
    forall i: nat | i < n ensures rows(i) == Sum(p, (k: nat) => inner(i, k)) {
      var g := (j: nat, k: nat) => f(i, j, k);
      var cols := (k: nat) => Sum(m, (j: nat) => f(i, j, k));
      var rows' := (j: nat) => Sum(p, (k: nat) => f(i, j, k));
      forall j: nat | j < m ensures rows'(j) == Sum(p, (k: nat) => g(j, k)) {
        SumCong(p, (k: nat) => f(i, j, k), (k: nat) => g(j, k));
      }
      forall k: nat | k < p ensures cols(k) == Sum(m, (j: nat) => g(j, k)) {
        SumCong(m, (j: nat) => f(i, j, k), (j: nat) => g(j, k));
      }
      SumSwap(m, p, g, rows', cols);
      SumCong(p, cols, (k: nat) => inner(i, k));
    }
    var outer := (k: nat) => Sum2(n, m, (i: nat, j: nat) => f(i, j, k));
    forall k: nat | k < p ensures outer(k) == Sum(n, (i: nat) => inner(i, k)) {
      var g := (i: nat, j: nat) => f(i, j, k);
      var rows' := (i: nat) => Sum(m, (j: nat) => g(i, j));
      forall i: nat | i < n ensures rows'(i) == inner(i, k) {
        SumCong(m, (j: nat) => g(i, j), (j: nat) => f(i, j, k));
      }
      SumCong(n, rows', (i: nat) => inner(i, k));
    }
    SumSwap(n, p, inner, rows, outer);
    var both := (i: nat, j: nat) => Sum(p, (k: nat) => f(i, j, k));
    var rows'' := (i: nat) => Sum(m, (j: nat) => both(i, j));
    forall i: nat | i < n ensures rows''(i) == rows(i) {
      SumCong(m, (j: nat) => both(i, j), (j: nat) => Sum(p, (k: nat) => f(i, j, k)));
    }
    SumCong(n, rows'', rows);
  }

  /** Two double sums change places. */
  lemma Sum22Swap(n: nat, m: nat, p: nat, q: nat, f: (nat, nat, nat, nat) -> real)
    ensures Sum2(n, m, (i: nat, j: nat) => Sum2(p, q, (k: nat, l: nat) => f(i, j, k, l)))
         == Sum2(p, q, (k: nat, l: nat) => Sum2(n, m, (i: nat, j: nat) => f(i, j, k, l)))
  {
    hide Sum;
    var g := (i: nat, j: nat, k: nat) => Sum(q, (l: nat) => f(i, j, k, l));
    var whole := (i: nat, j: nat) => Sum2(p, q, (k: nat, l: nat) => f(i, j, k, l));
    var half := (i: nat, j: nat) => Sum(p, (k: nat) => g(i, j, k));
    forall i: nat, j: nat ensures whole(i, j) == half(i, j) {
      var inner := (k: nat, l: nat) => f(i, j, k, l);
      forall k: nat | k < p ensures g(i, j, k) == Sum(q, (l: nat) => inner(k, l)) {
        SumCong(q, (l: nat) => f(i, j, k, l), (l: nat) => inner(k, l));
      }
      Sum2AsSums(p, q, inner, (k: nat) => g(i, j, k));
    }
    Sum2Cong(n, m, whole, half);
    Sum2Cong(n, m, half, (i: nat, j: nat) => Sum(p, (k: nat) => g(i, j, k)));
    Sum21Swap(n, m, p, g);
    var swapped := (k: nat, l: nat) => Sum2(n, m, (i: nat, j: nat) => f(i, j, k, l));
    var outer := (k: nat) => Sum2(n, m, (i: nat, j: nat) => g(i, j, k));
    forall k: nat ensures outer(k) == Sum(q, (l: nat) => swapped(k, l)) {
      var h := (i: nat, j: nat, l: nat) => f(i, j, k, l);
      Sum21Swap(n, m, q, h);
      var c, d := (i: nat, j: nat) => g(i, j, k), (i: nat, j: nat) => Sum(q, (l: nat) => h(i, j, l));
      forall i: nat, j: nat ensures c(i, j) == d(i, j) {
        SumCong(q, (l: nat) => f(i, j, k, l), (l: nat) => h(i, j, l));
      }
      Sum2Cong(n, m, c, d);
      var a, b := (l: nat) => Sum2(n, m, (i: nat, j: nat) => h(i, j, l)), (l: nat) => swapped(k, l);
      forall l: nat ensures a(l) == b(l) {
        Sum2Cong(n, m, (i: nat, j: nat) => h(i, j, l), (i: nat, j: nat) => f(i, j, k, l));
      }
      SumCong(q, a, b);
    }
    Sum2AsSums(p, q, swapped, outer);
  }

  lemma Sum2AsSums(n: nat, m: nat, f: (nat, nat) -> real, rows: nat -> real)
    requires forall i: nat | i < n :: rows(i) == Sum(m, (j: nat) => f(i, j))
    ensures Sum2(n, m, f) == Sum(n, rows)
  {
    SumCong(n, (i: nat) => Sum(m, (j: nat) => f(i, j)), rows);
  }
}
