/**
 Integer expressions of the bound deducer, over mathematical integers. Two nodes are the same
 object exactly when they are equal: every node but a variable carries its own identity.
 */
module IntExpr {

  datatype Expr =
    | Var(name: nat, unsigned: bool)
    | Const(node: nat, value: int)
    | Add(node: nat, a: Expr, b: Expr)
    | Sub(node: nat, a: Expr, b: Expr)
    | Mul(node: nat, a: Expr, b: Expr)
    | FloorDiv(node: nat, a: Expr, b: Expr)
    | Other(node: nat, op: nat, a: Expr, b: Expr)
  {
    /** Whether the node has operands. */
    predicate Binary() {
      !Var? && !Const?
    }
  }

  /** Values of the variables, of the operators the deducer does not know, and of x // 0. */
  datatype Env = Env(vars: (nat, bool) -> int, ops: (nat, int, int) -> int, byZero: int -> int)

  /** Quotient rounded towards negative infinity, for a divisor of either sign. */
  function FloorQuotient(a: int, b: int): int
    requires b != 0
  {
    if b > 0 then a / b else (-a) / (-b)
  }

  function Eval(e: Expr, env: Env): int {
    match e
    case Var(name, u) => env.vars(name, u)
    case Const(_, v) => v
    case Add(_, a, b) => Eval(a, env) + Eval(b, env)
    case Sub(_, a, b) => Eval(a, env) - Eval(b, env)
    case Mul(_, a, b) => Eval(a, env) * Eval(b, env)
    case FloorDiv(_, a, b) =>
      if Eval(b, env) == 0 then env.byZero(Eval(a, env)) else FloorQuotient(Eval(a, env), Eval(b, env))
    case Other(_, op, a, b) => env.ops(op, Eval(a, env), Eval(b, env))
  }

  /** The value type of an expression, taken from its leftmost variable. */
  predicate IsUnsigned(e: Expr) {
    match e
    case Var(_, u) => u
    case Const(_, _) => false
    case Add(_, a, _) => IsUnsigned(a)
    case Sub(_, a, _) => IsUnsigned(a)
    case Mul(_, a, _) => IsUnsigned(a)
    case FloorDiv(_, a, _) => IsUnsigned(a)
    case Other(_, _, a, _) => IsUnsigned(a)
  }

  /** Occurrences of t in e, as the input checker counts them. */
  function Count(e: Expr, t: Expr): nat {
    (if e == t then 1 else 0) + (if e.Binary() then Count(e.a, t) + Count(e.b, t) else 0)
  }

  function Assign(env: Env, t: Expr, v: int): Env
    requires t.Var?
  {
    env.(vars := (n: nat, u: bool) => if n == t.name && u == t.unsigned then v else env.vars(n, u))
  }

  /** An expression without the variable does not depend on it. */
  lemma {:induction false} EvalIndependent(e: Expr, t: Expr, env: Env, v: int)
    requires t.Var? && Count(e, t) == 0
    ensures Eval(e, Assign(env, t, v)) == Eval(e, env)
  {
    if e.Binary() {
      EvalIndependent(e.a, t, env, v);
      EvalIndependent(e.b, t, env, v);
    }
  }

  // Floor division against comparisons.

  /** The defining property of the quotient. */
  lemma QuotientBounds(a: int, b: int)
    requires b != 0
    ensures var q := FloorQuotient(a, b);
            if b > 0 then q * b <= a < (q + 1) * b else (q + 1) * b < a <= q * b
  {
    if b > 0 {
      PositiveBounds(a, b);
    } else {
      PositiveBounds(-a, -b);
      var q := FloorQuotient(a, b);
      NegateProduct(q, b);
      NegateProduct(q + 1, b);
    }
  }

  lemma PositiveBounds(a: int, b: int)
    requires b > 0
    ensures (a / b) * b <= a < (a / b + 1) * b
  {
    assert a == (a / b) * b + a % b;
    assert (a / b + 1) * b == (a / b) * b + b;
  }

  lemma NegateProduct(x: int, y: int)
    ensures x * -y == -(x * y)
  {
  }

  lemma ProductOrder(x: int, y: int, c: int)
    ensures c > 0 ==> (x < y <==> x * c < y * c)
    ensures c < 0 ==> (x < y <==> y * c < x * c)
    ensures c > 0 ==> (x <= y <==> x * c <= y * c)
    ensures c < 0 ==> (x <= y <==> y * c <= x * c)
  {
    if c > 0 {
      MonotoneProduct(x, y, c);
      MonotoneProduct(y, x, c);
    } else if c < 0 {
      MonotoneProduct(x, y, -c);
      MonotoneProduct(y, x, -c);
      NegateProduct(x, c);
      NegateProduct(y, c);
    }
  }

  lemma MonotoneProduct(x: int, y: int, c: int)
    requires c > 0
    ensures x < y ==> x * c < y * c
    ensures x <= y ==> x * c <= y * c
  {
  }

  /** Comparing a multiple of c with r, and the factor with the quotient. */
  lemma FactorOrder(t: int, c: int, r: int)
    requires c != 0
    ensures var q := FloorQuotient(r, c);
            && (c > 0 ==> (t * c <= r <==> t <= q))
            && (c < 0 ==> (t * c >= r <==> t <= q))
            && (t >= q + 1 ==> if c > 0 then t * c > r else t * c < r)
            && (t * c == r ==> t == q)
  {
    var q := FloorQuotient(r, c);
    QuotientBounds(r, c);
    ProductOrder(t, q, c);
    ProductOrder(q + 1, t, c);
    ProductOrder(q, t, c);
  }

  /** Comparing a quotient with r, and the dividend with a multiple of the divisor. */
  lemma DividendOrder(t: int, d: int, r: int)
    requires d > 0
    ensures FloorQuotient(t, d) >= r <==> t >= r * d
    ensures FloorQuotient(t, d) <= r <==> t <= r * d + d - 1
  {
    var q := FloorQuotient(t, d);
    QuotientBounds(t, d);
    ProductOrder(r, q, d);
    ProductOrder(q, r, d);
    ProductOrder(r, q + 1, d);
    ProductOrder(q + 1, r, d);
    ProductOrder(r + 1, q, d);
    ProductOrder(q, r + 1, d);
    assert (r + 1) * d == r * d + d;
  }

  lemma NegativeDividendOrder(t: int, d: int, r: int)
    requires d < 0
    ensures FloorQuotient(t, d) >= r <==> t <= -r * -d
    ensures FloorQuotient(t, d) <= r <==> t >= -r * -d + d + 1
  {
    var q := FloorQuotient(t, d);
    QuotientBounds(t, d);
    ProductOrder(q, r, d);
    ProductOrder(r, q, d);
    ProductOrder(r, q + 1, d);
    ProductOrder(q + 1, r, d);
    ProductOrder(r + 1, q, d);
    ProductOrder(q, r + 1, d);
    assert (r + 1) * d == r * d + d;
    assert -r * -d == r * d;
  }
}
