/**
 Inverting a comparison along the path to one variable, as a function: which comparison of the
 variable the deducer ends with, and how its solutions relate to the solutions of the original.
 */
module BoundInversion {
  import opened IntExpr

  datatype CompareOp = Greater | Less | Equal
  datatype Sign = Positive | Negative | Zero | Unknown

  datatype Bound = NegInf | PosInf | At(e: Expr)
  datatype IntSet = Interval(min: Bound, max: Bound)

  /** The analyses the deducer consults. */
  datatype Oracles = Oracles(
    evalSet: Expr -> IntSet,            // interval of an expression under the relax map
    sign: (Expr, Expr) -> Sign,         // sign of a subexpression of an expression under the hint map
    divides: (Expr, Expr) -> bool,      // CanProve(floormod(r, d) == 0)
    isZero: Expr -> bool,               // CanProveEqual(d, 0)
    sameValue: (Expr, Expr) -> bool,    // CanProve(a == b)
    simplify: Expr -> Expr)

  ghost predicate Compare(op: CompareOp, x: int, y: int) {
    match op
    case Greater => x >= y
    case Less => x <= y
    case Equal => x == y
  }

  function Reverse(op: CompareOp): CompareOp {
    match op
    case Greater => Less
    case Less => Greater
    case Equal => Equal
  }

  /** `GetSignType`: every unsigned operand counts as positive. */
  function GetSign(o: Oracles, whole: Expr, e: Expr): Sign {
    if IsUnsigned(e) then Positive else o.sign(whole, e)
  }

  function Contains(e: Expr, t: Expr): bool {
    e == t || (e.Binary() && (Contains(e.a, t) || Contains(e.b, t)))
  }

  /** The child on the path to t. */
  function Next(e: Expr, t: Expr): (c: Expr)
    requires e.Binary()
    ensures c < e
  {
    if Contains(e.a, t) then e.a else e.b
  }

  function Sibling(e: Expr, t: Expr): Expr
    requires e.Binary()
  {
    if Contains(e.a, t) then e.b else e.a
  }

  function One(): Expr { Const(0, 1) }

  function Negated(e: Expr): Expr { Sub(0, Const(0, 0), e) }

  // The right-hand sides built at a floor division.

  function Scaled(s: Expr, d: Expr): Expr { Mul(0, s, d) }

  function ScaledLess(s: Expr, d: Expr): Expr { Sub(0, Add(0, Scaled(s, d), d), One()) }

  function Shifted(scaled: Expr, d: Expr): Expr { Add(0, Sub(0, scaled, d), One()) }

  datatype Step = Fails | Continue(op: CompareOp, r: Expr)

  /** What the visitor of node e makes of `e op r`, for the child on the path. */
  function StepThrough(o: Oracles, whole: Expr, e: Expr, t: Expr, op: CompareOp, r: Expr): Step
    requires e.Binary()
  {
    var other := Sibling(e, t);
    match e
    case Add(_, _, _) => Continue(op, Sub(0, r, other))
    case Sub(_, a, _) =>
      if Contains(a, t) then Continue(op, Add(0, r, other))
      else Continue(Reverse(op), Negated(Sub(0, r, other)))
    case Mul(_, _, _) =>
      var sign := GetSign(o, whole, other);
      if sign == Unknown then Fails
      else
        var op' := if sign == Negative then Reverse(op) else op;
        var divided := o.divides(r, other);
        if !divided && op' == Equal then Fails
        else if !divided && op' == Greater then Continue(op', Add(0, FloorDiv(0, r, other), One()))
        else Continue(op', FloorDiv(0, r, other))
    case FloorDiv(_, a, _) =>
      if !Contains(a, t) || o.isZero(other) then Fails
      else
        var sign := GetSign(o, whole, other);
        if sign == Unknown then Fails
        else
          var negative := sign == Negative;
          var op' := if negative then Reverse(op) else op;
          var d := if negative then Negated(other) else other;
          var s := if negative then Negated(r) else r;
          if op' == Equal then Fails
          else
            var scaled := if op' == Greater then Scaled(s, d) else ScaledLess(s, d);
            Continue(op', if negative then Shifted(scaled, d) else scaled)
    case Other(_, _, _, _) => Fails
  }

  /** The comparison of the variable t that the visitors derive from `e op r`. */
  function Invert(o: Oracles, whole: Expr, e: Expr, t: Expr, op: CompareOp, r: Expr): Step
    decreases e
  {
    if e.Var? then Continue(op, r)
    else if e.Const? then Fails
    else
      match StepThrough(o, whole, e, t, op, r)
      case Fails => Fails
      case Continue(op', r') => Invert(o, whole, Next(e, t), t, op', r')
  }

  // Soundness and exactness.

  /** The signs hold in env. */
  ghost predicate SignsHold(o: Oracles, whole: Expr, env: Env) {
    && (forall e {:trigger o.sign(whole, e)} :: o.sign(whole, e) == Positive ==> Eval(e, env) > 0)
    && (forall e {:trigger o.sign(whole, e)} :: o.sign(whole, e) == Negative ==> Eval(e, env) < 0)
    && (forall e {:trigger o.sign(whole, e)} :: o.sign(whole, e) == Zero ==> Eval(e, env) == 0)
  }

  ghost predicate Divisible(r: int, d: int)
    requires d != 0
  {
    FloorQuotient(r, d) * d == r
  }

  lemma ProductDivisible(x: int, c: int)
    requires c != 0
    ensures Divisible(x * c, c)
  {
    FactorOrder(x, c, x * c);
  }

  /** Proven divisibility holds in env. */
  ghost predicate DivisionHolds(o: Oracles, env: Env) {
    forall r, d {:trigger o.divides(r, d)} :: o.divides(r, d) && Eval(d, env) != 0 ==> Divisible(Eval(r, env), Eval(d, env))
  }

  /** An operand of a product or divisor: not zero, and positive if its type is unsigned. */
  ghost predicate ProperOperand(e: Expr, env: Env) {
    Eval(e, env) != 0 && (IsUnsigned(e) ==> Eval(e, env) > 0)
  }

  /** The multiplications and divisions on the path have proper operands beside the path. */
  ghost predicate ProperOperands(e: Expr, t: Expr, env: Env) {
    e.Binary() ==>
      && (e.Mul? || e.FloorDiv? ==> ProperOperand(Sibling(e, t), env))
      && ProperOperands(Next(e, t), t, env)
  }

  /** At a product, the value the derived lower bound excludes although it solves `e op r`. */
  ghost predicate BoundaryLost(o: Oracles, whole: Expr, e: Expr, t: Expr, op: CompareOp, r: Expr, env: Env)
    requires e.Mul?
  {
    var step := StepThrough(o, whole, e, t, op, r);
    && step.Continue? && step.op == Greater
    && !o.divides(r, Sibling(e, t))
    && Eval(e, env) == Eval(r, env)
  }

  /** Some product on the path loses its boundary value. */
  ghost predicate Lost(o: Oracles, whole: Expr, e: Expr, t: Expr, op: CompareOp, r: Expr, env: Env)
    decreases e
  {
    if !e.Binary() then false
    else
      match StepThrough(o, whole, e, t, op, r)
      case Fails => false
      case Continue(op', r') =>
        (e.Mul? && BoundaryLost(o, whole, e, t, op, r, env)) || Lost(o, whole, Next(e, t), t, op', r', env)
  }

  lemma EvalMul(e: Expr, t: Expr, env: Env)
    requires e.Mul?
    ensures Eval(e, env) == Eval(Next(e, t), env) * Eval(Sibling(e, t), env)
  {
  }

  /** Sums and differences on the path are inverted exactly. */
  lemma LinearStep(o: Oracles, whole: Expr, e: Expr, t: Expr, op: CompareOp, r: Expr, env: Env)
    requires e.Add? || e.Sub?
    ensures var step := StepThrough(o, whole, e, t, op, r);
            && step.Continue?
            && (Compare(op, Eval(e, env), Eval(r, env))
                <==> Compare(step.op, Eval(Next(e, t), env), Eval(step.r, env)))
  {
  }

  /** Floor division of values, by zero as env has it. */
  ghost function Quotient(x: int, c: int, env: Env): int {
    if c == 0 then env.byZero(x) else FloorQuotient(x, c)
  }

  /** The comparison and the bound derived at a product, by value. */
  lemma MulValue(o: Oracles, whole: Expr, e: Expr, t: Expr, op: CompareOp, r: Expr, env: Env)
    requires e.Mul? && StepThrough(o, whole, e, t, op, r).Continue?
    ensures var step, other := StepThrough(o, whole, e, t, op, r), Sibling(e, t);
            var q := Quotient(Eval(r, env), Eval(other, env), env);
            && GetSign(o, whole, other) != Unknown
            && step.op == (if GetSign(o, whole, other) == Negative then Reverse(op) else op)
            && (!o.divides(r, other) ==> step.op != Equal)
            && Eval(step.r, env) == q + if !o.divides(r, other) && step.op == Greater then 1 else 0
  {
    hide FloorQuotient, Contains, GetSign, Sibling;
    var q := FloorDiv(0, r, Sibling(e, t));
    assert Eval(q, env) == Quotient(Eval(r, env), Eval(Sibling(e, t), env), env);
    assert Eval(Add(0, q, One()), env) == Eval(q, env) + 1;
  }

  lemma MulStep(o: Oracles, whole: Expr, e: Expr, t: Expr, op: CompareOp, r: Expr, env: Env)
    requires e.Mul? && ProperOperand(Sibling(e, t), env)
    requires SignsHold(o, whole, env) && DivisionHolds(o, env)
    requires StepThrough(o, whole, e, t, op, r).Continue?
    ensures var step := StepThrough(o, whole, e, t, op, r);
            Compare(op, Eval(e, env), Eval(r, env))
            <==> Compare(step.op, Eval(Next(e, t), env), Eval(step.r, env)) || BoundaryLost(o, whole, e, t, op, r, env)
  {
    hide FloorQuotient, Divisible, StepThrough, Eval, Contains, Next, Sibling;
    var other := Sibling(e, t);
    var x, c, v := Eval(Next(e, t), env), Eval(other, env), Eval(r, env);
    EvalMul(e, t, env);
    MulValue(o, whole, e, t, op, r, env);
    assert GetSign(o, whole, other) == Negative <==> c < 0;
    assert o.divides(r, other) ==> Divisible(v, c);
    FactorStep(x, c, v, op);
  }

  /** `x * c op v` against comparisons of x with the quotient, for an operand of either sign. */
  lemma FactorStep(x: int, c: int, v: int, op: CompareOp)
    requires c != 0
    ensures var q, op' := FloorQuotient(v, c), if c < 0 then Reverse(op) else op;
            && (Divisible(v, c) ==> (Compare(op, x * c, v) <==> Compare(op', x, q)))
            && (op' == Less ==> (Compare(op, x * c, v) <==> x <= q))
            && (op' == Greater ==> (Compare(op, x * c, v) <==> x >= q + 1 || x * c == v))
  {
    FactorOrder(x, c, v);
    var q := FloorQuotient(v, c);
    ProductOrder(x, q, c);
    ProductOrder(q, x, c);
  }

  lemma FloorDivStep(o: Oracles, whole: Expr, e: Expr, t: Expr, op: CompareOp, r: Expr, env: Env)
    requires e.FloorDiv? && ProperOperand(Sibling(e, t), env)
    requires SignsHold(o, whole, env)
    requires StepThrough(o, whole, e, t, op, r).Continue?
    ensures var step := StepThrough(o, whole, e, t, op, r);
            Compare(op, Eval(e, env), Eval(r, env))
            <==> Compare(step.op, Eval(Next(e, t), env), Eval(step.r, env))
  {
    assert Sibling(e, t) == e.b && Next(e, t) == e.a;
    if Eval(e.b, env) > 0 {
      assert GetSign(o, whole, e.b) != Negative && GetSign(o, whole, e.b) != Unknown;
      PositiveDivisorStep(o, whole, e, t, op, r, env);
    } else {
      assert GetSign(o, whole, e.b) == Negative;
      NegativeDivisorStep(o, whole, e, t, op, r, env);
    }
  }

  lemma PositiveDivisorStep(o: Oracles, whole: Expr, e: Expr, t: Expr, op: CompareOp, r: Expr, env: Env)
    requires e.FloorDiv? && Eval(e.b, env) > 0 && GetSign(o, whole, e.b) != Negative
    requires Sibling(e, t) == e.b && StepThrough(o, whole, e, t, op, r).Continue?
    ensures var step := StepThrough(o, whole, e, t, op, r);
            Compare(op, Eval(e, env), Eval(r, env))
            <==> Compare(step.op, Eval(e.a, env), Eval(step.r, env))
  {
    hide FloorQuotient;
    DividendOrder(Eval(e.a, env), Eval(e.b, env), Eval(r, env));
    assert Eval(Scaled(r, e.b), env) == Eval(r, env) * Eval(e.b, env);
    assert Eval(ScaledLess(r, e.b), env) == Eval(Scaled(r, e.b), env) + Eval(e.b, env) - 1;
  }

  lemma NegativeDivisorStep(o: Oracles, whole: Expr, e: Expr, t: Expr, op: CompareOp, r: Expr, env: Env)
    requires e.FloorDiv? && Eval(e.b, env) < 0 && GetSign(o, whole, e.b) == Negative
    requires Sibling(e, t) == e.b && StepThrough(o, whole, e, t, op, r).Continue?
    ensures var step := StepThrough(o, whole, e, t, op, r);
            Compare(op, Eval(e, env), Eval(r, env))
            <==> Compare(step.op, Eval(e.a, env), Eval(step.r, env))
  {
    hide FloorQuotient;
    var x, d, v := Eval(e.a, env), Eval(e.b, env), Eval(r, env);
    var n, s := Negated(e.b), Negated(r);
    assert Eval(n, env) == -d && Eval(s, env) == -v;
    var scaled := Mul(0, s, n);
    assert Eval(scaled, env) == -v * -d;
    var less := Sub(0, Add(0, scaled, n), One());
    assert Eval(less, env) == -v * -d + -d - 1;
    NegativeDividendOrder(x, d, v);
    assert op == Greater ==> StepThrough(o, whole, e, t, op, r) == Continue(Less, Add(0, Sub(0, less, n), One()));
    assert op == Less ==> StepThrough(o, whole, e, t, op, r) == Continue(Greater, Add(0, Sub(0, scaled, n), One()));
    assert Eval(Add(0, Sub(0, less, n), One()), env) == Eval(less, env) - -d + 1;
    assert Eval(Add(0, Sub(0, scaled, n), One()), env) == Eval(scaled, env) - -d + 1;
  }

  lemma LostUnfold(o: Oracles, whole: Expr, e: Expr, t: Expr, op: CompareOp, r: Expr, env: Env)
    ensures Lost(o, whole, e, t, op, r, env) <==>
      e.Binary() && StepThrough(o, whole, e, t, op, r).Continue? &&
      var step := StepThrough(o, whole, e, t, op, r);
      (e.Mul? && BoundaryLost(o, whole, e, t, op, r, env)) || Lost(o, whole, Next(e, t), t, step.op, step.r, env)
  {
    hide StepThrough, Eval, BoundaryLost, Contains, Sibling;
  }

  lemma InvertUnfold(o: Oracles, whole: Expr, e: Expr, t: Expr, op: CompareOp, r: Expr)
    requires e.Binary()
    ensures Invert(o, whole, e, t, op, r) ==
            match StepThrough(o, whole, e, t, op, r)
            case Fails => Fails
            case Continue(op', r') => Invert(o, whole, Next(e, t), t, op', r')
  {
    hide StepThrough, Contains;
  }

  /**
   The solutions of `e op r` are those of the derived comparison together with the boundary
   values lost at products whose divisibility was not proven.
   */
  lemma {:induction false} InvertExact(o: Oracles, whole: Expr, e: Expr, t: Expr, op: CompareOp, r: Expr, env: Env)
    requires t.Var? && Contains(e, t)
    requires SignsHold(o, whole, env) && DivisionHolds(o, env) && ProperOperands(e, t, env)
    requires Invert(o, whole, e, t, op, r).Continue?
    ensures var final := Invert(o, whole, e, t, op, r);
            Compare(op, Eval(e, env), Eval(r, env))
            <==> Compare(final.op, Eval(t, env), Eval(final.r, env)) || Lost(o, whole, e, t, op, r, env)
    decreases e
  {
    LostUnfold(o, whole, e, t, op, r, env);
    if e.Binary() {
      InvertUnfold(o, whole, e, t, op, r);
      assert !e.Other?;
      hide Eval, StepThrough, SignsHold, DivisionHolds, BoundaryLost, Compare, Next, Sibling, Lost, Invert;
      var step := StepThrough(o, whole, e, t, op, r);
      InvertExact(o, whole, Next(e, t), t, step.op, step.r, env);
      if e.Mul? {
        MulStep(o, whole, e, t, op, r, env);
      } else if e.FloorDiv? {
        FloorDivStep(o, whole, e, t, op, r, env);
      } else {
        LinearStep(o, whole, e, t, op, r, env);
      }
    }
  }

  // The derived bound does not mention the variable.

  lemma {:induction false} ContainsIsCount(e: Expr, t: Expr)
    ensures Contains(e, t) <==> Count(e, t) > 0
  {
    if e.Binary() {
      ContainsIsCount(e.a, t);
      ContainsIsCount(e.b, t);
    }
  }

  lemma {:induction false} InvertFree(o: Oracles, whole: Expr, e: Expr, t: Expr, op: CompareOp, r: Expr)
    requires t.Var? && Count(e, t) == 1 && Count(r, t) == 0
    requires Invert(o, whole, e, t, op, r).Continue?
    ensures Count(Invert(o, whole, e, t, op, r).r, t) == 0
    decreases e
  {
    if e.Binary() {
      ContainsIsCount(e.a, t);
      ContainsIsCount(e.b, t);
      var step := StepThrough(o, whole, e, t, op, r);
      assert Count(Sibling(e, t), t) == 0 && Count(Next(e, t), t) == 1;
      StepFree(o, whole, e, t, op, r);
      InvertFree(o, whole, Next(e, t), t, step.op, step.r);
    }
  }

  lemma StepFree(o: Oracles, whole: Expr, e: Expr, t: Expr, op: CompareOp, r: Expr)
    requires t.Var? && e.Binary() && Count(Sibling(e, t), t) == 0 && Count(r, t) == 0
    requires StepThrough(o, whole, e, t, op, r).Continue?
    ensures Count(StepThrough(o, whole, e, t, op, r).r, t) == 0
  {
    var other := Sibling(e, t);
    var n, m := Negated(r), Negated(other);
    CountNegated(r, t);
    CountNegated(other, t);
    CountNegated(Sub(0, r, other), t);
    forall x, y | x in {r, n} && y in {other, m} && Count(x, t) == 0 && Count(y, t) == 0
      ensures Count(Scaled(x, y), t) == 0 && Count(ScaledLess(x, y), t) == 0
      ensures Count(Shifted(Scaled(x, y), y), t) == 0 && Count(Shifted(ScaledLess(x, y), y), t) == 0
    {
      CountScaled(x, y, t);
    }
  }

  lemma CountScaled(s: Expr, d: Expr, t: Expr)
    requires t.Var? && Count(s, t) == 0 && Count(d, t) == 0
    ensures Count(Scaled(s, d), t) == 0 && Count(ScaledLess(s, d), t) == 0
    ensures Count(Shifted(Scaled(s, d), d), t) == 0 && Count(Shifted(ScaledLess(s, d), d), t) == 0
  {
    assert Count(One(), t) == 0;
    assert Count(Add(0, Scaled(s, d), d), t) == 0;
    assert Count(Sub(0, Scaled(s, d), d), t) == 0;
    assert Count(Sub(0, ScaledLess(s, d), d), t) == 0;
  }

  lemma CountNegated(e: Expr, t: Expr)
    requires t.Var?
    ensures Count(Negated(e), t) == Count(e, t)
  {
  }

  // What is lost at products.

  /** Divisibility is proven wherever it holds, for expressions without the variable. */
  ghost predicate DivisionExact(o: Oracles, t: Expr, env: Env) {
    forall r, d {:trigger o.divides(r, d)} ::
      Count(r, t) == 0 && Count(d, t) == 0 && Eval(d, env) != 0 && Divisible(Eval(r, env), Eval(d, env)) ==> o.divides(r, d)
  }

  /** A lower bound is derived at some product on the path. */
  ghost predicate LowerCrossesProduct(o: Oracles, whole: Expr, e: Expr, t: Expr, op: CompareOp, r: Expr)
    decreases e
  {
    if !e.Binary() then false
    else
      match StepThrough(o, whole, e, t, op, r)
      case Fails => false
      case Continue(op', r') =>
        (e.Mul? && op' == Greater) || LowerCrossesProduct(o, whole, Next(e, t), t, op', r')
  }

  lemma BoundaryFacts(o: Oracles, whole: Expr, e: Expr, t: Expr, op: CompareOp, r: Expr, env: Env)
    requires e.Mul? && BoundaryLost(o, whole, e, t, op, r, env)
    ensures !o.divides(r, Sibling(e, t)) && Eval(e, env) == Eval(r, env)
  {
  }

  lemma DivisionProven(o: Oracles, t: Expr, env: Env, r: Expr, d: Expr)
    requires DivisionExact(o, t, env) && Count(r, t) == 0 && Count(d, t) == 0
    requires Eval(d, env) != 0 && Divisible(Eval(r, env), Eval(d, env))
    ensures o.divides(r, d)
  {
  }

  lemma BoundaryKept(o: Oracles, whole: Expr, e: Expr, t: Expr, op: CompareOp, r: Expr, env: Env)
    requires e.Mul? && Eval(Sibling(e, t), env) != 0
    requires DivisionExact(o, t, env) && Count(Sibling(e, t), t) == 0 && Count(r, t) == 0
    ensures !BoundaryLost(o, whole, e, t, op, r, env)
  {
    hide StepThrough, Divisible, Eval, Contains, Next, Sibling, Count, BoundaryLost, DivisionExact;
    EvalMul(e, t, env);
    ProductDivisible(Eval(Next(e, t), env), Eval(Sibling(e, t), env));
    if BoundaryLost(o, whole, e, t, op, r, env) {
      BoundaryFacts(o, whole, e, t, op, r, env);
      DivisionProven(o, t, env, r, Sibling(e, t));
      assert false;
    }
  }

  lemma CountPath(e: Expr, t: Expr)
    requires t.Var? && e.Binary() && Count(e, t) == 1
    ensures Count(Next(e, t), t) == 1 && Count(Sibling(e, t), t) == 0
  {
    ContainsIsCount(e.a, t);
    ContainsIsCount(e.b, t);
  }

  /** An exact divisibility test loses nothing. */
  lemma {:induction false} NothingLost(o: Oracles, whole: Expr, e: Expr, t: Expr, op: CompareOp, r: Expr, env: Env)
    requires t.Var? && Count(e, t) == 1 && Count(r, t) == 0
    requires DivisionExact(o, t, env) && ProperOperands(e, t, env)
    ensures !Lost(o, whole, e, t, op, r, env)
    decreases e
  {
    hide StepThrough, Eval, DivisionExact, BoundaryLost, Contains, Sibling, Lost, Count, Next;
    LostUnfold(o, whole, e, t, op, r, env);
    if e.Binary() {
      CountPath(e, t);
      match StepThrough(o, whole, e, t, op, r)
      case Fails =>
      case Continue(op', r') =>
        StepFree(o, whole, e, t, op, r);
        NothingLost(o, whole, Next(e, t), t, op', r', env);
        if e.Mul? {
          BoundaryKept(o, whole, e, t, op, r, env);
        }
    }
  }

  /** An incomplete test loses nothing where no lower bound is derived at a product. */
  lemma {:induction false} UpperKeepsAll(o: Oracles, whole: Expr, e: Expr, t: Expr, op: CompareOp, r: Expr, env: Env)
    requires !LowerCrossesProduct(o, whole, e, t, op, r)
    ensures !Lost(o, whole, e, t, op, r, env)
    decreases e
  {
    hide StepThrough, Eval, Contains, Sibling;
    if e.Binary() {
      match StepThrough(o, whole, e, t, op, r)
      case Fails =>
      case Continue(op', r') => UpperKeepsAll(o, whole, Next(e, t), t, op', r', env);
    }
  }

  // Operands that are taken for positive.

  /** The sign analysis lets the operand pass without reversing the comparison. */
  predicate TakenForPositive(o: Oracles, whole: Expr, e: Expr) {
    GetSign(o, whole, e) != Negative && GetSign(o, whole, e) != Unknown
  }

  /** What the visitor derives at e implies `e op r` when the child on the path has value x. */
  ghost predicate StepSound(o: Oracles, whole: Expr, e: Expr, t: Expr, env: Env, op: CompareOp, r: Expr, x: int)
    requires e.Mul? || e.FloorDiv?
  {
    var step, c := StepThrough(o, whole, e, t, op, r), Eval(Sibling(e, t), env);
    step.Continue? && Compare(step.op, x, Eval(step.r, env)) ==>
      Compare(op, if e.Mul? then x * c else Quotient(x, c, env), Eval(r, env))
  }

  lemma StepSoundUnfold(o: Oracles, whole: Expr, e: Expr, t: Expr, env: Env, op: CompareOp, r: Expr, x: int, d: Expr)
    requires e.Mul? && StepThrough(o, whole, e, t, op, r) == Continue(op, d)
    requires Compare(op, x, Eval(d, env)) && !Compare(op, x * Eval(Sibling(e, t), env), Eval(r, env))
    ensures !StepSound(o, whole, e, t, env, op, r, x)
  {
  }

  /**
   At a product whose other operand is taken for positive, as every unsigned operand is, the derived
   comparison implies the original one for every comparison, right-hand side and value if and only if
   that operand is positive.
   */
  lemma FactorExact(o: Oracles, whole: Expr, e: Expr, t: Expr, env: Env)
    requires e.Mul? && TakenForPositive(o, whole, Sibling(e, t)) && DivisionHolds(o, env)
    ensures (forall op, r, x :: StepSound(o, whole, e, t, env, op, r, x)) <==> Eval(Sibling(e, t), env) > 0
  {
    var other := Sibling(e, t);
    var c := Eval(other, env);
    if c > 0 {
      forall op, r, x ensures StepSound(o, whole, e, t, env, op, r, x) {
        PositiveFactor(o, whole, e, t, env, op, r, x);
      }
    } else {
      var r := if c == 0 then One() else Const(0, 0);
      FactorFails(o, whole, e, t, env, r);
    }
  }

  lemma PositiveFactor(o: Oracles, whole: Expr, e: Expr, t: Expr, env: Env, op: CompareOp, r: Expr, x: int)
    requires e.Mul? && TakenForPositive(o, whole, Sibling(e, t)) && DivisionHolds(o, env)
    requires Eval(Sibling(e, t), env) > 0
    ensures StepSound(o, whole, e, t, env, op, r, x)
  {
    hide FloorQuotient, Divisible, StepThrough, Eval, Contains, Next, Sibling;
    var other := Sibling(e, t);
    var c, v := Eval(other, env), Eval(r, env);
    if StepThrough(o, whole, e, t, op, r).Continue? {
      MulValue(o, whole, e, t, op, r, env);
      assert o.divides(r, other) ==> Divisible(v, c);
      FactorStep(x, c, v, op);
    }
  }

  lemma FactorFails(o: Oracles, whole: Expr, e: Expr, t: Expr, env: Env, r: Expr)
    requires e.Mul? && TakenForPositive(o, whole, Sibling(e, t))
    requires var c := Eval(Sibling(e, t), env); (c == 0 && r == One()) || (c < 0 && r == Const(0, 0))
    ensures exists x :: !StepSound(o, whole, e, t, env, Greater, r, x)
  {
    var other := Sibling(e, t);
    var c, q := Eval(other, env), FloorDiv(0, r, other);
    var d := if o.divides(r, other) then q else Add(0, q, One());
    assert StepThrough(o, whole, e, t, Greater, r) == Continue(Greater, d);
    var bound := Eval(d, env);
    var x := if bound > 1 then bound else 1;
    NegativeProduct(x, c);
    StepSoundUnfold(o, whole, e, t, env, Greater, r, x, d);
  }

  lemma NegativeProduct(x: int, c: int)
    requires x >= 1 && c <= 0
    ensures c == 0 ==> x * c == 0
    ensures c < 0 ==> x * c < 0
  {
  }

  /** The same at a floor division. */
  lemma DivisorExact(o: Oracles, whole: Expr, e: Expr, t: Expr, env: Env)
    requires e.FloorDiv? && Contains(e.a, t) && TakenForPositive(o, whole, e.b) && !o.isZero(e.b)
    ensures (forall op, r, x :: StepSound(o, whole, e, t, env, op, r, x)) <==> Eval(e.b, env) > 0
  {
    var c := Eval(e.b, env);
    if c > 0 {
      forall op, r, x ensures StepSound(o, whole, e, t, env, op, r, x) {
        PositiveDivisor(o, whole, e, t, env, op, r, x);
      }
    } else {
      DivisorFails(o, whole, e, t, env, if c == 0 then Const(0, env.byZero(0) + 1) else One());
    }
  }

  lemma DivisorFails(o: Oracles, whole: Expr, e: Expr, t: Expr, env: Env, r: Expr)
    requires e.FloorDiv? && Contains(e.a, t) && TakenForPositive(o, whole, e.b) && !o.isZero(e.b)
    requires var c := Eval(e.b, env); (c == 0 && r == Const(0, env.byZero(0) + 1)) || (c < 0 && r == One())
    ensures !StepSound(o, whole, e, t, env, Greater, r, 0)
  {
    var c := Eval(e.b, env);
    assert StepThrough(o, whole, e, t, Greater, r) == Continue(Greater, Scaled(r, e.b));
    assert Eval(Scaled(r, e.b), env) == Eval(r, env) * c;
    assert c < 0 ==> FloorQuotient(0, c) == 0;
  }

  lemma PositiveDivisor(o: Oracles, whole: Expr, e: Expr, t: Expr, env: Env, op: CompareOp, r: Expr, x: int)
    requires e.FloorDiv? && Contains(e.a, t) && TakenForPositive(o, whole, e.b) && Eval(e.b, env) > 0
    ensures StepSound(o, whole, e, t, env, op, r, x)
  {
    hide FloorQuotient;
    DividendOrder(x, Eval(e.b, env), Eval(r, env));
    assert Eval(Scaled(r, e.b), env) == Eval(r, env) * Eval(e.b, env);
    assert Eval(ScaledLess(r, e.b), env) == Eval(Scaled(r, e.b), env) + Eval(e.b, env) - 1;
  }

  /** In a whole product: whatever x // 0 is, some value inside the bound for an unsigned zero fails. */
  lemma ZeroFactorUnsound(u: Expr, t: Expr, o: Oracles, env: Env)
    requires t.Var? && u.Var? && u.unsigned && u != t && Eval(u, env) == 0
    ensures var e := Mul(0, t, u);
            && Invert(o, e, e, t, Greater, One()).Continue?
            && var final := Invert(o, e, e, t, Greater, One());
               exists v: int ::
                 && Compare(final.op, v, Eval(final.r, env))
                 && !Compare(Greater, Eval(e, Assign(env, t, v)), 1)
  {
    var e := Mul(0, t, u);
    assert Sibling(e, t) == u && Next(e, t) == t;
    var q := FloorDiv(0, One(), u);
    var r := if o.divides(One(), u) then q else Add(0, q, One());
    assert StepThrough(o, e, e, t, Greater, One()) == Continue(Greater, r);
    assert Invert(o, e, t, t, Greater, r) == Continue(Greater, r);
    var final := Invert(o, e, e, t, Greater, One());
    assert final == Continue(Greater, r);
    var v := Eval(final.r, env);
    EvalIndependent(u, t, env, v);
    assert Eval(e, Assign(env, t, v)) == 0;
    assert Compare(final.op, v, Eval(final.r, env));
  }
}
