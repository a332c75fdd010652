/**
 When the deducer answers, by the shape of the comparison and without its visitors: with analyses
 that decide what they are asked, every inequality along a path of sums, products and quotients is
 solved, and every equation that has a solution and crosses no division.
 */
module BoundAnswers {
  import opened IntExpr
  import opened BoundInversion
  import opened BoundDeducerClass

  /** Sign, zero and divisibility are decided for expressions without t. */
  ghost predicate Decides(o: Oracles, t: Expr, env: Env) {
    && (forall whole, e {:trigger o.sign(whole, e)} | Count(e, t) == 0 :: o.sign(whole, e) != Unknown)
    && (forall r, d {:trigger o.divides(r, d)} | Count(r, t) == 0 && Count(d, t) == 0 ::
          o.divides(r, d) <==> Eval(d, env) != 0 && Divisible(Eval(r, env), Eval(d, env)))
    && (forall d {:trigger o.isZero(d)} | Count(d, t) == 0 :: o.isZero(d) <==> Eval(d, env) == 0)
  }

  lemma DecidingDecides(t: Expr, env: Env)
    ensures Decides(DecidingOracles(t, env), t, env)
  {
  }

  /** From e to t there are sums, differences, products, and quotients with t in the dividend and a nonzero divisor. */
  predicate Crossable(e: Expr, t: Expr, env: Env) {
    || e == t
    || ((e.Add? || e.Sub? || e.Mul?) && Crossable(Next(e, t), t, env))
    || (e.FloorDiv? && Contains(e.a, t) && Eval(e.b, env) != 0 && Crossable(e.a, t, env))
  }

  /** From e to t there are sums, differences, and products with operands other than zero. */
  predicate Linear(e: Expr, t: Expr, env: Env) {
    || e == t
    || ((e.Add? || e.Sub?) && Linear(Next(e, t), t, env))
    || (e.Mul? && Eval(Sibling(e, t), env) != 0 && Linear(Next(e, t), t, env))
  }

  /** Solving `e == v` for t by undoing one operation after the other, where that comes out even. */
  ghost predicate ComesOut(e: Expr, t: Expr, v: int, env: Env) {
    if !e.Binary() then e == t
    else
      var c := Eval(Sibling(e, t), env);
      match e
      case Add(_, _, _) => ComesOut(Next(e, t), t, v - c, env)
      case Sub(_, a, _) => ComesOut(Next(e, t), t, if Contains(a, t) then v + c else c - v, env)
      case Mul(_, _, _) => c != 0 && Divisible(v, c) && ComesOut(Next(e, t), t, FloorQuotient(v, c), env)
      case _ => false
  }

  /** The visitors get through to t exactly along such paths. */
  lemma {:induction false} InvertAnswers(o: Oracles, whole: Expr, e: Expr, t: Expr, op: CompareOp, r: Expr, env: Env)
    requires t.Var? && Count(e, t) == 1 && Count(r, t) == 0 && Decides(o, t, env)
    ensures op != Equal ==> (Invert(o, whole, e, t, op, r).Continue? <==> Crossable(e, t, env))
    ensures op == Equal ==> (Invert(o, whole, e, t, op, r).Continue? <==> ComesOut(e, t, Eval(r, env), env))
    decreases e
  {
    if e.Binary() {
      CountPath(e, t);
      InvertUnfold(o, whole, e, t, op, r);
      StepAnswers(o, whole, e, t, op, r, env);
      var step := StepThrough(o, whole, e, t, op, r);
      hide StepThrough, Decides, Invert, Count, Eval, Divisible, FloorQuotient;
      if step.Continue? {
        StepFree(o, whole, e, t, op, r);
        InvertAnswers(o, whole, Next(e, t), t, step.op, step.r, env);
      }
    }
  }

  /** What one node does with a comparison. */
  lemma StepAnswers(o: Oracles, whole: Expr, e: Expr, t: Expr, op: CompareOp, r: Expr, env: Env)
    requires t.Var? && e.Binary() && Count(Sibling(e, t), t) == 0 && Count(r, t) == 0 && Decides(o, t, env)
    ensures var step, c, v := StepThrough(o, whole, e, t, op, r), Eval(Sibling(e, t), env), Eval(r, env);
            && (op != Equal ==>
                  (step.Continue? <==> e.Add? || e.Sub? || e.Mul? || (e.FloorDiv? && Contains(e.a, t) && c != 0)))
            && (op == Equal ==>
                  (step.Continue? <==> e.Add? || e.Sub? || (e.Mul? && c != 0 && Divisible(v, c))))
            && (step.Continue? ==> (step.op == Equal <==> op == Equal))
            && (step.Continue? && e.Add? ==> Eval(step.r, env) == v - c)
            && (step.Continue? && e.Sub? ==> Eval(step.r, env) == if Contains(e.a, t) then v + c else c - v)
            && (step.Continue? && e.Mul? && op == Equal ==> Eval(step.r, env) == FloorQuotient(v, c))
  {
    var other := Sibling(e, t);
    assert GetSign(o, whole, other) != Unknown;
    if e.Mul? && StepThrough(o, whole, e, t, op, r).Continue? {
      MulValue(o, whole, e, t, op, r, env);
    }
    hide Divisible, FloorQuotient, GetSign;
  }

  /** Undoing one operation keeps the solutions. */
  lemma UndoSum(e: Expr, t: Expr, v: int, env: Env, x: int)
    requires t.Var? && (e.Add? || e.Sub?) && Count(Sibling(e, t), t) == 0
    ensures var c, y := Eval(Sibling(e, t), env), Eval(Next(e, t), Assign(env, t, x));
            Eval(e, Assign(env, t, x)) == v <==> y == (if e.Add? then v - c else if Contains(e.a, t) then v + c else c - v)
  {
    EvalIndependent(Sibling(e, t), t, env, x);
  }

  lemma UndoProduct(e: Expr, t: Expr, v: int, env: Env, x: int)
    requires t.Var? && e.Mul? && Count(Sibling(e, t), t) == 0 && Eval(Sibling(e, t), env) != 0
    ensures var c, y := Eval(Sibling(e, t), env), Eval(Next(e, t), Assign(env, t, x));
            Eval(e, Assign(env, t, x)) == v <==> Divisible(v, c) && y == FloorQuotient(v, c)
  {
    var c, y := Eval(Sibling(e, t), env), Eval(Next(e, t), Assign(env, t, x));
    EvalIndependent(Sibling(e, t), t, env, x);
    EvalMul(e, t, Assign(env, t, x));
    hide Eval, FloorQuotient;
    ProductDivisible(y, c);
    if y * c == v {
      ProductOrder(y, FloorQuotient(v, c), c);
      ProductOrder(FloorQuotient(v, c), y, c);
    }
  }

  ghost predicate Solves(e: Expr, t: Expr, v: int, env: Env, x: int)
    requires t.Var?
  {
    Eval(e, Assign(env, t, x)) == v
  }

  /** An equation comes out even exactly if the path is linear and it has a solution. */
  lemma {:induction false} ComesOutExactly(e: Expr, t: Expr, v: int, env: Env)
    requires t.Var? && Count(e, t) == 1
    ensures ComesOut(e, t, v, env) <==> Linear(e, t, env) && exists x: int :: Solves(e, t, v, env, x)
    decreases e
  {
    if !e.Binary() {
      assert Solves(t, t, v, env, v);
    } else {
      CountPath(e, t);
      var next, c := Next(e, t), Eval(Sibling(e, t), env);
      hide Eval, Divisible, FloorQuotient, Count, Contains, Sibling;
      if e.Add? || e.Sub? {
        var v' := if e.Add? then v - c else if Contains(e.a, t) then v + c else c - v;
        ComesOutExactly(next, t, v', env);
        forall x: int ensures Solves(e, t, v, env, x) <==> Solves(next, t, v', env, x) {
          UndoSum(e, t, v, env, x);
        }
      } else if e.Mul? && c != 0 {
        var v' := FloorQuotient(v, c);
        ComesOutExactly(next, t, v', env);
        forall x: int ensures Solves(e, t, v, env, x) <==> Divisible(v, c) && Solves(next, t, v', env, x) {
          UndoProduct(e, t, v, env, x);
        }
      }
    }
  }

  // The whole deducer.

  /** There is something to invert exactly if t occurs once and interval evaluation gives the ends that are needed. */
  lemma PreparedExactly(o: Oracles, t: Expr, c: Cond)
    requires c.Comparison? && CondCount(c, t) == 1
    ensures var (op, e, r) := Transformed(c, t);
            var a, b := o.evalSet(e), o.evalSet(r);
            Prepared(o, t, c).Bounded? <==>
              && !IsEverything(b)
              && (op == Equal ==> IsPoint(o, a) && IsPoint(o, b))
              && var end := if op == Greater then a.min else a.max;
                 end.At? && Contains(end.e, t)
  {
  }

  /** With analyses that decide, the deducer answers exactly if the prepared comparison can be solved. */
  lemma AnswersPrepared(o: Oracles, t: Expr, c: Cond, env: Env)
    requires t.Var? && KeepsTarget(o, t, c) && Decides(o, t, env) && Prepared(o, t, c).Bounded?
    ensures var x := Prepared(o, t, c);
            Deduced(o, t, c) != NOTHING <==>
              if !x.r.At? then x.e == t
              else if x.op == Equal then Linear(x.e, t, env) && exists y: int :: Solves(x.e, t, Eval(x.r.e, env), env, y)
              else Crossable(x.e, t, env)
  {
    var x := Prepared(o, t, c);
    hide Prepared, Decides, Invert, Linear, Crossable, Eval, Count;
    if x.r.At? {
      InvertAnswers(o, x.e, x.e, t, x.op, x.r.e, env);
      ComesOutExactly(x.e, t, Eval(x.r.e, env), env);
    }
  }

  /** The side of a comparison that holds t. */
  function TargetSide(c: Cond, t: Expr): Expr
    requires c.Comparison?
  {
    if Contains(c.a, t) then c.a else c.b
  }

  /** The shapes that are answered. */
  ghost predicate Answerable(t: Expr, c: Cond, env: Env)
    requires t.Var?
  {
    && c.Comparison? && CondCount(c, t) == 1
    && var e := TargetSide(c, t);
       if c.rel == EQ then Linear(e, t, env) && exists v: int :: CondHolds(c, Assign(env, t, v))
       else Crossable(e, t, env)
  }

  /**
   With exact intervals as well, the deducer answers exactly this: an inequality whose path to the
   variable can be crossed, and an equation whose path is linear and which has a solution.
   */
  lemma AnswersExactly(t: Expr, c: Cond, env: Env)
    requires t.Var?
    ensures Deduced(DecidingOracles(t, env), t, c) != NOTHING <==> Answerable(t, c, env)
  {
    var o := DecidingOracles(t, env);
    if c.Comparison? && CondCount(c, t) == 1 {
      var (op, e, r) := Transformed(c, t);
      TransformedCount(c, t);
      ContainsIsCount(e, t);
      OraclesExist(t, c, env);
      DecidingDecides(t, env);
      PreparedIsTransformed(t, c, env);
      hide Prepared, DecidingOracles, Linear, Crossable, Deduced, KeepsTarget, Count;
      AnswersPrepared(o, t, c, env);
      forall v: int ensures CondHolds(c, Assign(env, t, v)) <==> Compare(op, Eval(e, Assign(env, t, v)), Eval(r, env)) {
        TransformedExact(c, t, Assign(env, t, v));
        EvalIndependent(r, t, env, v);
      }
      hide CondHolds, Eval;
      assert op == Equal ==> forall v: int :: CondHolds(c, Assign(env, t, v)) <==> Solves(e, t, Eval(r, env), env, v);
    }
  }

  lemma PreparedIsTransformed(t: Expr, c: Cond, env: Env)
    requires t.Var? && c.Comparison? && CondCount(c, t) == 1
    ensures var (op, e, r) := Transformed(c, t);
            && Prepared(DecidingOracles(t, env), t, c) == Bounded(op, e, At(r)) && e == TargetSide(c, t)
            && (op == Equal <==> c.rel == EQ)
  {
    TransformedCount(c, t);
    var (op, e, r) := Transformed(c, t);
    ContainsIsCount(e, t);
    hide Count;
  }

  /** And then, with proper operands, the interval is the solution set. */
  lemma SolvesExactly(t: Expr, c: Cond, env: Env)
    requires t.Var? && Answerable(t, c, env) && ProperOperands(TargetSide(c, t), t, env)
    ensures forall v: int ::
              CondHolds(c, Assign(env, t, v)) <==> InSet(v, Deduced(DecidingOracles(t, env), t, c), env)
  {
    AnswersExactly(t, c, env);
    OraclesExist(t, c, env);
    PreparedIsTransformed(t, c, env);
    hide Deduced, Prepared, DecidingOracles, OraclesHold, NothingRelaxed, DivisionExact, KeepsTarget, CondHolds, Answerable;
    DeducedIsSolutionSet(DecidingOracles(t, env), t, c, env);
  }
}
