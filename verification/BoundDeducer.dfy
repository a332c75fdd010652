/**
 `VariablePathFinder`, `BoundDeducer` and `DeduceBound`: the path to the variable, the relaxation
 of the other variables, and the visitors that move everything else to the other side.
 */
module BoundDeducerClass {
  import opened IntExpr
  import opened BoundInversion

  // The path to the variable.

  /** The nodes from e down to t. */
  function PathTo(e: Expr, t: Expr): (p: seq<Expr>)
    requires Contains(e, t)
    ensures |p| >= 1 && p[0] == e && p[|p| - 1] == t
    decreases e
  {
    if e == t then [e] else [e] + PathTo(Next(e, t), t)
  }

  lemma PathStep(before: seq<Expr>, e: Expr, t: Expr)
    requires Contains(e, t) && e != t
    ensures before + PathTo(e, t) == (before + [e]) + PathTo(Next(e, t), t)
  {
  }

  function Size(e: Expr): nat {
    1 + if e.Binary() then Size(e.a) + Size(e.b) else 0
  }

  class VariablePathFinder {
    const target: Expr
    var path: seq<Expr>
    var found: bool
    var visited: set<Expr>

    constructor (t: Expr)
      ensures target == t && path == [] && !found && visited == {}
    {
      target := t;
      path, found, visited := [], false, {};
    }

    /** Nodes already visited are on the current path or do not contain the target. */
    ghost predicate Searching(node: Expr)
      reads this
    {
      && (forall v | v in visited :: v in path || !Contains(v, target))
      && (forall i | 0 <= i < |path| :: Size(node) < Size(path[i]))
    }

    method Visit(node: Expr)
      requires target.Var?
      requires !found ==> Searching(node)
      modifies this
      ensures old(found) ==> found && path == old(path)
      ensures !old(found) ==> found == Contains(node, target)
      ensures !old(found) && found ==> path == old(path) + PathTo(node, target)
      ensures !old(found) && !found ==> path == old(path) && Searching(node)
      decreases node
    {
      if node in visited {
        assert !found ==> node !in path;
        return;
      }
      ghost var before := path;
      visited := visited + {node};
      if !found {
        path := path + [node];
      }
      if node == target {
        found := true;
      }
      if node.Binary() {
        Visit(node.a);
        Visit(node.b);
      }
      if !found {
        path := path[..|path| - 1];
        assert path == before;
      } else if !old(found) {
        if node != target {
          PathStep(before, node, target);
        }
      }
    }
  }

  /** The path to the variable, empty if it does not occur. */
  method GetPath(target: Expr, e: Expr) returns (path: seq<Expr>)
    requires target.Var?
    ensures path == if Contains(e, target) then PathTo(e, target) else []
  {
    var finder := new VariablePathFinder(target);
    finder.Visit(e);
    path := finder.path;
  }

  // The comparison to be solved.

  datatype Relation = LT | LE | GT | GE | EQ
  datatype Cond = Comparison(rel: Relation, a: Expr, b: Expr) | NoComparison

  ghost predicate CondHolds(c: Cond, env: Env)
    requires c.Comparison?
  {
    var x, y := Eval(c.a, env), Eval(c.b, env);
    match c.rel
    case LT => x < y
    case LE => x <= y
    case GT => x > y
    case GE => x >= y
    case EQ => x == y
  }

  function CondCount(c: Cond, t: Expr): nat {
    if c.Comparison? then Count(c.a, t) + Count(c.b, t) else 0
  }

  /** `Transform`: the side with the target, the comparison it takes part in, and the other side. */
  function Transformed(c: Cond, t: Expr): (CompareOp, Expr, Expr)
    requires c.Comparison?
  {
    var left := Contains(c.a, t);
    match c.rel
    case LT => if left then (Less, c.a, Sub(0, c.b, One())) else (Greater, c.b, Add(0, c.a, One()))
    case LE => if left then (Less, c.a, c.b) else (Greater, c.b, c.a)
    case GT => if left then (Greater, c.a, Add(0, c.b, One())) else (Less, c.b, Sub(0, c.a, One()))
    case GE => if left then (Greater, c.a, c.b) else (Less, c.b, c.a)
    case EQ => if left then (Equal, c.a, c.b) else (Equal, c.b, c.a)
  }

  lemma TransformedExact(c: Cond, t: Expr, env: Env)
    requires c.Comparison?
    ensures var (op, e, r) := Transformed(c, t);
            CondHolds(c, env) <==> Compare(op, Eval(e, env), Eval(r, env))
  {
  }

  lemma TransformedCount(c: Cond, t: Expr)
    requires t.Var? && c.Comparison? && CondCount(c, t) == 1
    ensures var (op, e, r) := Transformed(c, t); Count(e, t) == 1 && Count(r, t) == 0
  {
    ContainsIsCount(c.a, t);
    ContainsIsCount(c.b, t);
  }

  // The answer.

  const NOTHING: IntSet := Interval(PosInf, NegInf)

  predicate IsEverything(s: IntSet) {
    s.min.NegInf? && s.max.PosInf?
  }

  /** The ends are provably the same value. */
  predicate IsPoint(o: Oracles, s: IntSet) {
    s.min.At? && s.max.At? && o.sameValue(s.min.e, s.max.e)
  }

  function Solutions(op: CompareOp, r: Bound): IntSet {
    match op
    case Equal => Interval(r, r)
    case Greater => Interval(r, PosInf)
    case Less => Interval(NegInf, r)
  }

  datatype Relaxation = NoBound | Bounded(op: CompareOp, e: Expr, r: Bound)

  /** `Relax`: the end of the interval of the target side and the opposite end of the other side. */
  function Relaxed(o: Oracles, op: CompareOp, e: Expr, r: Expr): Relaxation {
    var a, b := o.evalSet(e), o.evalSet(r);
    if IsEverything(a) || IsEverything(b) then NoBound
    else if op == Equal && !(IsPoint(o, b) && IsPoint(o, a)) then NoBound
    else
      var e' := if op == Greater then a.min else a.max;
      var r' := if op == Greater then b.max else b.min;
      if e'.At? then Bounded(op, e'.e, r') else NoBound
  }

  /** The comparison that is inverted, after transformation and relaxation. */
  function Prepared(o: Oracles, t: Expr, c: Cond): Relaxation {
    if !c.Comparison? || CondCount(c, t) != 1 then NoBound
    else
      var (op, e, r) := Transformed(c, t);
      var x := Relaxed(o, op, e, r);
      if x.NoBound? || !Contains(x.e, t) then NoBound else x
  }

  function Solve(o: Oracles, t: Expr, x: Relaxation): Step
    requires x.Bounded? && x.r.At?
  {
    Invert(o, x.e, x.e, t, x.op, x.r.e)
  }

  /** `DeduceBound` */
  function Deduced(o: Oracles, t: Expr, c: Cond): IntSet {
    var x := Prepared(o, t, c);
    if x.NoBound? then NOTHING
    else if !x.r.At? then (if x.e == t then Solutions(x.op, x.r) else NOTHING)
    else
      match Solve(o, t, x)
      case Fails => NOTHING
      case Continue(op, r) => Solutions(op, At(o.simplify(r)))
  }

  class BoundDeducer {
    const target: Expr
    const oracles: Oracles
    var op: CompareOp
    var result: Bound
    var expr: Expr
    var success: bool
    var path: seq<Expr>
    var iter: nat

    constructor (o: Oracles, t: Expr)
      ensures target == t && oracles == o && success && iter == 0
    {
      target, oracles := t, o;
      op, result, expr := Greater, NegInf, t;
      success, path, iter := true, [], 0;
    }

    /** The part of the path that is left is the path from e. */
    ghost predicate OnPath(e: Expr)
      reads this
    {
      success && Contains(e, target) && iter <= |path| && path[iter..] == PathTo(e, target)
    }

    /** `VisitExpr` and the visitors of the node kinds. */
    method VisitExpr(e: Expr)
      requires target.Var? && OnPath(e)
      modifies this`op, this`result, this`success, this`iter
      ensures old(result).At? ==>
                var final := Invert(oracles, expr, e, target, old(op), old(result).e);
                && success == final.Continue?
                && (success ==> op == final.op && result == At(final.r))
      ensures !old(result).At? ==>
                success == (e == target) && (success ==> op == old(op) && result == old(result))
      decreases e
    {
      // The node is the one the path expects, so the traversal never gives up here.
      assert path[iter] == path[iter..][0] == e;
      iter := iter + 1;
      if e.Var? {
        return;
      }
      InvertUnfold(oracles, expr, e, target, op, if result.At? then result.e else e);
      var child := Next(e, target);
      assert e != target && path[iter..] == path[iter - 1..][1..] == PathTo(child, target);
      assert path[iter] == path[iter..][0] == child;
      var left := e.a == path[iter];
      assert left <==> Contains(e.a, target);
      if !result.At? {
        success := false;
        return;
      }
      VisitNode(e, left);
      if success {
        VisitExpr(child);
      }
    }

    /** The arithmetic of the visitor of one node. */
    method VisitNode(e: Expr, left: bool)
      requires e.Binary() && result.At? && success && left == Contains(e.a, target)
      modifies this`op, this`result, this`success
      ensures var step := StepThrough(oracles, expr, e, target, old(op), old(result).e);
              && success == step.Continue?
              && (success ==> op == step.op && result == At(step.r))
    {
      var r := result.e;
      var operand := if left then e.b else e.a;
      match e
      case Add(_, _, _) =>
        result := At(Sub(0, r, operand));
      case Sub(_, _, _) =>
        if left {
          result := At(Add(0, r, operand));
        } else {
          result := At(Negated(Sub(0, r, operand)));
          op := Reverse(op);
        }
      case Mul(_, _, _) =>
        var sign := GetSign(oracles, expr, operand);
        if sign == Negative {
          op := Reverse(op);
        } else if sign == Unknown {
          success := false;
          return;
        }
        var divided := oracles.divides(r, operand);
        result := At(FloorDiv(0, r, operand));
        if !divided {
          if op == Greater {
            result := At(Add(0, FloorDiv(0, r, operand), One()));
          } else if op == Equal {
            success := false;
          }
        }
      case FloorDiv(_, _, _) =>
        if !left || oracles.isZero(operand) {
          success := false;
          return;
        }
        var divisor := operand;
        var sign := GetSign(oracles, expr, operand);
        if sign == Negative {
          op := Reverse(op);
          divisor := Negated(divisor);
          r := Negated(r);
        } else if sign == Unknown {
          success := false;
          return;
        }
        if op == Greater {
          result := At(Mul(0, r, divisor));
        } else if op == Equal {
          success := false;
          return;
        } else {
          result := At(Sub(0, Add(0, Mul(0, r, divisor), divisor), One()));
        }
        if sign == Negative {
          result := At(Add(0, Sub(0, result.e, divisor), One()));
        }
      case Other(_, _, _, _) =>
        success := false;
    }

    /** `Relax`, on the transformed comparison. */
    method Relax(r: Expr)
      requires success
      modifies this`expr, this`result, this`success
      ensures success == Relaxed(oracles, op, old(expr), r).Bounded?
      ensures success ==> Bounded(op, expr, result) == Relaxed(oracles, op, old(expr), r)
    {
      var a, b := oracles.evalSet(expr), oracles.evalSet(r);
      if IsEverything(a) || IsEverything(b) {
        success := false;
        return;
      }
      if op == Equal && (!IsPoint(oracles, b) || !IsPoint(oracles, a)) {
        success := false;
        return;
      }
      var e := if op == Greater then a.min else a.max;
      result := if op == Greater then b.max else b.min;
      if e.At? {
        expr := e.e;
      } else {
        success := false;
      }
    }

    /** `Deduce` */
    method Deduce(c: Cond)
      requires target.Var? && success && iter == 0
      modifies this
      ensures success ==> Solutions(op, result) == Deduced(oracles, target, c)
      ensures !success ==> Deduced(oracles, target, c) == NOTHING
    {
      if !c.Comparison? || CondCount(c, target) != 1 {
        success := false;
        return;
      }
      var transformed := Transformed(c, target);
      op, expr := transformed.0, transformed.1;
      Relax(transformed.2);
      if !success {
        return;
      }
      path := GetPath(target, expr);
      if |path| == 0 {
        success := false;
        return;
      }
      assert path[0..] == path;
      VisitExpr(expr);
      if success && result.At? {
        result := At(oracles.simplify(result.e));
      }
    }
  }

  method DeduceBound(o: Oracles, t: Expr, c: Cond) returns (r: IntSet)
    requires t.Var?
    ensures r == Deduced(o, t, c)
  {
    var d := new BoundDeducer(o, t);
    d.Deduce(c);
    if !d.success {
      return NOTHING;
    }
    var min, max := NegInf, PosInf;
    if d.op == Equal {
      min, max := d.result, d.result;
    } else if d.op == Greater {
      min := d.result;
    } else {
      max := d.result;
    }
    r := Interval(min, max);
  }

  // What the interval promises.

  ghost predicate AtLeast(v: int, b: Bound, env: Env) {
    match b
    case NegInf => true
    case PosInf => false
    case At(e) => v >= Eval(e, env)
  }

  ghost predicate AtMost(v: int, b: Bound, env: Env) {
    match b
    case NegInf => false
    case PosInf => true
    case At(e) => v <= Eval(e, env)
  }

  ghost predicate InSet(v: int, s: IntSet, env: Env) {
    AtLeast(v, s.min, env) && AtMost(v, s.max, env)
  }

  /** The analyses are right in env, which respects the hint and the relax ranges. */
  ghost predicate OraclesHold(o: Oracles, env: Env) {
    && (forall e {:trigger o.evalSet(e)} :: InSet(Eval(e, env), o.evalSet(e), env))
    && (forall a, b {:trigger o.sameValue(a, b)} :: o.sameValue(a, b) ==> Eval(a, env) == Eval(b, env))
    && (forall e {:trigger o.simplify(e)} :: Eval(o.simplify(e), env) == Eval(e, env))
    && (forall whole {:trigger SignsHold(o, whole, env)} :: SignsHold(o, whole, env))
    && DivisionHolds(o, env)
  }

  /**
   After interval evaluation the target occurs once, on its side of the comparison, and simplifying
   the bound does not bring it in.
   */
  ghost predicate KeepsTarget(o: Oracles, t: Expr, c: Cond) {
    var x := Prepared(o, t, c);
    x.Bounded? ==>
      && Count(x.e, t) == 1
      && (x.r.At? ==>
            && Count(x.r.e, t) == 0
            && (Solve(o, t, x).Continue? ==>
                  var r := Solve(o, t, x).r; Count(r, t) == 0 ==> Count(o.simplify(r), t) == 0))
  }

  /** The relaxed comparison implies the original one. */
  lemma RelaxedSound(o: Oracles, op: CompareOp, e: Expr, r: Expr, env: Env)
    requires OraclesHold(o, env) && Relaxed(o, op, e, r).Bounded?
    ensures var x := Relaxed(o, op, e, r);
            InSet(Eval(x.e, env), Solutions(x.op, x.r), env) ==> Compare(op, Eval(e, env), Eval(r, env))
  {
    assert InSet(Eval(e, env), o.evalSet(e), env) && InSet(Eval(r, env), o.evalSet(r), env);
  }

  lemma SolutionsMean(op: CompareOp, v: int, r: Expr, env: Env)
    ensures InSet(v, Solutions(op, At(r)), env) <==> Compare(op, v, Eval(r, env))
  {
  }

  /** The ends of the interval do not mention the target. */
  lemma DeducedFree(o: Oracles, t: Expr, c: Cond)
    requires t.Var? && KeepsTarget(o, t, c)
    ensures Deduced(o, t, c).min.At? ==> Count(Deduced(o, t, c).min.e, t) == 0
    ensures Deduced(o, t, c).max.At? ==> Count(Deduced(o, t, c).max.e, t) == 0
  {
    var x := Prepared(o, t, c);
    if x.Bounded? {
      if x.r.At? && Solve(o, t, x).Continue? {
        InvertFree(o, x.e, x.e, t, x.op, x.r.e);
      }
    }
  }

  lemma DeducedIndependent(o: Oracles, t: Expr, c: Cond, env: Env, v: int)
    requires t.Var? && KeepsTarget(o, t, c)
    ensures InSet(v, Deduced(o, t, c), Assign(env, t, v)) <==> InSet(v, Deduced(o, t, c), env)
  {
    DeducedFree(o, t, c);
    var s := Deduced(o, t, c);
    if s.min.At? {
      EvalIndependent(s.min.e, t, env, v);
    }
    if s.max.At? {
      EvalIndependent(s.max.e, t, env, v);
    }
  }

  /**
   Every value in the deduced interval makes the comparison true, in every environment in which
   the analyses are right and no operand on the path is zero.
   */
  lemma DeducedSound(o: Oracles, t: Expr, c: Cond, env: Env, v: int)
    requires t.Var? && KeepsTarget(o, t, c)
    requires OraclesHold(o, Assign(env, t, v))
    requires Prepared(o, t, c).Bounded? ==> ProperOperands(Prepared(o, t, c).e, t, Assign(env, t, v))
    requires InSet(v, Deduced(o, t, c), env)
    ensures c.Comparison? && CondHolds(c, Assign(env, t, v))
  {
    hide Invert, ProperOperands, Contains, Lost, Count, DivisionHolds, SignsHold;
    var env' := Assign(env, t, v);
    DeducedIndependent(o, t, c, env, v);
    var x := Prepared(o, t, c);
    var (op, e, r) := Transformed(c, t);
    assert Eval(t, env') == v;
    assert SignsHold(o, x.e, env');
    if x.r.At? {
      InvertExact(o, x.e, x.e, t, x.op, x.r.e, env');
      var final := Solve(o, t, x);
      SolutionsMean(final.op, v, o.simplify(final.r), env');
      SolutionsMean(x.op, Eval(x.e, env'), x.r.e, env');
    }
    RelaxedSound(o, op, e, r, env');
    TransformedExact(c, t, env');
  }

  /** With nothing to relax, interval evaluation returns the two sides of the comparison themselves. */
  ghost predicate NothingRelaxed(o: Oracles, t: Expr, c: Cond, env: Env)
    requires c.Comparison?
  {
    var (op, e, r) := Transformed(c, t);
    IsItself(o, e, env) && IsItself(o, r, env)
  }

  ghost predicate IsItself(o: Oracles, e: Expr, env: Env) {
    && o.evalSet(e).min.At? && o.evalSet(e).max.At?
    && Eval(o.evalSet(e).min.e, env) == Eval(e, env) && Eval(o.evalSet(e).max.e, env) == Eval(e, env)
  }

  /** With nothing relaxed, the interval misses the boundary values of products and no others. */
  lemma DeducedExact(o: Oracles, t: Expr, c: Cond, env: Env, v: int)
    requires t.Var? && KeepsTarget(o, t, c) && Deduced(o, t, c) != NOTHING
    requires OraclesHold(o, Assign(env, t, v)) && NothingRelaxed(o, t, c, Assign(env, t, v))
    requires ProperOperands(Prepared(o, t, c).e, t, Assign(env, t, v))
    ensures var x := Prepared(o, t, c);
            CondHolds(c, Assign(env, t, v)) <==>
              InSet(v, Deduced(o, t, c), env) || Lost(o, x.e, x.e, t, x.op, x.r.e, Assign(env, t, v))
  {
    hide Invert, ProperOperands, Contains, Lost, Count, DivisionHolds, SignsHold;
    var env' := Assign(env, t, v);
    DeducedIndependent(o, t, c, env, v);
    var x := Prepared(o, t, c);
    assert Eval(t, env') == v;
    assert SignsHold(o, x.e, env');
    InvertExact(o, x.e, x.e, t, x.op, x.r.e, env');
    var final := Solve(o, t, x);
    SolutionsMean(final.op, v, o.simplify(final.r), env');
    TransformedExact(c, t, env');
  }

  /** With an exact divisibility test as well, the interval is the solution set. */
  lemma DeducedIsSolutionSet(o: Oracles, t: Expr, c: Cond, env: Env)
    requires t.Var? && KeepsTarget(o, t, c) && Deduced(o, t, c) != NOTHING && DivisionExact(o, t, env)
    requires forall v: int :: OraclesHold(o, Assign(env, t, v)) && NothingRelaxed(o, t, c, Assign(env, t, v))
    requires ProperOperands(Prepared(o, t, c).e, t, env)
    ensures forall v: int :: CondHolds(c, Assign(env, t, v)) <==> InSet(v, Deduced(o, t, c), env)
  {
    var x := Prepared(o, t, c);
    forall v: int ensures CondHolds(c, Assign(env, t, v)) <==> InSet(v, Deduced(o, t, c), env) {
      assert NothingRelaxed(o, t, c, Assign(env, t, v));
      assert x.Bounded? && x.r.At?;
      hide *;
      ProperIndependent(x.e, t, env, v);
      DivisionIndependent(o, t, env, v);
      DeducedExact(o, t, c, env, v);
      NothingLost(o, x.e, x.e, t, x.op, x.r.e, Assign(env, t, v));
    }
  }

  /** With an incomplete test it still is, where no lower bound is derived at a product. */
  lemma UpperIsSolutionSet(o: Oracles, t: Expr, c: Cond, env: Env)
    requires t.Var? && KeepsTarget(o, t, c) && Deduced(o, t, c) != NOTHING
    requires forall v: int :: OraclesHold(o, Assign(env, t, v)) && NothingRelaxed(o, t, c, Assign(env, t, v))
    requires var x := Prepared(o, t, c);
             ProperOperands(x.e, t, env) && (x.r.At? ==> !LowerCrossesProduct(o, x.e, x.e, t, x.op, x.r.e))
    ensures forall v: int :: CondHolds(c, Assign(env, t, v)) <==> InSet(v, Deduced(o, t, c), env)
  {
    var x := Prepared(o, t, c);
    forall v: int ensures CondHolds(c, Assign(env, t, v)) <==> InSet(v, Deduced(o, t, c), env) {
      assert NothingRelaxed(o, t, c, Assign(env, t, v));
      assert x.Bounded? && x.r.At?;
      hide *;
      ProperIndependent(x.e, t, env, v);
      DeducedExact(o, t, c, env, v);
      UpperKeepsAll(o, x.e, x.e, t, x.op, x.r.e, Assign(env, t, v));
    }
  }

  lemma {:induction false} ProperIndependent(e: Expr, t: Expr, env: Env, v: int)
    requires t.Var? && Count(e, t) == 1 && ProperOperands(e, t, env)
    ensures ProperOperands(e, t, Assign(env, t, v))
  {
    if e.Binary() {
      CountPath(e, t);
      EvalIndependent(Sibling(e, t), t, env, v);
      ProperIndependent(Next(e, t), t, env, v);
    }
  }

  lemma DivisionIndependent(o: Oracles, t: Expr, env: Env, v: int)
    requires t.Var? && DivisionExact(o, t, env)
    ensures DivisionExact(o, t, Assign(env, t, v))
  {
    forall e | Count(e, t) == 0 ensures Eval(e, Assign(env, t, v)) == Eval(e, env) {
      EvalIndependent(e, t, env, v);
    }
    hide Eval, Divisible, Count;
  }

  // Analyses that meet all of this exist.

  /** Analyses that decide everything about expressions without t, and nothing about others. */
  ghost function DecidingOracles(t: Expr, env: Env): Oracles {
    Oracles(
      e => Interval(At(e), At(e)),
      (whole, e) =>
        if Count(e, t) != 0 then Unknown
        else if Eval(e, env) > 0 then Positive else if Eval(e, env) < 0 then Negative else Zero,
      (r, d) => Count(r, t) == 0 && Count(d, t) == 0 && Eval(d, env) != 0 && Divisible(Eval(r, env), Eval(d, env)),
      d => Count(d, t) == 0 && Eval(d, env) == 0,
      (a, b) => a == b,
      e => e)
  }

  /** The hypotheses of the theorems can be met in every environment and for every comparison. */
  lemma OraclesExist(t: Expr, c: Cond, env: Env)
    requires t.Var? && c.Comparison?
    ensures var o := DecidingOracles(t, env);
            && KeepsTarget(o, t, c) && DivisionExact(o, t, env)
            && forall v: int :: OraclesHold(o, Assign(env, t, v)) && NothingRelaxed(o, t, c, Assign(env, t, v))
  {
    var o := DecidingOracles(t, env);
    if CondCount(c, t) == 1 {
      TransformedCount(c, t);
    }
    forall v: int ensures OraclesHold(o, Assign(env, t, v)) && NothingRelaxed(o, t, c, Assign(env, t, v)) {
      forall e | Count(e, t) == 0 ensures Eval(e, Assign(env, t, v)) == Eval(e, env) {
        EvalIndependent(e, t, env, v);
      }
      hide Eval, Divisible, Count;
    }
  }
}
