/**
 Boolean expressions as the conjunctive-normal-form simplifier sees them: conjunction,
 disjunction, negation, constants, and any other condition as an atom. A world gives every atom a
 truth value; only some worlds are possible, since atoms are conditions on shared variables.
 */
module BoolExpr {

  datatype Expr =
    | Const(value: bool)
    | Atom(id: nat)
    | Not(e: Expr)
    | And(a: Expr, b: Expr)
    | Or(a: Expr, b: Expr)

  type World = nat -> bool

  function Eval(e: Expr, w: World): bool {
    match e
    case Const(v) => v
    case Atom(id) => w(id)
    case Not(x) => !Eval(x, w)
    case And(x, y) => Eval(x, w) && Eval(y, w)
    case Or(x, y) => Eval(x, w) || Eval(y, w)
  }

  // The operators build nodes with constants folded.

  function MkAnd(a: Expr, b: Expr): (r: Expr)
    ensures forall w :: Eval(r, w) == (Eval(a, w) && Eval(b, w))
  {
    if a.Const? then (if a.value then b else a)
    else if b.Const? then (if b.value then a else b)
    else And(a, b)
  }

  function MkOr(a: Expr, b: Expr): (r: Expr)
    ensures forall w :: Eval(r, w) == (Eval(a, w) || Eval(b, w))
  {
    if a.Const? then (if a.value then a else b)
    else if b.Const? then (if b.value then b else a)
    else Or(a, b)
  }

  function MkNot(a: Expr): (r: Expr)
    ensures forall w :: Eval(r, w) == !Eval(a, w)
  {
    if a.Const? then Const(!a.value) else Not(a)
  }

  /**
   The two entry points of the analyzer that the simplifier calls. The first argument is the
   constraint entered around the call.
   */
  datatype Analyzer = Analyzer(rewrite: (Expr, Expr) -> Expr, simplify: (Expr, Expr) -> Expr)

  /** The analyzer keeps the truth of its argument wherever the entered constraint holds. */
  ghost predicate Sound(an: Analyzer, possible: World -> bool) {
    && (forall known, e, w :: possible(w) && Eval(known, w) ==> Eval(an.rewrite(known, e), w) == Eval(e, w))
    && (forall known, e, w :: possible(w) && Eval(known, w) ==> Eval(an.simplify(known, e), w) == Eval(e, w))
  }

  ghost function EvalAll(es: seq<Expr>, w: World): bool {
    forall i | 0 <= i < |es| :: Eval(es[i], w)
  }

  ghost function EvalAny(es: seq<Expr>, w: World): bool {
    exists i | 0 <= i < |es| :: Eval(es[i], w)
  }
}

/**
 Splitting an expression into clauses and a clause into terms. The visitors pass each part to a
 callback; the part lists are what the callbacks receive, in order.
 */
module CnfParts {
  import opened BoolExpr

  /** `VisitAndExpressions`, threading the state its callback updates. */
  function VisitAnd<S>(e: Expr, s: S, callback: (S, Expr) -> S): S
    decreases e
  {
    match e
    case And(x, y) => VisitAnd(y, VisitAnd(x, s, callback), callback)
    case Or(x, y) =>
      VisitAnd(x, s, (t: S, xPart: Expr) =>
        VisitAnd(y, t, (u: S, yPart: Expr) => callback(u, MkOr(xPart, yPart))))
    case _ => callback(s, e)
  }

  /** `VisitOrExpressions`, likewise. */
  function VisitOr<S>(e: Expr, s: S, callback: (S, Expr) -> S): S
    decreases e
  {
    match e
    case Or(x, y) => VisitOr(y, VisitOr(x, s, callback), callback)
    case And(x, y) =>
      VisitOr(x, s, (t: S, xPart: Expr) =>
        VisitOr(y, t, (u: S, yPart: Expr) => callback(u, MkAnd(xPart, yPart))))
    case _ => callback(s, e)
  }

  function Fold<S>(es: seq<Expr>, s: S, f: (S, Expr) -> S): S {
    if es == [] then s else Fold(es[1..], f(s, es[0]), f)
  }

  /** All disjunctions of x with an element of ys. */
  function OrEach(x: Expr, ys: seq<Expr>): (r: seq<Expr>)
    ensures |r| == |ys| && forall i | 0 <= i < |ys| :: r[i] == MkOr(x, ys[i])
  {
    seq(|ys|, i requires 0 <= i < |ys| => MkOr(x, ys[i]))
  }

  function OrAll(xs: seq<Expr>, ys: seq<Expr>): seq<Expr> {
    if xs == [] then [] else OrEach(xs[0], ys) + OrAll(xs[1..], ys)
  }

  /** The conjuncts passed to the callback. */
  function AndParts(e: Expr): seq<Expr> {
    match e
    case And(x, y) => AndParts(x) + AndParts(y)
    case Or(x, y) => OrAll(AndParts(x), AndParts(y))
    case _ => [e]
  }

  /** The disjuncts of a clause. */
  function OrParts(e: Expr): seq<Expr> {
    if e.Or? then OrParts(e.a) + OrParts(e.b) else [e]
  }

  /** A disjunction of expressions that are neither conjunctions nor disjunctions. */
  predicate IsClause(e: Expr) {
    if e.Or? then IsClause(e.a) && IsClause(e.b) else !e.And?
  }

  lemma {:induction false} FoldAppend<S>(xs: seq<Expr>, ys: seq<Expr>, s: S, f: (S, Expr) -> S)
    ensures Fold(xs + ys, s, f) == Fold(ys, Fold(xs, s, f), f)
  {
    if xs == [] {
      assert xs + ys == ys;
    } else {
      assert (xs + ys)[1..] == xs[1..] + ys;
      FoldAppend(xs[1..], ys, f(s, xs[0]), f);
    }
  }

  lemma {:induction false} FoldOrEach<S>(x: Expr, ys: seq<Expr>, s: S, f: (S, Expr) -> S, g: (S, Expr) -> S)
    requires forall t, y :: g(t, y) == f(t, MkOr(x, y))
    ensures Fold(OrEach(x, ys), s, f) == Fold(ys, s, g)
  {
    if ys != [] {
      assert OrEach(x, ys)[1..] == OrEach(x, ys[1..]);
      FoldOrEach(x, ys[1..], g(s, ys[0]), f, g);
    }
  }

  lemma {:induction false} FoldOrAll<S>(xs: seq<Expr>, ys: seq<Expr>, s: S, f: (S, Expr) -> S, g: (S, Expr) -> S)
    requires forall t, x :: g(t, x) == Fold(OrEach(x, ys), t, f)
    ensures Fold(OrAll(xs, ys), s, f) == Fold(xs, s, g)
  {
    if xs != [] {
      FoldAppend(OrEach(xs[0], ys), OrAll(xs[1..], ys), s, f);
      FoldOrAll(xs[1..], ys, g(s, xs[0]), f, g);
    }
  }

  /** The nested callbacks receive exactly the part list, whatever state they update. */
  lemma {:induction false} VisitAndIsFold<S>(e: Expr, s: S, callback: (S, Expr) -> S)
    ensures VisitAnd(e, s, callback) == Fold(AndParts(e), s, callback)
    decreases e
  {
    match e
    case And(x, y) =>
      VisitAndIsFold(x, s, callback);
      VisitAndIsFold(y, VisitAnd(x, s, callback), callback);
      FoldAppend(AndParts(x), AndParts(y), s, callback);
    case Or(x, y) =>
      var outer := (t: S, xPart: Expr) =>
        VisitAnd(y, t, (u: S, yPart: Expr) => callback(u, MkOr(xPart, yPart)));
      forall t: S, xPart: Expr
        ensures outer(t, xPart) == Fold(OrEach(xPart, AndParts(y)), t, callback)
      {
        var inner := (u: S, yPart: Expr) => callback(u, MkOr(xPart, yPart));
        VisitAndIsFold(y, t, inner);
        FoldOrEach(xPart, AndParts(y), t, callback, inner);
      }
      FoldOrAll(AndParts(x), AndParts(y), s, callback, outer);
      VisitAndIsFold(x, s, outer);
    case _ =>
      assert Fold([e], s, callback) == Fold([], callback(s, e), callback) by { assert [e][1..] == []; }
  }

  /** On a clause the conjunction branch is never taken. */
  lemma {:induction false} VisitOrIsFold<S>(e: Expr, s: S, callback: (S, Expr) -> S)
    requires IsClause(e)
    ensures VisitOr(e, s, callback) == Fold(OrParts(e), s, callback)
    decreases e
  {
    if e.Or? {
      VisitOrIsFold(e.a, s, callback);
      VisitOrIsFold(e.b, VisitOr(e.a, s, callback), callback);
      FoldAppend(OrParts(e.a), OrParts(e.b), s, callback);
    } else {
      assert Fold([e], s, callback) == Fold([], callback(s, e), callback) by { assert [e][1..] == []; }
    }
  }

  lemma {:induction false} OrAllClauses(xs: seq<Expr>, ys: seq<Expr>)
    requires forall x | x in xs :: IsClause(x)
    requires forall y | y in ys :: IsClause(y)
    ensures forall e | e in OrAll(xs, ys) :: IsClause(e)
  {
    if xs != [] {
      OrAllClauses(xs[1..], ys);
      assert xs[0] in xs;
    }
  }

  /** Every conjunct handed out is free of conjunctions down to its terms. */
  lemma {:induction false} AndPartsAreClauses(e: Expr)
    ensures forall c | c in AndParts(e) :: IsClause(c)
  {
    match e
    case And(x, y) =>
      AndPartsAreClauses(x);
      AndPartsAreClauses(y);
    case Or(x, y) =>
      AndPartsAreClauses(x);
      AndPartsAreClauses(y);
      OrAllClauses(AndParts(x), AndParts(y));
    case _ =>
  }

  lemma {:induction false} EvalOrEach(x: Expr, ys: seq<Expr>, w: World)
    ensures EvalAll(OrEach(x, ys), w) == (Eval(x, w) || EvalAll(ys, w))
  {
    if !Eval(x, w) && EvalAll(OrEach(x, ys), w) {
      forall i | 0 <= i < |ys| ensures Eval(ys[i], w) {
        assert Eval(OrEach(x, ys)[i], w);
      }
    }
  }

  lemma EvalAllAppend(xs: seq<Expr>, ys: seq<Expr>, w: World)
    ensures EvalAll(xs + ys, w) == (EvalAll(xs, w) && EvalAll(ys, w))
  {
    if EvalAll(xs + ys, w) {
      forall i | 0 <= i < |xs| ensures Eval(xs[i], w) {
        assert (xs + ys)[i] == xs[i];
      }
      forall i | 0 <= i < |ys| ensures Eval(ys[i], w) {
        assert (xs + ys)[|xs| + i] == ys[i];
      }
    }
  }

  /** Distribution of disjunction over conjunction. */
  lemma {:induction false} EvalOrAll(xs: seq<Expr>, ys: seq<Expr>, w: World)
    ensures EvalAll(OrAll(xs, ys), w) == (EvalAll(xs, w) || EvalAll(ys, w))
  {
    if xs != [] {
      EvalOrEach(xs[0], ys, w);
      EvalOrAll(xs[1..], ys, w);
      EvalAllAppend(OrEach(xs[0], ys), OrAll(xs[1..], ys), w);
      EvalAllAppend([xs[0]], xs[1..], w);
      assert [xs[0]] + xs[1..] == xs;
      assert EvalAll([xs[0]], w) == Eval([xs[0]][0], w);
    }
  }

  /** The conjuncts together mean the expression. */
  lemma {:induction false} AndPartsMean(e: Expr, w: World)
    ensures EvalAll(AndParts(e), w) == Eval(e, w)
  {
    match e
    case And(x, y) =>
      AndPartsMean(x, w);
      AndPartsMean(y, w);
      EvalAllAppend(AndParts(x), AndParts(y), w);
    case Or(x, y) =>
      AndPartsMean(x, w);
      AndPartsMean(y, w);
      EvalOrAll(AndParts(x), AndParts(y), w);
    case _ =>
      assert EvalAll([e], w) == Eval([e][0], w);
  }

  /** The terms of an expression together mean it. */
  lemma {:induction false} OrPartsMean(e: Expr, w: World)
    ensures EvalAny(OrParts(e), w) == Eval(e, w)
  {
    if e.Or? {
      OrPartsMean(e.a, w);
      OrPartsMean(e.b, w);
      var xs, ys := OrParts(e.a), OrParts(e.b);
      if EvalAny(xs, w) {
        var i :| 0 <= i < |xs| && Eval(xs[i], w);
        assert Eval((xs + ys)[i], w);
      }
      if EvalAny(ys, w) {
        var i :| 0 <= i < |ys| && Eval(ys[i], w);
        assert Eval((xs + ys)[|xs| + i], w);
      }
    } else {
      assert EvalAny([e], w) == Eval([e][0], w);
    }
  }
}
