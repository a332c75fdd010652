/** The constructor as it is written: a visitor whose callback runs another visitor. */
module CnfVisiting {
  import opened BoolExpr
  import opened CnfParts
  import opened CnfRewriting
  import opened CnfSimplify

  /** The inner callback: appends the key of a term unless the chunk has it. */
  function OnTerm(s: (seq<Expr>, seq<Key>), term: Expr): (seq<Expr>, seq<Key>) {
    var (table, k) := Intern(s.0, term);
    (table, if k in s.1 then s.1 else s.1 + [k])
  }

  /** The outer callback: appends the chunk of a clause unless it permutes an earlier one. */
  function OnClause(s: (seq<Expr>, seq<seq<Key>>), clause: Expr): (seq<Expr>, seq<seq<Key>>) {
    var (table, chunk) := VisitOr(clause, (s.0, []), OnTerm);
    (table, if HasPermutation(s.1, chunk) then s.1 else s.1 + [chunk])
  }

  lemma {:induction false} FoldTerms(table: seq<Expr>, chunk: seq<Key>, terms: seq<Expr>)
    requires ValidTable(table)
    ensures Fold(terms, (table, chunk), OnTerm) == AddTerms(table, chunk, terms)
    decreases |terms|
  {
    if terms != [] {
      hide ValidTable;
      var (table', k) := Intern(table, terms[0]);
      FoldTerms(table', if k in chunk then chunk else chunk + [k], terms[1..]);
    }
  }

  lemma {:induction false} FoldClauses(table: seq<Expr>, chunks: seq<seq<Key>>, clauses: seq<Expr>)
    requires ValidTable(table) && forall c | c in clauses :: IsClause(c)
    ensures Fold(clauses, (table, chunks), OnClause) == AddClauses(table, chunks, clauses)
    decreases |clauses|
  {
    if clauses != [] {
      hide ValidTable, IsClause, Fold, AddClauses, AddTerms;
      var first := clauses[0];
      VisitOrIsFold(first, (table, []), OnTerm);
      FoldTerms(table, [], OrParts(first));
      AddTermsMeans(table, [], OrParts(first));
      var (table', c) := AddTerms(table, [], OrParts(first));
      var chunks' := if HasPermutation(chunks, c) then chunks else chunks + [c];
      assert OnClause((table, chunks), first) == (table', chunks');
      FoldClauses(table', chunks', clauses[1..]);
      ClausesStep(table, chunks, clauses);
    } else {
      ClausesStep(table, chunks, clauses);
    }
  }

  lemma ClausesStep(table: seq<Expr>, chunks: seq<seq<Key>>, clauses: seq<Expr>)
    requires ValidTable(table)
    ensures clauses == [] ==>
              && AddClauses(table, chunks, clauses) == (table, chunks)
              && Fold(clauses, (table, chunks), OnClause) == (table, chunks)
    ensures clauses != [] ==>
              && Fold(clauses, (table, chunks), OnClause)
                 == Fold(clauses[1..], OnClause((table, chunks), clauses[0]), OnClause)
              && var (table', c) := AddTerms(table, [], OrParts(clauses[0]));
                 && ValidTable(table')
                 && AddClauses(table, chunks, clauses)
                    == AddClauses(table', if HasPermutation(chunks, c) then chunks else chunks + [c], clauses[1..])
  {
    hide OnClause, HasPermutation, AddTerms, OrParts;
    if clauses != [] {
      AddTermsMeans(table, [], OrParts(clauses[0]));
    }
  }

  /** Visiting with these callbacks builds the chunks. */
  lemma VisitorsBuild(e: Expr)
    ensures VisitAnd(e, (INITIAL_TABLE, []), OnClause) == (Build(e).table, Build(e).chunks)
  {
    assert ValidTable(INITIAL_TABLE);
    hide ValidTable, Fold, AddClauses, VisitAnd, AndParts, IsClause, OnClause;
    VisitAndIsFold(e, (INITIAL_TABLE, []), OnClause);
    AndPartsAreClauses(e);
    FoldClauses(INITIAL_TABLE, [], AndParts(e));
  }
}
