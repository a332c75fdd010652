/**
 What the constructor builds: one chunk for the terms of every clause, a constant alone or no
 constant, and no two chunks with the same keys.
 */
module CnfClauses {
  import opened BoolExpr
  import opened CnfParts
  import opened CnfRewriting
  import opened CnfMerging
  import opened CnfSimplify

  // Constants.

  /** Constants are folded out of clauses. */
  predicate Folded(c: Expr) {
    c.Const? || forall p | p in OrParts(c) :: !p.Const?
  }

  lemma OrFolded(x: Expr, y: Expr)
    requires Folded(x) && Folded(y)
    ensures Folded(MkOr(x, y))
  {
  }

  lemma {:induction false} OrAllFolded(xs: seq<Expr>, ys: seq<Expr>)
    requires forall x | x in xs :: Folded(x)
    requires forall y | y in ys :: Folded(y)
    ensures forall e | e in OrAll(xs, ys) :: Folded(e)
  {
    if xs != [] {
      OrAllFolded(xs[1..], ys);
      assert xs[0] in xs;
      forall i | 0 <= i < |ys| ensures Folded(OrEach(xs[0], ys)[i]) {
        OrFolded(xs[0], ys[i]);
      }
    }
  }

  lemma {:induction false} AndPartsFolded(e: Expr)
    ensures forall c | c in AndParts(e) :: Folded(c)
  {
    match e
    case And(x, y) =>
      AndPartsFolded(x);
      AndPartsFolded(y);
    case Or(x, y) =>
      AndPartsFolded(x);
      AndPartsFolded(y);
      OrAllFolded(AndParts(x), AndParts(y));
    case _ =>
  }

  predicate Plain(c: seq<Key>) {
    c != [] && KEY_TRUE !in c && KEY_FALSE !in c
  }

  lemma {:induction false} TermsPlain(table: seq<Expr>, chunk: seq<Key>, terms: seq<Expr>)
    requires ValidTable(table) && KEY_TRUE !in chunk && KEY_FALSE !in chunk
    requires chunk != [] || terms != []
    requires forall p | p in terms :: !p.Const?
    ensures Plain(AddTerms(table, chunk, terms).1)
    decreases |terms|
  {
    if terms != [] {
      var (table', k) := Intern(table, terms[0]);
      assert terms[0] in terms && table'[k] == terms[0];
      TermsPlain(table', if k in chunk then chunk else chunk + [k], terms[1..]);
    }
  }

  predicate Built(c: seq<Key>) {
    c == [KEY_TRUE] || c == [KEY_FALSE] || Plain(c)
  }

  lemma {:induction false} OrPartsSome(e: Expr)
    ensures OrParts(e) != []
  {
    if e.Or? {
      OrPartsSome(e.a);
    }
  }

  lemma ClauseBuilt(table: seq<Expr>, clause: Expr)
    requires ValidTable(table) && Folded(clause)
    ensures Built(AddTerms(table, [], OrParts(clause)).1)
  {
    OrPartsSome(clause);
    if clause.Const? {
      var (table', k) := Intern(table, clause);
      assert table'[k] == clause;
      assert k == KEY_TRUE || k == KEY_FALSE;
      assert AddTerms(table', [k], [clause][1..]) == (table', [k]);
    } else {
      TermsPlain(table, [], OrParts(clause));
    }
  }

  predicate Different(chunks: seq<seq<Key>>) {
    forall m, n | 0 <= m < n < |chunks| :: !IsPermutation(chunks[m], chunks[n])
  }

  lemma {:induction false} ClausesBuilt(table: seq<Expr>, chunks: seq<seq<Key>>, clauses: seq<Expr>)
    requires ValidTable(table) && Different(chunks)
    requires forall m | 0 <= m < |chunks| :: Built(chunks[m])
    requires forall c | c in clauses :: Folded(c)
    ensures var built := AddClauses(table, chunks, clauses).1;
            Different(built) && forall m | 0 <= m < |built| :: Built(built[m])
    decreases |clauses|
  {
    hide Built, IsPermutation, Folded, AddTerms, OrParts;
    if clauses != [] {
      assert clauses[0] in clauses;
      AddTermsMeans(table, [], OrParts(clauses[0]));
      ClauseBuilt(table, clauses[0]);
      var (table', c) := AddTerms(table, [], OrParts(clauses[0]));
      ClausesBuilt(table', if HasPermutation(chunks, c) then chunks else chunks + [c], clauses[1..]);
    }
  }

  lemma BuildForm(e: Expr)
    ensures Different(Build(e).chunks)
    ensures forall m | 0 <= m < |Build(e).chunks| :: Built(Build(e).chunks[m])
  {
    AndPartsFolded(e);
    ClausesBuilt(INITIAL_TABLE, [], AndParts(e));
  }

  // Terms.

  lemma {:induction false} ClauseTerms(clause: Expr)
    requires IsClause(clause)
    ensures forall x | x in OrParts(clause) :: !x.And? && !x.Or?
  {
    if clause.Or? {
      ClauseTerms(clause.a);
      ClauseTerms(clause.b);
    }
  }

  predicate HasTerm(table: seq<Expr>, chunk: seq<Key>, x: Expr) {
    exists i | 0 <= i < |chunk| :: chunk[i] < |table| && table[chunk[i]] == x
  }

  ghost predicate IsChunkOf(table: seq<Expr>, chunk: seq<Key>, clause: Expr) {
    forall x :: HasTerm(table, chunk, x) <==> x in OrParts(clause)
  }

  lemma HasTermLater(table: seq<Expr>, table': seq<Expr>, chunk: seq<Key>, x: Expr)
    requires table <= table' && ValidChunk(table, chunk)
    ensures HasTerm(table', chunk, x) == HasTerm(table, chunk, x)
  {
    assert forall i | 0 <= i < |chunk| :: table'[chunk[i]] == table[chunk[i]];
  }

  lemma HasTermAppend(table: seq<Expr>, chunk: seq<Key>, k: Key, x: Expr)
    requires k < |table|
    ensures HasTerm(table, if k in chunk then chunk else chunk + [k], x) == (HasTerm(table, chunk, x) || table[k] == x)
  {
    var d := chunk + [k];
    assert d[|chunk|] == k;
    assert forall i | 0 <= i < |chunk| :: d[i] == chunk[i];
  }

  lemma {:induction false} AddTermsExactly(table: seq<Expr>, chunk: seq<Key>, terms: seq<Expr>, x: Expr)
    requires ValidTable(table) && ValidChunk(table, chunk)
    ensures var (table', chunk') := AddTerms(table, chunk, terms);
            HasTerm(table', chunk', x) <==> HasTerm(table, chunk, x) || x in terms
    decreases |terms|
  {
    hide HasTerm;
    if terms != [] {
      var (table', k) := Intern(table, terms[0]);
      var chunk' := if k in chunk then chunk else chunk + [k];
      HasTermLater(table, table', chunk, x);
      HasTermAppend(table', chunk, k, x);
      AddTermsExactly(table', chunk', terms[1..], x);
      assert x in terms <==> x == terms[0] || x in terms[1..];
    }
  }

  lemma PermutationTerms(table: seq<Expr>, c: seq<Key>, d: seq<Key>, x: Expr)
    requires IsPermutation(c, d)
    ensures HasTerm(table, c, x) ==> HasTerm(table, d, x)
  {
    if HasTerm(table, c, x) {
      var i :| 0 <= i < |c| && c[i] < |table| && table[c[i]] == x;
      assert c[i] in multiset(c);
      assert c[i] in d;
      var j :| 0 <= j < |d| && d[j] == c[i];
    }
  }

  ghost predicate HasChunkOf(r: Rep, clause: Expr) {
    exists m | 0 <= m < |r.chunks| :: IsChunkOf(r.table, r.chunks[m], clause)
  }

  ghost predicate HasClauseOf(clauses: seq<Expr>, table: seq<Expr>, chunk: seq<Key>) {
    exists n | 0 <= n < |clauses| :: IsChunkOf(table, chunk, clauses[n])
  }

  lemma FirstChunk(table: seq<Expr>, clause: Expr)
    requires ValidTable(table)
    ensures var (table', c) := AddTerms(table, [], OrParts(clause)); IsChunkOf(table', c, clause)
  {
    var (table', c) := AddTerms(table, [], OrParts(clause));
    forall x ensures HasTerm(table', c, x) <==> x in OrParts(clause) {
      AddTermsExactly(table, [], OrParts(clause), x);
    }
  }

  lemma ChunkOfLater(table: seq<Expr>, table': seq<Expr>, chunk: seq<Key>, clause: Expr)
    requires table <= table' && ValidChunk(table, chunk)
    ensures IsChunkOf(table', chunk, clause) == IsChunkOf(table, chunk, clause)
  {
    forall x ensures HasTerm(table', chunk, x) == HasTerm(table, chunk, x) {
      HasTermLater(table, table', chunk, x);
    }
  }

  lemma PermutedChunkOf(table: seq<Expr>, c: seq<Key>, d: seq<Key>, clause: Expr)
    requires IsPermutation(c, d) && IsChunkOf(table, d, clause)
    ensures IsChunkOf(table, c, clause)
  {
    forall x ensures HasTerm(table, c, x) == HasTerm(table, d, x) {
      PermutationTerms(table, c, d, x);
      PermutationTerms(table, d, c, x);
    }
  }

  lemma {:induction false} AddClausesExactly(table: seq<Expr>, chunks: seq<seq<Key>>, clauses: seq<Expr>)
    requires ValidTable(table) && ValidChunks(table, chunks)
    ensures var (table', chunks') := AddClauses(table, chunks, clauses);
            && chunks <= chunks'
            && (forall n | 0 <= n < |clauses| :: HasChunkOf(Rep(table', chunks'), clauses[n]))
            && (forall m | |chunks| <= m < |chunks'| :: HasClauseOf(clauses, table', chunks'[m]))
    decreases |clauses|
  {
    hide HasTerm, IsChunkOf, IsPermutation, AddTerms, OrParts;
    if clauses != [] {
      AddTermsMeans(table, [], OrParts(clauses[0]));
      var (table1, c) := AddTerms(table, [], OrParts(clauses[0]));
      var chunks1 := if HasPermutation(chunks, c) then chunks else chunks + [c];
      FirstChunk(table, clauses[0]);
      AddClausesExactly(table1, chunks1, clauses[1..]);
      AddClausesValid(table1, chunks1, clauses[1..]);
      var (table', chunks') := AddClauses(table, chunks, clauses);
      FirstHasChunk(table1, chunks, c, clauses[0], Rep(table', chunks'));
      forall n | 0 <= n < |clauses| ensures HasChunkOf(Rep(table', chunks'), clauses[n]) {
        assert n > 0 ==> clauses[n] == clauses[1..][n - 1];
      }
      forall m | |chunks| <= m < |chunks'| ensures HasClauseOf(clauses, table', chunks'[m]) {
        if m < |chunks1| {
          ChunkOfLater(table1, table', c, clauses[0]);
          assert IsChunkOf(table', chunks'[m], clauses[0]);
        } else {
          var n :| 0 <= n < |clauses[1..]| && IsChunkOf(table', chunks'[m], clauses[1..][n]);
          assert clauses[n + 1] == clauses[1..][n];
        }
      }
    }
  }

  lemma {:induction false} AddClausesValid(table: seq<Expr>, chunks: seq<seq<Key>>, clauses: seq<Expr>)
    requires ValidTable(table) && ValidChunks(table, chunks)
    ensures var (table', chunks') := AddClauses(table, chunks, clauses);
            table <= table' && ValidTable(table') && ValidChunks(table', chunks')
    decreases |clauses|
  {
    hide IsPermutation, AddTerms, OrParts, ValidTable;
    if clauses != [] {
      AddTermsMeans(table, [], OrParts(clauses[0]));
      var (table1, c) := AddTerms(table, [], OrParts(clauses[0]));
      AddClausesValid(table1, if HasPermutation(chunks, c) then chunks else chunks + [c], clauses[1..]);
    }
  }

  lemma FirstHasChunk(table: seq<Expr>, chunks: seq<seq<Key>>, c: seq<Key>, clause: Expr, r: Rep)
    requires ValidChunks(table, chunks) && ValidChunk(table, c) && IsChunkOf(table, c, clause) && table <= r.table
    requires (if HasPermutation(chunks, c) then chunks else chunks + [c]) <= r.chunks
    ensures HasChunkOf(r, clause)
  {
    hide IsChunkOf, IsPermutation;
    if HasPermutation(chunks, c) {
      var m :| 0 <= m < |chunks| && IsPermutation(chunks[m], c);
      PermutedChunkOf(table, chunks[m], c, clause);
      ChunkOfLater(table, r.table, chunks[m], clause);
      assert r.chunks[m] == chunks[m];
    } else {
      ChunkOfLater(table, r.table, c, clause);
      assert r.chunks[|chunks|] == c;
    }
  }

  // Repetitions.

  lemma {:induction false} DistinctCount(c: seq<Key>, k: Key)
    requires Distinct(c)
    ensures multiset(c)[k] == if k in c then 1 else 0
  {
    if c != [] {
      KeySetFirst(c);
      DistinctCount(c[1..], k);
      assert c == [c[0]] + c[1..];
    }
  }

  predicate SameKeys(c: seq<Key>, d: seq<Key>) {
    Within(c, d) && Within(d, c)
  }

  /** Chunks of the same distinct keys are permutations. */
  lemma SameKeysPermuted(c: seq<Key>, d: seq<Key>)
    requires Distinct(c) && Distinct(d) && SameKeys(c, d)
    ensures IsPermutation(c, d)
  {
    forall k: Key ensures multiset(c)[k] == multiset(d)[k] {
      DistinctCount(c, k);
      DistinctCount(d, k);
    }
    assert multiset(c) == multiset(d);
    assert |c| == |multiset(c)| && |d| == |multiset(d)|;
  }

  /** One chunk for the terms of each clause, no other, and no two with the same keys. */
  lemma BuildExactly(e: Expr)
    ensures var r := Build(e);
            && (forall n | 0 <= n < |AndParts(e)| :: HasChunkOf(r, AndParts(e)[n]))
            && (forall m | 0 <= m < |r.chunks| :: HasClauseOf(AndParts(e), r.table, r.chunks[m]))
            && (forall m, n | 0 <= m < n < |r.chunks| :: !SameKeys(r.chunks[m], r.chunks[n]))
  {
    AddClausesExactly(INITIAL_TABLE, [], AndParts(e));
    BuildForm(e);
    var r := Build(e);
    forall m, n | 0 <= m < n < |r.chunks| && SameKeys(r.chunks[m], r.chunks[n]) ensures false {
      SameKeysPermuted(r.chunks[m], r.chunks[n]);
    }
  }

  /** Every key in them stands for an expression that is neither a conjunction nor a disjunction. */
  lemma BuiltTerms(e: Expr, m: nat, i: nat)
    requires m < |Build(e).chunks| && i < |Build(e).chunks[m]|
    ensures var r := Build(e); var x := r.table[r.chunks[m][i]]; !x.And? && !x.Or?
  {
    var r := Build(e);
    BuildExactly(e);
    AndPartsAreClauses(e);
    assert HasClauseOf(AndParts(e), r.table, r.chunks[m]);
    var n :| 0 <= n < |AndParts(e)| && IsChunkOf(r.table, r.chunks[m], AndParts(e)[n]);
    ClauseTerms(AndParts(e)[n]);
    assert HasTerm(r.table, r.chunks[m], r.table[r.chunks[m][i]]);
  }
}
