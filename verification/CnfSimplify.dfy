/**
 The whole simplification as a function: building the chunks, simplifying within and across
 them, removing constants and printing the result.
 */
module CnfSimplify {
  import opened BoolExpr
  import opened CnfParts
  import opened CnfRewriting
  import opened CnfMerging

  // Building the chunks.

  /** The keys of the terms of a clause, without duplicates, appended to chunk. */
  function AddTerms(table: seq<Expr>, chunk: seq<Key>, terms: seq<Expr>): (seq<Expr>, seq<Key>)
    requires ValidTable(table)
    decreases |terms|
  {
    if terms == [] then (table, chunk)
    else
      var (table', k) := Intern(table, terms[0]);
      AddTerms(table', if k in chunk then chunk else chunk + [k], terms[1..])
  }

  predicate IsPermutation(c: seq<Key>, d: seq<Key>) {
    |c| == |d| && multiset(c) == multiset(d)
  }

  predicate HasPermutation(chunks: seq<seq<Key>>, c: seq<Key>) {
    exists m | 0 <= m < |chunks| :: IsPermutation(chunks[m], c)
  }

  /** The chunks of clauses, without permutations of earlier chunks, appended to chunks. */
  function AddClauses(table: seq<Expr>, chunks: seq<seq<Key>>, clauses: seq<Expr>): (seq<Expr>, seq<seq<Key>>)
    requires ValidTable(table)
    decreases |clauses|
  {
    if clauses == [] then (table, chunks)
    else
      AddTermsMeans(table, [], OrParts(clauses[0]));
      var (table', c) := AddTerms(table, [], OrParts(clauses[0]));
      AddClauses(table', if HasPermutation(chunks, c) then chunks else chunks + [c], clauses[1..])
  }

  const INITIAL_TABLE: seq<Expr> := [Const(true), Const(false)]

  lemma ChunkAppend(table: seq<Expr>, c: seq<Key>, k: Key, w: World)
    requires k < |table|
    ensures ChunkHolds(table, c + [k], w) == (ChunkHolds(table, c, w) || Eval(table[k], w))
  {
    var d := c + [k];
    assert d[|c|] == k;
    assert forall i | 0 <= i < |c| :: d[i] == c[i];
    if ChunkHolds(table, d, w) {
      var i :| 0 <= i < |d| && d[i] < |table| && Eval(table[d[i]], w);
      assert i < |c| ==> c[i] == d[i];
    }
  }

  lemma {:induction false} AddTermsMeans(table: seq<Expr>, chunk: seq<Key>, terms: seq<Expr>)
    requires ValidTable(table)
    ensures var (table', chunk') := AddTerms(table, chunk, terms);
            && table <= table' && ValidTable(table')
            && (ValidChunk(table, chunk) ==> ValidChunk(table', chunk'))
            && (Distinct(chunk) ==> Distinct(chunk'))
            && (ValidChunk(table, chunk) ==> forall w ::
                  ChunkHolds(table', chunk', w) == (ChunkHolds(table, chunk, w) || EvalAny(terms, w)))
    decreases |terms|
  {
    if terms != [] {
      var (table1, k) := Intern(table, terms[0]);
      var chunk1 := if k in chunk then chunk else chunk + [k];
      AddTermsMeans(table1, chunk1, terms[1..]);
      var (table', chunk') := AddTerms(table, chunk, terms);
      if ValidChunk(table, chunk) {
        forall w ensures ChunkHolds(table', chunk', w) == (ChunkHolds(table, chunk, w) || EvalAny(terms, w)) {
          ExtendChunk(table, table1, chunk, w);
          TermHolds(table1, chunk, k, w);
          EvalAnyFirst(terms, w);
        }
      }
    }
  }

  lemma TermHolds(table: seq<Expr>, chunk: seq<Key>, k: Key, w: World)
    requires k < |table| && ValidChunk(table, chunk)
    ensures ChunkHolds(table, if k in chunk then chunk else chunk + [k], w)
            == (ChunkHolds(table, chunk, w) || Eval(table[k], w))
  {
    if k in chunk {
      var i :| 0 <= i < |chunk| && chunk[i] == k;
    } else {
      ChunkAppend(table, chunk, k, w);
    }
  }

  lemma EvalAnyFirst(es: seq<Expr>, w: World)
    requires es != []
    ensures EvalAny(es, w) == (Eval(es[0], w) || EvalAny(es[1..], w))
  {
    if EvalAny(es[1..], w) {
      var i :| 0 <= i < |es[1..]| && Eval(es[1..][i], w);
      assert es[i + 1] == es[1..][i];
    }
    if EvalAny(es, w) && !Eval(es[0], w) {
      var i :| 0 <= i < |es| && Eval(es[i], w);
      assert es[1..][i - 1] == es[i];
    }
  }

  lemma EvalAllFirst(es: seq<Expr>, w: World)
    requires es != []
    ensures EvalAll(es, w) == (Eval(es[0], w) && EvalAll(es[1..], w))
  {
    if EvalAll(es[1..], w) && Eval(es[0], w) {
      forall i | 0 <= i < |es| ensures Eval(es[i], w) {
        assert i > 0 ==> es[i] == es[1..][i - 1];
      }
    }
    if EvalAll(es, w) {
      forall i | 0 <= i < |es[1..]| ensures Eval(es[1..][i], w) {
        assert es[1..][i] == es[i + 1];
      }
    }
  }

  lemma HoldsAppend(table: seq<Expr>, chunks: seq<seq<Key>>, c: seq<Key>, w: World)
    ensures Holds(table, chunks + [c], w) == (Holds(table, chunks, w) && ChunkHolds(table, c, w))
  {
    var all := chunks + [c];
    assert all[|chunks|] == c;
    assert forall m | 0 <= m < |chunks| :: all[m] == chunks[m];
    if Holds(table, all, w) {
      forall m | 0 <= m < |chunks| ensures ChunkHolds(table, chunks[m], w) {
        assert ChunkHolds(table, all[m], w);
      }
    }
  }

  /** Permuted chunks mean the same. */
  lemma PermutationHolds(table: seq<Expr>, c: seq<Key>, d: seq<Key>, w: World)
    requires IsPermutation(c, d)
    ensures ChunkHolds(table, c, w) == ChunkHolds(table, d, w)
  {
    SubsetHolds(table, c, d, w);
    SubsetHolds(table, d, c, w);
  }

  lemma SubsetHolds(table: seq<Expr>, c: seq<Key>, d: seq<Key>, w: World)
    requires multiset(c) == multiset(d)
    ensures ChunkHolds(table, c, w) ==> ChunkHolds(table, d, w)
  {
    if ChunkHolds(table, c, w) {
      var i :| 0 <= i < |c| && c[i] < |table| && Eval(table[c[i]], w);
      assert c[i] in multiset(c);
      assert c[i] in d;
      var j :| 0 <= j < |d| && d[j] == c[i];
    }
  }

  ghost predicate DistinctChunks(chunks: seq<seq<Key>>) {
    forall m | 0 <= m < |chunks| :: Distinct(chunks[m])
  }

  lemma ExtendChunks(table: seq<Expr>, table': seq<Expr>, chunks: seq<seq<Key>>, w: World)
    requires table <= table' && ValidChunks(table, chunks)
    ensures ValidChunks(table', chunks) && Holds(table', chunks, w) == Holds(table, chunks, w)
  {
    forall m | 0 <= m < |chunks|
      ensures ValidChunk(table', chunks[m]) && ChunkHolds(table', chunks[m], w) == ChunkHolds(table, chunks[m], w)
    {
      ExtendChunk(table, table', chunks[m], w);
    }
  }

  /** The new chunk, or the permutation of it that is already there. */
  lemma AddChunkHolds(table: seq<Expr>, chunks: seq<seq<Key>>, c: seq<Key>, w: World)
    ensures Holds(table, if HasPermutation(chunks, c) then chunks else chunks + [c], w)
            == (Holds(table, chunks, w) && ChunkHolds(table, c, w))
  {
    if HasPermutation(chunks, c) {
      var m :| 0 <= m < |chunks| && IsPermutation(chunks[m], c);
      PermutationHolds(table, chunks[m], c, w);
    } else {
      HoldsAppend(table, chunks, c, w);
    }
  }

  lemma {:induction false} AddClausesMeans(table: seq<Expr>, chunks: seq<seq<Key>>, clauses: seq<Expr>)
    requires ValidTable(table) && ValidChunks(table, chunks) && DistinctChunks(chunks)
    ensures var (table', chunks') := AddClauses(table, chunks, clauses);
            && table <= table' && ValidTable(table') && ValidChunks(table', chunks') && DistinctChunks(chunks')
            && forall w :: Holds(table', chunks', w) == (Holds(table, chunks, w) && EvalAll(clauses, w))
    decreases |clauses|
  {
    hide ChunkHolds, Holds, EvalAll, EvalAny, IsPermutation, OrParts, AddTerms;
    if clauses == [] {
      forall w ensures EvalAll(clauses, w) { EvalAllEmpty(w); }
    } else {
      AddTermsMeans(table, [], OrParts(clauses[0]));
      var (table1, c) := AddTerms(table, [], OrParts(clauses[0]));
      var chunks1 := if HasPermutation(chunks, c) then chunks else chunks + [c];
      forall w ensures Holds(table1, chunks1, w) == (Holds(table, chunks, w) && Eval(clauses[0], w)) {
        ExtendChunks(table, table1, chunks, w);
        EmptyChunk(table, w);
        OrPartsMean(clauses[0], w);
        AddChunkHolds(table1, chunks, c, w);
      }
      AddClausesMeans(table1, chunks1, clauses[1..]);
      forall w ensures EvalAll(clauses, w) == (Eval(clauses[0], w) && EvalAll(clauses[1..], w)) {
        EvalAllFirst(clauses, w);
      }
    }
  }

  lemma EvalAllEmpty(w: World)
    ensures EvalAll([], w)
  {
  }

  lemma EmptyChunk(table: seq<Expr>, w: World)
    ensures !ChunkHolds(table, [], w)
  {
  }

  /** The constructor denotes its argument, and leaves no repeated key in a chunk. */
  lemma BuildMeans(e: Expr)
    ensures var (table, chunks) := AddClauses(INITIAL_TABLE, [], AndParts(e));
            && ValidTable(table) && ValidChunks(table, chunks) && DistinctChunks(chunks)
            && forall w :: Holds(table, chunks, w) == Eval(e, w)
  {
    AddClausesMeans(INITIAL_TABLE, [], AndParts(e));
    forall w ensures EvalAll(AndParts(e), w) == Eval(e, w) {
      AndPartsMean(e, w);
    }
  }

  // Removing constants.

  function DropFalse(c: seq<Key>): (d: seq<Key>)
    ensures KEY_FALSE !in d && forall k :: k in d <==> k in c && k != KEY_FALSE
  {
    if c == [] then []
    else (if c[0] == KEY_FALSE then [] else [c[0]]) + DropFalse(c[1..])
  }

  function CleanChunk(c: seq<Key>): seq<Key> {
    if KEY_TRUE in c then [KEY_TRUE] else DropFalse(c)
  }

  function CleanChunks(chunks: seq<seq<Key>>): (r: seq<seq<Key>>)
    ensures |r| == |chunks| && forall m | 0 <= m < |r| :: r[m] == CleanChunk(chunks[m])
  {
    seq(|chunks|, m requires 0 <= m < |chunks| => CleanChunk(chunks[m]))
  }

  function DropTrue(chunks: seq<seq<Key>>): (r: seq<seq<Key>>)
    ensures forall c :: c in r <==> c in chunks && c != [KEY_TRUE]
  {
    if chunks == [] then []
    else (if chunks[0] == [KEY_TRUE] then [] else [chunks[0]]) + DropTrue(chunks[1..])
  }

  /** `RemoveTrueFalse` */
  function RemoveTrueFalse(chunks: seq<seq<Key>>): seq<seq<Key>> {
    var cleaned := CleanChunks(chunks);
    if [] in cleaned then [[]] else DropTrue(cleaned)
  }

  /** Either false outright, or no constants and no empty chunk. */
  predicate ConstantFree(chunks: seq<seq<Key>>) {
    chunks == [[]]
    || forall m | 0 <= m < |chunks| :: chunks[m] != [] && KEY_TRUE !in chunks[m] && KEY_FALSE !in chunks[m]
  }

  lemma RemoveTrueFalseForm(chunks: seq<seq<Key>>)
    ensures ConstantFree(RemoveTrueFalse(chunks))
  {
    var cleaned, r := CleanChunks(chunks), RemoveTrueFalse(chunks);
    if [] !in cleaned {
      forall m | 0 <= m < |r| ensures r[m] != [] && KEY_TRUE !in r[m] && KEY_FALSE !in r[m] {
        assert r[m] in r;
        var n :| 0 <= n < |cleaned| && cleaned[n] == r[m];
        assert cleaned[n] == CleanChunk(chunks[n]);
      }
    }
  }

  lemma CleanChunkMeans(table: seq<Expr>, c: seq<Key>, w: World)
    requires ValidTable(table) && ValidChunk(table, c)
    ensures ValidChunk(table, CleanChunk(c))
    ensures ChunkHolds(table, CleanChunk(c), w) == ChunkHolds(table, c, w)
  {
    var d := CleanChunk(c);
    if KEY_TRUE in c {
      var i :| 0 <= i < |c| && c[i] == KEY_TRUE;
      TrueChunk(table, w);
    } else {
      forall i | 0 <= i < |d| ensures d[i] < |table| {
        assert d[i] in d;
        var j :| 0 <= j < |c| && c[j] == d[i];
      }
      if ChunkHolds(table, c, w) {
        var i :| 0 <= i < |c| && c[i] < |table| && Eval(table[c[i]], w);
        assert c[i] in d;
        var j :| 0 <= j < |d| && d[j] == c[i];
      }
      if ChunkHolds(table, d, w) {
        var i :| 0 <= i < |d| && d[i] < |table| && Eval(table[d[i]], w);
        assert d[i] in d;
        var j :| 0 <= j < |c| && c[j] == d[i];
      }
    }
  }

  /** Removing constants keeps the meaning. */
  lemma RemoveTrueFalseMeans(table: seq<Expr>, chunks: seq<seq<Key>>, w: World)
    requires ValidTable(table) && ValidChunks(table, chunks)
    ensures ValidChunks(table, RemoveTrueFalse(chunks))
    ensures Holds(table, RemoveTrueFalse(chunks), w) == Holds(table, chunks, w)
  {
    var cleaned, r := CleanChunks(chunks), RemoveTrueFalse(chunks);
    forall m | 0 <= m < |chunks|
      ensures ValidChunk(table, cleaned[m]) && ChunkHolds(table, cleaned[m], w) == ChunkHolds(table, chunks[m], w)
    {
      CleanChunkMeans(table, chunks[m], w);
    }
    assert Holds(table, cleaned, w) == Holds(table, chunks, w);
    if [] in cleaned {
      var m :| 0 <= m < |cleaned| && cleaned[m] == [];
      EmptyChunk(table, w);
      assert !ChunkHolds(table, cleaned[m], w);
      assert !ChunkHolds(table, r[0], w);
    } else {
      DropTrueMeans(table, cleaned, w);
    }
  }

  lemma DropTrueMeans(table: seq<Expr>, chunks: seq<seq<Key>>, w: World)
    requires ValidTable(table) && ValidChunks(table, chunks)
    ensures ValidChunks(table, DropTrue(chunks))
    ensures Holds(table, DropTrue(chunks), w) == Holds(table, chunks, w)
  {
    var r := DropTrue(chunks);
    forall m | 0 <= m < |r| ensures ValidChunk(table, r[m]) && (Holds(table, chunks, w) ==> ChunkHolds(table, r[m], w)) {
      assert r[m] in r;
      var n :| 0 <= n < |chunks| && chunks[n] == r[m];
    }
    if Holds(table, r, w) {
      forall m | 0 <= m < |chunks| ensures ChunkHolds(table, chunks[m], w) {
        if chunks[m] == [KEY_TRUE] {
          TrueChunk(table, w);
        } else {
          assert chunks[m] in r;
          var n :| 0 <= n < |r| && r[n] == chunks[m];
        }
      }
    }
  }

  // Across chunks.

  /** `SimplifyAcrossChunks`, from the pair (i, j) on. */
  function AcrossChunks(an: Analyzer, table: seq<Expr>, chunks: seq<seq<Key>>, i: nat, j: nat): (seq<Expr>, seq<seq<Key>>)
    requires ValidTable(table) && ValidChunks(table, chunks) && i < j
    decreases |chunks| - i, |chunks| - j
  {
    if i >= |chunks| then (table, chunks)
    else if j >= |chunks| then AcrossChunks(an, table, chunks, i + 1, i + 2)
    else
      AcrossStepValid(an, table, chunks[i], chunks[j]);
      var (table', ci, cj) := AcrossStep(an, table, chunks[i], chunks[j]);
      AcrossChunks(an, table', chunks[i := ci][j := cj], i, j + 1)
  }

  /** Every differ-by-one merge that the loops make is clean. */
  predicate CleanMerges(an: Analyzer, table: seq<Expr>, chunks: seq<seq<Key>>, i: nat, j: nat)
    requires ValidTable(table) && ValidChunks(table, chunks) && i < j
    decreases |chunks| - i, |chunks| - j
  {
    if i >= |chunks| then true
    else if j >= |chunks| then CleanMerges(an, table, chunks, i + 1, i + 2)
    else
      AcrossStepValid(an, table, chunks[i], chunks[j]);
      var (table', ci, cj) := AcrossStep(an, table, chunks[i], chunks[j]);
      && (Mergeable(chunks[i], chunks[j]) ==> CleanMerge(chunks[i], chunks[j]))
      && CleanMerges(an, table', chunks[i := ci][j := cj], i, j + 1)
  }

  lemma ReplacePairHolds(table: seq<Expr>, table': seq<Expr>, chunks: seq<seq<Key>>, i: nat, j: nat,
                         ci: seq<Key>, cj: seq<Key>, w: World)
    requires table <= table' && ValidChunks(table, chunks) && i < j < |chunks|
    requires (ChunkHolds(table', ci, w) && ChunkHolds(table', cj, w))
             == (ChunkHolds(table, chunks[i], w) && ChunkHolds(table, chunks[j], w))
    ensures Holds(table', chunks[i := ci][j := cj], w) == Holds(table, chunks, w)
  {
    hide ChunkHolds;
    var chunks' := chunks[i := ci][j := cj];
    assert chunks'[i] == ci && chunks'[j] == cj;
    forall m | 0 <= m < |chunks| && m != i && m != j
      ensures ChunkHolds(table', chunks'[m], w) == ChunkHolds(table, chunks[m], w)
    {
      ExtendChunk(table, table', chunks[m], w);
    }
    if Holds(table', chunks', w) {
      forall m | 0 <= m < |chunks| ensures ChunkHolds(table, chunks[m], w) {
        assert ChunkHolds(table', chunks'[m], w) && ChunkHolds(table', chunks'[i], w) && ChunkHolds(table', chunks'[j], w);
      }
    }
    if Holds(table, chunks, w) {
      assert ChunkHolds(table, chunks[i], w) && ChunkHolds(table, chunks[j], w);
    }
  }

  lemma {:induction false} AcrossChunksSound(an: Analyzer, possible: World -> bool, table: seq<Expr>,
                                            chunks: seq<seq<Key>>, i: nat, j: nat)
    requires ValidTable(table) && ValidChunks(table, chunks) && i < j
    ensures var (table', chunks') := AcrossChunks(an, table, chunks, i, j);
            && table <= table' && ValidTable(table') && ValidChunks(table', chunks')
            && (Sound(an, possible) && CleanMerges(an, table, chunks, i, j) ==>
                  forall w | possible(w) :: Holds(table', chunks', w) == Holds(table, chunks, w))
    decreases |chunks| - i, |chunks| - j
  {
    hide AcrossStep, ChunkHolds, Holds, Sound, Mergeable, CleanMerge;
    if i < |chunks| {
      if j >= |chunks| {
        AcrossChunksSound(an, possible, table, chunks, i + 1, i + 2);
      } else {
        AcrossStepValid(an, table, chunks[i], chunks[j]);
        var (table1, ci, cj) := AcrossStep(an, table, chunks[i], chunks[j]);
        var chunks1 := chunks[i := ci][j := cj];
        AcrossChunksSound(an, possible, table1, chunks1, i, j + 1);
        if Sound(an, possible) && CleanMerges(an, table, chunks, i, j) {
          forall w | possible(w) ensures Holds(table1, chunks1, w) == Holds(table, chunks, w) {
            AcrossStepSound(an, possible, table, chunks[i], chunks[j], w);
            ReplacePairHolds(table, table1, chunks, i, j, ci, cj, w);
          }
        }
      }
    }
  }

  // Printing.

  function ChunkExpr(table: seq<Expr>, c: seq<Key>): (e: Expr)
    requires ValidChunk(table, c)
    ensures forall w :: Eval(e, w) == ChunkHolds(table, c, w)
  {
    if c == [] then Const(false)
    else
      var init, last := c[..|c| - 1], c[|c| - 1];
      assert c == init + [last];
      assert forall w :: ChunkHolds(table, c, w) == (ChunkHolds(table, init, w) || Eval(table[last], w)) by {
        forall w ensures ChunkHolds(table, c, w) == (ChunkHolds(table, init, w) || Eval(table[last], w)) {
          ChunkAppend(table, init, last, w);
        }
      }
      MkOr(ChunkExpr(table, init), table[last])
  }

  /** `AsPrimExpr` */
  function AsExpr(table: seq<Expr>, chunks: seq<seq<Key>>): (e: Expr)
    requires ValidChunks(table, chunks)
    ensures forall w :: Eval(e, w) == Holds(table, chunks, w)
  {
    if chunks == [] then Const(true)
    else
      var init, last := chunks[..|chunks| - 1], chunks[|chunks| - 1];
      assert chunks == init + [last];
      assert forall w :: Holds(table, chunks, w) == (Holds(table, init, w) && ChunkHolds(table, last, w)) by {
        forall w ensures Holds(table, chunks, w) == (Holds(table, init, w) && ChunkHolds(table, last, w)) {
          HoldsAppend(table, init, last, w);
        }
      }
      MkAnd(AsExpr(table, init), ChunkExpr(table, last))
  }

  // The whole.

  datatype Rep = Rep(table: seq<Expr>, chunks: seq<seq<Key>>) {
    predicate Valid() {
      ValidTable(table) && ValidChunks(table, chunks)
    }
  }

  function Build(e: Expr): (r: Rep)
    ensures r.Valid() && DistinctChunks(r.chunks) && forall w :: Holds(r.table, r.chunks, w) == Eval(e, w)
  {
    BuildMeans(e);
    var (table, chunks) := AddClauses(INITIAL_TABLE, [], AndParts(e));
    Rep(table, chunks)
  }

  /** The state in which `SimplifyAcrossChunks` starts. */
  function BeforeAcross(an: Analyzer, r: Rep): (r': Rep)
    requires r.Valid()
    ensures r'.Valid() && ConstantFree(r'.chunks)
  {
    WithinChunksSound(an, _ => true, r.table, r.chunks, 0);
    var (table, chunks) := WithinChunks(an, r.table, r.chunks, 0);
    RemoveTrueFalseMeans(table, chunks, _ => true);
    RemoveTrueFalseForm(chunks);
    Rep(table, RemoveTrueFalse(chunks))
  }

  /** `Simplify` */
  function SimplifyRep(an: Analyzer, r: Rep): (r': Rep)
    requires r.Valid()
    ensures r'.Valid() && ConstantFree(r'.chunks)
  {
    var r1 := BeforeAcross(an, r);
    AcrossChunksSound(an, _ => true, r1.table, r1.chunks, 0, 1);
    var (table, chunks) := AcrossChunks(an, r1.table, r1.chunks, 0, 1);
    RemoveTrueFalseMeans(table, chunks, _ => true);
    RemoveTrueFalseForm(chunks);
    Rep(table, RemoveTrueFalse(chunks))
  }

  predicate CleanRun(an: Analyzer, r: Rep)
    requires r.Valid()
  {
    CleanMerges(an, BeforeAcross(an, r).table, BeforeAcross(an, r).chunks, 0, 1)
  }

  /** Simplification keeps the meaning in every possible world, for every sound analyzer. */
  lemma SimplifyRepSound(an: Analyzer, possible: World -> bool, r: Rep, w: World)
    requires r.Valid() && Sound(an, possible) && CleanRun(an, r) && possible(w)
    ensures var r' := SimplifyRep(an, r); Holds(r'.table, r'.chunks, w) == Holds(r.table, r.chunks, w)
  {
    hide Holds, Sound, CleanMerges, WithinChunks, AcrossChunks, RemoveTrueFalse;
    WithinChunksSound(an, possible, r.table, r.chunks, 0);
    var (table, chunks) := WithinChunks(an, r.table, r.chunks, 0);
    RemoveTrueFalseMeans(table, chunks, w);
    var r1 := BeforeAcross(an, r);
    AcrossChunksSound(an, possible, r1.table, r1.chunks, 0, 1);
    var (table2, chunks2) := AcrossChunks(an, r1.table, r1.chunks, 0, 1);
    RemoveTrueFalseMeans(table2, chunks2, w);
  }

  /** `SimplifyAsAndOfOrs` */
  function SimplifySpec(an: Analyzer, e: Expr): Expr {
    var r := SimplifyRep(an, Build(an.simplify(Const(true), e)));
    AsExpr(r.table, r.chunks)
  }

  lemma SimplifySpecSound(an: Analyzer, possible: World -> bool, e: Expr, w: World)
    requires Sound(an, possible) && possible(w)
    requires CleanRun(an, Build(an.simplify(Const(true), e)))
    ensures Eval(SimplifySpec(an, e), w) == Eval(e, w)
  {
    assert Eval(Const(true), w);
    hide SimplifyRep, CleanRun, Build;
    SimplifyRepSound(an, possible, Build(an.simplify(Const(true), e)), w);
  }
}
