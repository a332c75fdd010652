/**
 What the passes achieve, beside keeping the meaning: every pair is visited once and in order, the
 analyzer's answers are taken, and no clause is left that another one makes superfluous.
 */
module CnfProgress {
  import opened BoolExpr
  import opened CnfParts
  import opened CnfRewriting
  import opened CnfMerging
  import opened CnfSimplify

  // Every pair, once and in order.

  /** The pairs below n from (i, j) on. */
  function PairsFrom(i: nat, j: nat, n: nat): seq<(nat, nat)>
    requires i < j
    decreases n - i, n - j
  {
    if i >= n then []
    else if j >= n then PairsFrom(i + 1, i + 2, n)
    else [(i, j)] + PairsFrom(i, j + 1, n)
  }

  predicate Before(p: (nat, nat), q: (nat, nat)) {
    p.0 < q.0 || (p.0 == q.0 && p.1 < q.1)
  }

  /** They are the pairs of different positions that do not come before (i, j). */
  lemma {:induction false} PairsExactly(i: nat, j: nat, n: nat, p: (nat, nat))
    requires i < j
    ensures p in PairsFrom(i, j, n) <==> p.0 < p.1 < n && !Before(p, (i, j))
    decreases n - i, n - j
  {
    if i < n {
      if j >= n {
        PairsExactly(i + 1, i + 2, n, p);
      } else {
        PairsExactly(i, j + 1, n, p);
        assert p in [(i, j)] + PairsFrom(i, j + 1, n) <==> p == (i, j) || p in PairsFrom(i, j + 1, n);
      }
    }
  }

  /** Each once, in order. */
  lemma {:induction false} PairsInOrder(i: nat, j: nat, n: nat, x: nat, y: nat)
    requires i < j && x < y < |PairsFrom(i, j, n)|
    ensures Before(PairsFrom(i, j, n)[x], PairsFrom(i, j, n)[y])
    decreases n - i, n - j
  {
    if j >= n {
      PairsInOrder(i + 1, i + 2, n, x, y);
    } else {
      var rest := PairsFrom(i, j + 1, n);
      assert PairsFrom(i, j, n) == [(i, j)] + rest;
      if x == 0 {
        PairsExactly(i, j + 1, n, rest[y - 1]);
      } else {
        PairsInOrder(i, j + 1, n, x - 1, y - 1);
      }
    }
  }

  function WithinPairs(an: Analyzer, table: seq<Expr>, chunk: seq<Key>, pairs: seq<(nat, nat)>): (seq<Expr>, seq<Key>)
    requires ValidTable(table) && ValidChunk(table, chunk)
    requires forall x | 0 <= x < |pairs| :: pairs[x].0 < pairs[x].1 < |chunk|
    decreases |pairs|
  {
    if pairs == [] then (table, chunk)
    else
      var (i, j) := pairs[0];
      TryOrSound(an, _ => true, table, chunk[i], chunk[j]);
      var (table', a, b) := TryOr(an, table, chunk[i], chunk[j]);
      WithinPairs(an, table', chunk[i := a][j := b], pairs[1..])
  }

  /** The loops within a chunk simplify every pair of its keys, once and in order. */
  lemma {:induction false} WithinVisitsPairs(an: Analyzer, table: seq<Expr>, chunk: seq<Key>, i: nat, j: nat)
    requires ValidTable(table) && ValidChunk(table, chunk) && i < j
    ensures forall x | 0 <= x < |PairsFrom(i, j, |chunk|)| ::
              PairsFrom(i, j, |chunk|)[x].0 < PairsFrom(i, j, |chunk|)[x].1 < |chunk|
    ensures WithinChunk(an, table, chunk, i, j) == WithinPairs(an, table, chunk, PairsFrom(i, j, |chunk|))
    decreases |chunk| - i, |chunk| - j
  {
    hide TryOr, ValidTable, Sound, Eval;
    PairsInRange(i, j, |chunk|);
    if i < |chunk| {
      if j >= |chunk| {
        WithinVisitsPairs(an, table, chunk, i + 1, i + 2);
      } else {
        TryOrSound(an, _ => true, table, chunk[i], chunk[j]);
        var (table', a, b) := TryOr(an, table, chunk[i], chunk[j]);
        var chunk' := chunk[i := a][j := b];
        assert ValidChunk(table', chunk');
        WithinVisitsPairs(an, table', chunk', i, j + 1);
        assert WithinChunk(an, table, chunk, i, j) == WithinChunk(an, table', chunk', i, j + 1);
        assert PairsFrom(i, j, |chunk|)[1..] == PairsFrom(i, j + 1, |chunk|);
      }
    }
  }

  lemma PairsInRange(i: nat, j: nat, n: nat)
    requires i < j
    ensures forall x | 0 <= x < |PairsFrom(i, j, n)| :: PairsFrom(i, j, n)[x].0 < PairsFrom(i, j, n)[x].1 < n
  {
    forall x | 0 <= x < |PairsFrom(i, j, n)| ensures PairsFrom(i, j, n)[x].0 < PairsFrom(i, j, n)[x].1 < n {
      PairsExactly(i, j, n, PairsFrom(i, j, n)[x]);
    }
  }

  function AcrossPairs(an: Analyzer, table: seq<Expr>, chunks: seq<seq<Key>>, pairs: seq<(nat, nat)>)
    : (seq<Expr>, seq<seq<Key>>)
    requires ValidTable(table) && ValidChunks(table, chunks)
    requires forall x | 0 <= x < |pairs| :: pairs[x].0 < pairs[x].1 < |chunks|
    decreases |pairs|
  {
    if pairs == [] then (table, chunks)
    else
      var (i, j) := pairs[0];
      AcrossStepValid(an, table, chunks[i], chunks[j]);
      var (table', ci, cj) := AcrossStep(an, table, chunks[i], chunks[j]);
      AcrossPairs(an, table', chunks[i := ci][j := cj], pairs[1..])
  }

  /** The loops across chunks take every pair of chunks, once and in order. */
  lemma {:induction false} AcrossVisitsPairs(an: Analyzer, table: seq<Expr>, chunks: seq<seq<Key>>, i: nat, j: nat)
    requires ValidTable(table) && ValidChunks(table, chunks) && i < j
    ensures forall x | 0 <= x < |PairsFrom(i, j, |chunks|)| ::
              PairsFrom(i, j, |chunks|)[x].0 < PairsFrom(i, j, |chunks|)[x].1 < |chunks|
    ensures AcrossChunks(an, table, chunks, i, j) == AcrossPairs(an, table, chunks, PairsFrom(i, j, |chunks|))
    decreases |chunks| - i, |chunks| - j
  {
    hide AcrossStep, ValidTable;
    PairsInRange(i, j, |chunks|);
    if i < |chunks| {
      if j >= |chunks| {
        AcrossVisitsPairs(an, table, chunks, i + 1, i + 2);
      } else {
        AcrossStepValid(an, table, chunks[i], chunks[j]);
        var (table', ci, cj) := AcrossStep(an, table, chunks[i], chunks[j]);
        AcrossVisitsPairs(an, table', chunks[i := ci][j := cj], i, j + 1);
        assert PairsFrom(i, j, |chunks|)[1..] == PairsFrom(i, j + 1, |chunks|);
      }
    }
  }

  // The answers are taken.

  /** A pair of keys after asking about its disjunction: unchanged, the parts of the answer, or false and the answer. */
  lemma OrAnswerTaken(an: Analyzer, table: seq<Expr>, a: Key, b: Key)
    requires ValidTable(table) && a < |table| && b < |table|
    ensures var joint := MkOr(table[a], table[b]);
            var answer := an.rewrite(Const(true), joint);
            var (table', a', b') := TryOr(an, table, a, b);
            && table <= table' && a' < |table'| && b' < |table'|
            && (answer == joint ==> table'[a'] == table[a] && table'[b'] == table[b])
            && (answer != joint && answer.Or? ==> Or(table'[a'], table'[b']) == answer)
            && (answer != joint && !answer.Or? ==> table'[a'] == Const(false) && table'[b'] == answer)
  {
  }

  lemma AndAnswerTaken(an: Analyzer, known: Expr, table: seq<Expr>, a: Key, b: Key)
    requires ValidTable(table) && a < |table| && b < |table|
    ensures var joint := MkAnd(table[a], table[b]);
            var answer := an.rewrite(known, joint);
            var (table', a', b') := TryAnd(an, known, table, a, b);
            && table <= table' && a' < |table'| && b' < |table'|
            && (answer == joint ==> table'[a'] == table[a] && table'[b'] == table[b])
            && (answer != joint && answer.And? ==> And(table'[a'], table'[b']) == answer)
            && (answer != joint && !answer.And? ==> table'[a'] == Const(true) && table'[b'] == answer)
  {
  }

  /** Two clauses of one term each take the answer about their conjunction. */
  lemma SingletonsTakeAnswer(an: Analyzer, table: seq<Expr>, a: Key, b: Key)
    requires ValidTable(table) && a < |table| && b < |table|
    ensures var joint := MkAnd(table[a], table[b]);
            var answer := an.rewrite(Const(true), joint);
            var (table', ci, cj) := AcrossStep(an, table, [a], [b]);
            && table <= table' && |ci| == 1 && |cj| == 1 && ci[0] < |table'| && cj[0] < |table'|
            && (answer == joint ==> table'[ci[0]] == table[a] && table'[cj[0]] == table[b])
            && (answer != joint && answer.And? ==> And(table'[ci[0]], table'[cj[0]]) == answer)
            && (answer != joint && !answer.And? ==> table'[ci[0]] == Const(true) && table'[cj[0]] == answer)
  {
    AndAnswerTaken(an, Const(true), table, a, b);
  }

  /** If the keys of one chunk are in the other, and not both have one key, that chunk stays and the other becomes true. */
  lemma Absorbs(an: Analyzer, table: seq<Expr>, ci: seq<Key>, cj: seq<Key>)
    requires ValidTable(table) && ValidChunk(table, ci) && ValidChunk(table, cj) && !(|ci| == 1 && |cj| == 1)
    ensures Within(ci, cj) ==> AcrossStep(an, table, ci, cj) == (table, ci, [KEY_TRUE])
    ensures Within(cj, ci) && !Within(ci, cj) ==> AcrossStep(an, table, ci, cj) == (table, [KEY_TRUE], cj)
  {
  }
}
