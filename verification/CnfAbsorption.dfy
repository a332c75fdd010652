/**
 Absorption over a whole simplification. With an analyzer that returns its argument the result is
 the set of minimal clauses: none lies within another, each was built from the expression, and
 every clause built has one of them within it.
 */
module CnfAbsorption {
  import opened BoolExpr
  import opened CnfParts
  import opened CnfRewriting
  import opened CnfMerging
  import opened CnfSimplify
  import opened CnfClauses
  import opened CnfProgress

  ghost predicate ReturnsArgument(an: Analyzer) {
    forall known, e :: an.rewrite(known, e) == e
  }

  predicate Apart(c: seq<Key>, d: seq<Key>) {
    !Within(c, d) && !Within(d, c)
  }

  // Removing constants from the chunks built.

  lemma {:induction false} DropFalseSame(c: seq<Key>)
    requires KEY_FALSE !in c
    ensures DropFalse(c) == c
  {
    if c != [] {
      DropFalseSame(c[1..]);
    }
  }

  /** Chunks at two places after dropping true were at two places before, in the same order. */
  lemma {:induction false} DropTrueOrder(chunks: seq<seq<Key>>, m: nat, n: nat) returns (i: nat, j: nat)
    requires m < n < |DropTrue(chunks)|
    ensures i < j < |chunks| && chunks[i] == DropTrue(chunks)[m] && chunks[j] == DropTrue(chunks)[n]
  {
    var rest := chunks[1..];
    if chunks[0] == [KEY_TRUE] {
      i, j := DropTrueOrder(rest, m, n);
      i, j := i + 1, j + 1;
    } else if m == 0 {
      assert DropTrue(chunks)[n] == DropTrue(rest)[n - 1];
      assert DropTrue(rest)[n - 1] in rest;
      var k :| 0 <= k < |rest| && rest[k] == DropTrue(rest)[n - 1];
      i, j := 0, k + 1;
    } else {
      i, j := DropTrueOrder(rest, m - 1, n - 1);
      i, j := i + 1, j + 1;
    }
  }

  /** Chunks without constants, or true, are only dropped. */
  lemma CleanSame(chunks: seq<seq<Key>>)
    requires forall m | 0 <= m < |chunks| :: chunks[m] == [KEY_TRUE] || Plain(chunks[m])
    ensures RemoveTrueFalse(chunks) == DropTrue(chunks)
  {
    forall m | 0 <= m < |chunks| ensures CleanChunk(chunks[m]) == chunks[m] {
      if Plain(chunks[m]) {
        DropFalseSame(chunks[m]);
      }
    }
    assert CleanChunks(chunks) == chunks;
  }

  // Before the chunks are compared.

  lemma {:induction false} WithinChunkSame(an: Analyzer, table: seq<Expr>, chunk: seq<Key>, i: nat, j: nat)
    requires ReturnsArgument(an) && ValidTable(table) && ValidChunk(table, chunk) && i < j
    ensures WithinChunk(an, table, chunk, i, j) == (table, chunk)
    decreases |chunk| - i, |chunk| - j
  {
    if i < |chunk| {
      if j >= |chunk| {
        WithinChunkSame(an, table, chunk, i + 1, i + 2);
      } else {
        assert chunk[i := chunk[i]][j := chunk[j]] == chunk;
        WithinChunkSame(an, table, chunk, i, j + 1);
      }
    }
  }

  lemma {:induction false} WithinChunksSame(an: Analyzer, table: seq<Expr>, chunks: seq<seq<Key>>, n: nat)
    requires ReturnsArgument(an) && ValidTable(table) && ValidChunks(table, chunks)
    ensures WithinChunks(an, table, chunks, n) == (table, chunks)
    decreases |chunks| - n
  {
    if n < |chunks| {
      WithinChunkSame(an, table, chunks[n], 0, 1);
      assert chunks[n := chunks[n]] == chunks;
      WithinChunksSame(an, table, chunks, n + 1);
    }
  }

  predicate AllPlain(chunks: seq<seq<Key>>) {
    forall m | 0 <= m < |chunks| :: Plain(chunks[m])
  }

  lemma FalseCleans(chunks: seq<seq<Key>>)
    requires [KEY_FALSE] in chunks
    ensures RemoveTrueFalse(chunks) == [[]]
  {
    var m :| 0 <= m < |chunks| && chunks[m] == [KEY_FALSE];
    assert DropFalse([KEY_FALSE]) == DropFalse([KEY_FALSE][1..]);
    assert CleanChunks(chunks)[m] == [];
  }

  /** The comparison starts from the clauses of the expression, or from false alone. */
  lemma ComparisonStarts(an: Analyzer, e: Expr)
    requires ReturnsArgument(an)
    ensures var built, chunks := Build(e).chunks, BeforeAcross(an, Build(e)).chunks;
            if [KEY_FALSE] in built then chunks == [[]]
            else AllPlain(chunks) && Different(chunks) && forall c :: c in chunks <==> c in built && c != [KEY_TRUE]
  {
    hide IsPermutation, ReturnsArgument, Plain, RemoveTrueFalse, Build;
    var built := Build(e).chunks;
    BuildForm(e);
    WithinChunksSame(an, Build(e).table, built, 0);
    if [KEY_FALSE] in built {
      FalseCleans(built);
    } else {
      assert forall m | 0 <= m < |built| :: built[m] in built;
      CleanSame(built);
      var chunks := DropTrue(built);
      forall m, n | 0 <= m < n < |chunks| ensures !IsPermutation(chunks[m], chunks[n]) {
        var i, j := DropTrueOrder(built, m, n);
      }
      forall m | 0 <= m < |chunks| ensures Plain(chunks[m]) {
        assert chunks[m] in chunks;
      }
    }
  }

  // Comparing.

  lemma SingletonsStay(an: Analyzer, table: seq<Expr>, ci: seq<Key>, cj: seq<Key>)
    requires ReturnsArgument(an) && ValidTable(table) && ValidChunk(table, ci) && ValidChunk(table, cj)
    requires |ci| == 1 && |cj| == 1
    ensures AcrossStep(an, table, ci, cj) == (table, ci, cj)
    ensures IsPermutation(ci, cj) || Apart(ci, cj)
  {
    assert ci == [ci[0]] && cj == [cj[0]];
  }

  lemma UnrelatedStay(an: Analyzer, table: seq<Expr>, ci: seq<Key>, cj: seq<Key>)
    requires ReturnsArgument(an) && ValidTable(table) && ValidChunk(table, ci) && ValidChunk(table, cj)
    requires Apart(ci, cj) && !(|ci| == 1 && |cj| == 1)
    ensures AcrossStep(an, table, ci, cj) == (table, ci, cj)
  {
    var p, q := FirstOutside(ci, cj), FirstOutside(cj, ci);
    assert ci[p := ci[p]] == ci && cj[q := cj[q]] == cj;
  }

  /** One pair: at most one chunk becomes true, because the other lies within it; two that stay are apart. */
  lemma StepAbsorbs(an: Analyzer, table: seq<Expr>, ci: seq<Key>, cj: seq<Key>)
    requires ReturnsArgument(an) && ValidTable(table) && ValidChunk(table, ci) && ValidChunk(table, cj)
    requires (ci == [KEY_TRUE] || Plain(ci)) && (cj == [KEY_TRUE] || Plain(cj))
    requires ci != [KEY_TRUE] && cj != [KEY_TRUE] ==> !IsPermutation(ci, cj)
    ensures var (table', ci', cj') := AcrossStep(an, table, ci, cj);
            && table' == table
            && ((ci' == ci && cj' == cj && (ci == [KEY_TRUE] || cj == [KEY_TRUE] || Apart(ci, cj)))
                || (ci' == ci && cj' == [KEY_TRUE] && ci != [KEY_TRUE] && Within(ci, cj))
                || (ci' == [KEY_TRUE] && cj' == cj && cj != [KEY_TRUE] && Within(cj, ci)))
  {
    if |ci| == 1 && |cj| == 1 {
      SingletonsStay(an, table, ci, cj);
    } else if Within(ci, cj) {
      assert ci[0] in cj;
    } else if Within(cj, ci) {
      assert cj[0] in ci;
    } else {
      UnrelatedStay(an, table, ci, cj);
    }
  }

  /** Each chunk is still as at the start, or true. */
  predicate Remains(start: seq<seq<Key>>, chunks: seq<seq<Key>>) {
    |chunks| == |start| && forall m | 0 <= m < |chunks| :: chunks[m] == start[m] || chunks[m] == [KEY_TRUE]
  }

  /** The pairs before (i, j) are settled. */
  predicate Settled(chunks: seq<seq<Key>>, i: nat, j: nat) {
    forall m: nat, n: nat | m < n < |chunks| && Before((m, n), (i, j)) ::
      chunks[m] == [KEY_TRUE] || chunks[n] == [KEY_TRUE] || Apart(chunks[m], chunks[n])
  }

  predicate Covers(chunks: seq<seq<Key>>, c: seq<Key>) {
    exists n | 0 <= n < |chunks| :: chunks[n] != [KEY_TRUE] && Within(chunks[n], c)
  }

  lemma WithinTransitive(b: seq<Key>, c: seq<Key>, d: seq<Key>)
    requires Within(b, c) && Within(c, d)
    ensures Within(b, d)
  {
    forall i | 0 <= i < |b| ensures b[i] in d {
      assert b[i] in c;
    }
  }

  /** A chunk that becomes true leaves a cover to what it covered. */
  lemma CoverMoves(chunks: seq<seq<Key>>, from: nat, to: nat, c: seq<Key>)
    requires from < |chunks| && to < |chunks| && from != to
    requires chunks[to] != [KEY_TRUE] && Within(chunks[to], chunks[from]) && Covers(chunks, c)
    ensures Covers(chunks[from := [KEY_TRUE]], c)
  {
    var chunks' := chunks[from := [KEY_TRUE]];
    var n :| 0 <= n < |chunks| && chunks[n] != [KEY_TRUE] && Within(chunks[n], c);
    if n == from {
      WithinTransitive(chunks[to], chunks[from], c);
      assert chunks'[to] != [KEY_TRUE] && Within(chunks'[to], c);
    } else {
      assert chunks'[n] != [KEY_TRUE] && Within(chunks'[n], c);
    }
  }

  lemma SettledNext(chunks: seq<seq<Key>>, chunks': seq<seq<Key>>, i: nat, j: nat)
    requires i < j < |chunks| && Settled(chunks, i, j) && Remains(chunks, chunks')
    requires chunks'[i] == [KEY_TRUE] || chunks'[j] == [KEY_TRUE] || Apart(chunks'[i], chunks'[j])
    ensures Settled(chunks', i, j + 1)
  {
    hide Apart;
    forall m: nat, n: nat | m < n < |chunks'| && Before((m, n), (i, j + 1))
      ensures chunks'[m] == [KEY_TRUE] || chunks'[n] == [KEY_TRUE] || Apart(chunks'[m], chunks'[n])
    {
      assert (m == i && n == j) || Before((m, n), (i, j));
    }
  }

  lemma SettledRow(chunks: seq<seq<Key>>, i: nat, j: nat)
    requires |chunks| <= j && Settled(chunks, i, j)
    ensures Settled(chunks, i + 1, i + 2)
  {
    hide Apart;
    forall m: nat, n: nat | m < n < |chunks| && Before((m, n), (i + 1, i + 2))
      ensures chunks[m] == [KEY_TRUE] || chunks[n] == [KEY_TRUE] || Apart(chunks[m], chunks[n])
    {
      assert Before((m, n), (i, j));
    }
  }

  ghost predicate Comparing(start: seq<seq<Key>>, chunks: seq<seq<Key>>, i: nat, j: nat) {
    && Remains(start, chunks) && Settled(chunks, i, j)
    && forall m | 0 <= m < |start| :: Covers(chunks, start[m])
  }

  lemma PlainIsNotTrue(c: seq<Key>)
    requires Plain(c)
    ensures c != [KEY_TRUE]
  {
  }

  lemma SettledAll(chunks: seq<seq<Key>>, i: nat, j: nat)
    requires |chunks| <= i && Settled(chunks, i, j)
    ensures Settled(chunks, |chunks|, |chunks| + 1)
  {
    hide Apart;
    forall m: nat, n: nat | m < n < |chunks| && Before((m, n), (|chunks|, |chunks| + 1))
      ensures chunks[m] == [KEY_TRUE] || chunks[n] == [KEY_TRUE] || Apart(chunks[m], chunks[n])
    {
      assert Before((m, n), (i, j));
    }
  }

  lemma CompareStep(an: Analyzer, table: seq<Expr>, start: seq<seq<Key>>, chunks: seq<seq<Key>>, i: nat, j: nat)
    requires ReturnsArgument(an) && ValidTable(table) && ValidChunks(table, chunks) && i < j < |chunks|
    requires AllPlain(start) && Different(start) && Comparing(start, chunks, i, j)
    ensures var (table', ci, cj) := AcrossStep(an, table, chunks[i], chunks[j]);
            table' == table && Comparing(start, chunks[i := ci][j := cj], i, j + 1)
  {
    hide AcrossStep, Plain, IsPermutation, Apart, Within, ValidTable, ReturnsArgument, Covers, Settled;
    PlainIsNotTrue(start[i]);
    PlainIsNotTrue(start[j]);
    StepAbsorbs(an, table, chunks[i], chunks[j]);
    var (table', ci, cj) := AcrossStep(an, table, chunks[i], chunks[j]);
    var chunks' := chunks[i := ci][j := cj];
    SettledNext(chunks, chunks', i, j);
    forall m | 0 <= m < |start| ensures Covers(chunks', start[m]) {
      if ci == chunks[i] && cj == chunks[j] {
        assert chunks' == chunks;
      } else if ci == chunks[i] {
        CoverMoves(chunks, j, i, start[m]);
        assert chunks' == chunks[j := [KEY_TRUE]];
      } else {
        CoverMoves(chunks, i, j, start[m]);
        assert chunks' == chunks[i := [KEY_TRUE]];
      }
    }
  }

  lemma {:induction false} AcrossAbsorbs(an: Analyzer, table: seq<Expr>, start: seq<seq<Key>>,
                                        chunks: seq<seq<Key>>, i: nat, j: nat)
    requires ReturnsArgument(an) && ValidTable(table) && ValidChunks(table, chunks) && i < j
    requires AllPlain(start) && Different(start) && Comparing(start, chunks, i, j)
    ensures Comparing(start, AcrossChunks(an, table, chunks, i, j).1, |start|, |start| + 1)
    decreases |chunks| - i, |chunks| - j
  {
    hide AcrossStep, AllPlain, Different, Covers, Settled, ValidTable, ReturnsArgument;
    if i >= |chunks| {
      SettledAll(chunks, i, j);
    } else if j >= |chunks| {
      SettledRow(chunks, i, j);
      AcrossAbsorbs(an, table, start, chunks, i + 1, i + 2);
    } else {
      CompareStep(an, table, start, chunks, i, j);
      AcrossStepValid(an, table, chunks[i], chunks[j]);
      var (table', ci, cj) := AcrossStep(an, table, chunks[i], chunks[j]);
      AcrossAbsorbs(an, table', start, chunks[i := ci][j := cj], i, j + 1);
    }
  }

  // The whole.

  /** The clauses that are left are the minimal ones. */
  ghost predicate Minimal(built: seq<seq<Key>>, left: seq<seq<Key>>) {
    && (forall m, n | 0 <= m < |left| && 0 <= n < |left| && m != n :: !Within(left[m], left[n]))
    && (forall c | c in left :: c in built)
    && (forall c | c in built && c != [KEY_TRUE] :: exists d | d in left :: Within(d, c))
  }

  lemma ApartLeft(chunks: seq<seq<Key>>, m: nat, n: nat)
    requires Settled(chunks, |chunks|, |chunks| + 1)
    requires m < n < |DropTrue(chunks)|
    ensures Apart(DropTrue(chunks)[m], DropTrue(chunks)[n])
  {
    hide Apart;
    var i, j := DropTrueOrder(chunks, m, n);
    assert Before((i, j), (|chunks|, |chunks| + 1));
    assert chunks[i] in DropTrue(chunks) && chunks[j] in DropTrue(chunks);
  }

  lemma MinimalLeft(start: seq<seq<Key>>, chunks: seq<seq<Key>>)
    requires AllPlain(start) && Comparing(start, chunks, |start|, |start| + 1)
    ensures Minimal(start, RemoveTrueFalse(chunks))
  {
    hide Plain, Within, RemoveTrueFalse, Settled;
    CleanSame(chunks);
    var left := DropTrue(chunks);
    forall m, n | 0 <= m < |left| && 0 <= n < |left| && m != n ensures !Within(left[m], left[n]) {
      if m < n {
        ApartLeft(chunks, m, n);
      } else {
        ApartLeft(chunks, n, m);
      }
    }
    forall c | c in left ensures c in start {
      var n :| 0 <= n < |chunks| && chunks[n] == c;
      assert start[n] == c;
    }
    forall c | c in start ensures exists d | d in left :: Within(d, c) {
      var m :| 0 <= m < |start| && start[m] == c;
      assert Covers(chunks, start[m]);
      var n :| 0 <= n < |chunks| && chunks[n] != [KEY_TRUE] && Within(chunks[n], c);
      assert chunks[n] in left;
    }
  }

  /** With an analyzer that returns its argument, false or the minimal clauses are left. */
  lemma LeavesMinimal(an: Analyzer, e: Expr)
    requires ReturnsArgument(an)
    ensures var built, left := Build(e).chunks, SimplifyRep(an, Build(e)).chunks;
            if [KEY_FALSE] in built then left == [[]] else Minimal(built, left)
  {
    var r := BeforeAcross(an, Build(e));
    ComparisonStarts(an, e);
    if [KEY_FALSE] in Build(e).chunks {
      assert AcrossChunks(an, r.table, [[]], 0, 1).1 == [[]];
      assert CleanChunks([[]])[0] == [];
    } else {
      forall m | 0 <= m < |r.chunks| ensures Covers(r.chunks, r.chunks[m]) {
        assert Within(r.chunks[m], r.chunks[m]);
      }
      AcrossAbsorbs(an, r.table, r.chunks, r.chunks, 0, 1);
      MinimalLeft(r.chunks, AcrossChunks(an, r.table, r.chunks, 0, 1).1);
    }
  }

  /** No clause that is left lies within another. */
  lemma NoneWithinAnother(an: Analyzer, e: Expr, m: nat, n: nat)
    requires ReturnsArgument(an)
    requires m < |SimplifyRep(an, Build(e)).chunks| && n < |SimplifyRep(an, Build(e)).chunks| && m != n
    ensures !Within(SimplifyRep(an, Build(e)).chunks[m], SimplifyRep(an, Build(e)).chunks[n])
  {
    LeavesMinimal(an, e);
  }
}
