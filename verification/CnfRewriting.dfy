/**
 The rewriting steps of the simplifier on values: a table of interned expressions, indexed by
 key, and chunks of keys. A chunk means the disjunction of its keys, a chunk list the conjunction
 of its chunks.
 */
module CnfRewriting {
  import opened BoolExpr

  type Key = nat
  const KEY_TRUE: Key := 0
  const KEY_FALSE: Key := 1

  predicate ValidTable(table: seq<Expr>) {
    && |table| >= 2
    && table[KEY_TRUE] == Const(true)
    && table[KEY_FALSE] == Const(false)
    && forall i, j | 0 <= i < j < |table| :: table[i] != table[j]
  }

  predicate ValidChunk(table: seq<Expr>, chunk: seq<Key>) {
    forall i | 0 <= i < |chunk| :: chunk[i] < |table|
  }

  predicate ValidChunks(table: seq<Expr>, chunks: seq<seq<Key>>) {
    forall m | 0 <= m < |chunks| :: ValidChunk(table, chunks[m])
  }

  ghost predicate ChunkHolds(table: seq<Expr>, chunk: seq<Key>, w: World) {
    exists i | 0 <= i < |chunk| :: chunk[i] < |table| && Eval(table[chunk[i]], w)
  }

  ghost predicate Holds(table: seq<Expr>, chunks: seq<seq<Key>>, w: World) {
    forall m | 0 <= m < |chunks| :: ChunkHolds(table, chunks[m], w)
  }

  // Interning.

  function IndexOf(table: seq<Expr>, e: Expr): (k: Key)
    requires e in table
    ensures k < |table| && table[k] == e
  {
    if table[0] == e then 0 else 1 + IndexOf(table[1..], e)
  }

  /** `GetKey`: an expression keeps the key it was first given. */
  function Intern(table: seq<Expr>, e: Expr): (r: (seq<Expr>, Key))
    ensures table <= r.0 && r.1 < |r.0| && r.0[r.1] == e
    ensures ValidTable(table) ==> ValidTable(r.0)
  {
    if e in table then (table, IndexOf(table, e)) else (table + [e], |table|)
  }

  /** A longer table means the same on the keys that were there. */
  lemma ExtendChunk(table: seq<Expr>, table': seq<Expr>, chunk: seq<Key>, w: World)
    requires table <= table' && ValidChunk(table, chunk)
    ensures ValidChunk(table', chunk)
    ensures ChunkHolds(table', chunk, w) == ChunkHolds(table, chunk, w)
  {
    assert forall i | 0 <= i < |chunk| :: table'[chunk[i]] == table[chunk[i]];
  }

  // Simplifying a pair of keys.

  /** `TrySimplifyOr` */
  function TryOr(an: Analyzer, table: seq<Expr>, a: Key, b: Key): (seq<Expr>, Key, Key)
    requires a < |table| && b < |table|
  {
    var joint := MkOr(table[a], table[b]);
    var simplified := an.rewrite(Const(true), joint);
    if simplified == joint then (table, a, b)
    else if simplified.Or? then
      var (table1, a') := Intern(table, simplified.a);
      var (table2, b') := Intern(table1, simplified.b);
      (table2, a', b')
    else
      var (table1, b') := Intern(table, simplified);
      (table1, KEY_FALSE, b')
  }

  /** `TrySimplifyAnd`, under an entered constraint */
  function TryAnd(an: Analyzer, known: Expr, table: seq<Expr>, a: Key, b: Key): (seq<Expr>, Key, Key)
    requires a < |table| && b < |table|
  {
    var joint := MkAnd(table[a], table[b]);
    var simplified := an.rewrite(known, joint);
    if simplified == joint then (table, a, b)
    else if simplified.And? then
      var (table1, a') := Intern(table, simplified.a);
      var (table2, b') := Intern(table1, simplified.b);
      (table2, a', b')
    else
      var (table1, b') := Intern(table, simplified);
      (table1, KEY_TRUE, b')
  }

  lemma TryOrSound(an: Analyzer, possible: World -> bool, table: seq<Expr>, a: Key, b: Key)
    requires ValidTable(table) && a < |table| && b < |table|
    ensures var (table', a', b') := TryOr(an, table, a, b);
            && table <= table' && ValidTable(table') && a' < |table'| && b' < |table'|
            && (Sound(an, possible) ==> forall w | possible(w) ::
                  (Eval(table'[a'], w) || Eval(table'[b'], w)) == (Eval(table[a], w) || Eval(table[b], w)))
  {
    var (table', a', b') := TryOr(an, table, a, b);
    var joint := MkOr(table[a], table[b]);
    var simplified := an.rewrite(Const(true), joint);
    if Sound(an, possible) {
      forall w | possible(w)
        ensures (Eval(table'[a'], w) || Eval(table'[b'], w)) == (Eval(table[a], w) || Eval(table[b], w))
      {
        assert Eval(Const(true), w);
        assert Eval(simplified, w) == Eval(joint, w);
      }
    }
  }

  lemma TryAndSound(an: Analyzer, possible: World -> bool, known: Expr, table: seq<Expr>, a: Key, b: Key)
    requires ValidTable(table) && a < |table| && b < |table|
    ensures var (table', a', b') := TryAnd(an, known, table, a, b);
            && table <= table' && ValidTable(table') && a' < |table'| && b' < |table'|
            && (Sound(an, possible) ==> forall w | possible(w) && Eval(known, w) ::
                  (Eval(table'[a'], w) && Eval(table'[b'], w)) == (Eval(table[a], w) && Eval(table[b], w)))
  {
    var (table', a', b') := TryAnd(an, known, table, a, b);
    var joint := MkAnd(table[a], table[b]);
    var simplified := an.rewrite(known, joint);
    if Sound(an, possible) {
      forall w | possible(w) && Eval(known, w)
        ensures (Eval(table'[a'], w) && Eval(table'[b'], w)) == (Eval(table[a], w) && Eval(table[b], w))
      {
        assert Eval(simplified, w) == Eval(joint, w);
      }
    }
  }

  // Within a chunk.

  /** The two inner loops of `SimplifyWithinChunks`, from positions i and j on. */
  function WithinChunk(an: Analyzer, table: seq<Expr>, chunk: seq<Key>, i: nat, j: nat): (seq<Expr>, seq<Key>)
    requires ValidTable(table) && ValidChunk(table, chunk) && i < j
    decreases |chunk| - i, |chunk| - j
  {
    if i >= |chunk| then (table, chunk)
    else if j >= |chunk| then WithinChunk(an, table, chunk, i + 1, i + 2)
    else
      TryOrSound(an, _ => true, table, chunk[i], chunk[j]);
      var (table', a, b) := TryOr(an, table, chunk[i], chunk[j]);
      WithinChunk(an, table', chunk[i := a][j := b], i, j + 1)
  }

  /** `SimplifyWithinChunks`, from chunk n on. */
  function WithinChunks(an: Analyzer, table: seq<Expr>, chunks: seq<seq<Key>>, n: nat): (seq<Expr>, seq<seq<Key>>)
    requires ValidTable(table) && ValidChunks(table, chunks)
    decreases |chunks| - n
  {
    if n >= |chunks| then (table, chunks)
    else
      WithinChunkValid(an, table, chunks[n], 0, 1);
      var (table', chunk) := WithinChunk(an, table, chunks[n], 0, 1);
      ReplaceChunkValid(table, table', chunks, n, chunk);
      WithinChunks(an, table', chunks[n := chunk], n + 1)
  }

  lemma ReplaceChunkValid(table: seq<Expr>, table': seq<Expr>, chunks: seq<seq<Key>>, n: nat, chunk: seq<Key>)
    requires table <= table' && ValidChunks(table, chunks) && n < |chunks| && ValidChunk(table', chunk)
    ensures ValidChunks(table', chunks[n := chunk])
  {
  }

  lemma {:induction false} WithinChunkValid(an: Analyzer, table: seq<Expr>, chunk: seq<Key>, i: nat, j: nat)
    requires ValidTable(table) && ValidChunk(table, chunk) && i < j
    ensures var (table', chunk') := WithinChunk(an, table, chunk, i, j);
            table <= table' && ValidTable(table') && ValidChunk(table', chunk') && |chunk'| == |chunk|
    decreases |chunk| - i, |chunk| - j
  {
    hide TryOr;
    if i < |chunk| {
      if j >= |chunk| {
        WithinChunkValid(an, table, chunk, i + 1, i + 2);
      } else {
        TryOrSound(an, _ => true, table, chunk[i], chunk[j]);
        var (table', a, b) := TryOr(an, table, chunk[i], chunk[j]);
        WithinChunkValid(an, table', chunk[i := a][j := b], i, j + 1);
      }
    }
  }

  /** Replacing two keys by a pair with the same disjunction. */
  lemma PairInChunk(table: seq<Expr>, table': seq<Expr>, chunk: seq<Key>, i: nat, j: nat, a: Key, b: Key, w: World)
    requires table <= table' && ValidChunk(table, chunk) && i < j < |chunk| && a < |table'| && b < |table'|
    requires (Eval(table'[a], w) || Eval(table'[b], w)) == (Eval(table[chunk[i]], w) || Eval(table[chunk[j]], w))
    ensures ChunkHolds(table', chunk[i := a][j := b], w) == ChunkHolds(table, chunk, w)
  {
    var chunk' := chunk[i := a][j := b];
    assert forall p | 0 <= p < |chunk| :: table'[chunk[p]] == table[chunk[p]];
    if ChunkHolds(table, chunk, w) {
      var p :| 0 <= p < |chunk| && chunk[p] < |table| && Eval(table[chunk[p]], w);
      assert p == i || p == j || chunk'[p] == chunk[p];
      assert chunk'[i] == a && chunk'[j] == b;
    }
    if ChunkHolds(table', chunk', w) {
      var p :| 0 <= p < |chunk'| && chunk'[p] < |table'| && Eval(table'[chunk'[p]], w);
      assert p == i || p == j || chunk'[p] == chunk[p];
    }
  }

  lemma {:induction false} WithinChunkSound(an: Analyzer, possible: World -> bool, table: seq<Expr>,
                                           chunk: seq<Key>, i: nat, j: nat, w: World)
    requires ValidTable(table) && ValidChunk(table, chunk) && i < j && Sound(an, possible) && possible(w)
    ensures var (table', chunk') := WithinChunk(an, table, chunk, i, j);
            ChunkHolds(table', chunk', w) == ChunkHolds(table, chunk, w)
    decreases |chunk| - i, |chunk| - j
  {
    hide TryOr, ChunkHolds;
    if i < |chunk| {
      if j >= |chunk| {
        WithinChunkSound(an, possible, table, chunk, i + 1, i + 2, w);
      } else {
        TryOrSound(an, possible, table, chunk[i], chunk[j]);
        var (table', a, b) := TryOr(an, table, chunk[i], chunk[j]);
        PairInChunk(table, table', chunk, i, j, a, b, w);
        WithinChunkSound(an, possible, table', chunk[i := a][j := b], i, j + 1, w);
      }
    }
  }

  /** Replacing one chunk by a chunk of the same truth value. */
  lemma ReplaceChunkHolds(table: seq<Expr>, table': seq<Expr>, chunks: seq<seq<Key>>, n: nat, chunk: seq<Key>, w: World)
    requires table <= table' && ValidChunks(table, chunks) && n < |chunks| && ValidChunk(table', chunk)
    requires ChunkHolds(table', chunk, w) == ChunkHolds(table, chunks[n], w)
    ensures Holds(table', chunks[n := chunk], w) == Holds(table, chunks, w)
  {
    var chunks' := chunks[n := chunk];
    forall m | 0 <= m < |chunks| ensures ChunkHolds(table', chunks'[m], w) == ChunkHolds(table, chunks[m], w) {
      if m != n {
        ExtendChunk(table, table', chunks[m], w);
      }
    }
  }

  lemma {:induction false} WithinChunksSound(an: Analyzer, possible: World -> bool, table: seq<Expr>,
                                            chunks: seq<seq<Key>>, n: nat)
    requires ValidTable(table) && ValidChunks(table, chunks)
    ensures var (table', chunks') := WithinChunks(an, table, chunks, n);
            && table <= table' && ValidTable(table') && ValidChunks(table', chunks')
            && (Sound(an, possible) ==> forall w | possible(w) ::
                  Holds(table', chunks', w) == Holds(table, chunks, w))
    decreases |chunks| - n
  {
    if n < |chunks| {
      WithinChunkValid(an, table, chunks[n], 0, 1);
      var (table', chunk) := WithinChunk(an, table, chunks[n], 0, 1);
      ReplaceChunkValid(table, table', chunks, n, chunk);
      WithinChunksSound(an, possible, table', chunks[n := chunk], n + 1);
      if Sound(an, possible) {
        forall w | possible(w) ensures Holds(table', chunks[n := chunk], w) == Holds(table, chunks, w) {
          WithinChunkSound(an, possible, table, chunks[n], 0, 1, w);
          ReplaceChunkHolds(table, table', chunks, n, chunk, w);
        }
      }
    }
  }
}
