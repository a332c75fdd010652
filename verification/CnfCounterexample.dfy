/**
 A sound analyzer for which the simplifier changes the meaning of its input. Its rewrites leave a
 repeated key in each chunk, and the guard of the differ-by-one merge does not notice.
 */
module CnfCounterexample {
  import opened BoolExpr
  import opened CnfParts
  import opened CnfRewriting
  import opened CnfMerging
  import opened CnfSimplify

  const A := Atom(0)
  const B := Atom(1)
  const X := Atom(2)
  const Y := Atom(3)
  const C := Atom(4)
  const INPUT := And(Or(A, Or(B, X)), Or(A, Or(Y, C)))

  function Rewrite(known: Expr, e: Expr): Expr {
    if e == Or(B, X) then Or(B, B)
    else if e == Or(A, Y) then Or(A, A)
    else if known == And(Not(A), Not(B)) && e == And(B, C) then Const(false)
    else e
  }

  function Repeating(): Analyzer {
    Analyzer((known, e) => Rewrite(known, e), (known, e) => e)
  }

  const TABLE_0: seq<Expr> := [Const(true), Const(false), A, B, X]
  const TABLE_1: seq<Expr> := TABLE_0 + [Y, C]

  lemma SingleClause(a: Expr, b: Expr, c: Expr)
    requires a.Atom? && b.Atom? && c.Atom?
    ensures AndParts(Or(a, Or(b, c))) == [Or(a, Or(b, c))]
    ensures OrParts(Or(a, Or(b, c))) == [a, b, c]
  {
    assert AndParts(a) == [a] && AndParts(b) == [b] && AndParts(c) == [c];
    assert AndParts(Or(b, c)) == [Or(b, c)] by {
      assert OrAll([b], [c]) == OrEach(b, [c]) + OrAll([], [c]) == [Or(b, c)];
    }
    assert OrAll([a], [Or(b, c)]) == OrEach(a, [Or(b, c)]) + OrAll([], [Or(b, c)]) == [Or(a, Or(b, c))];
    assert OrParts(a) == [a] && OrParts(Or(b, c)) == [b] + [c];
    assert [a] + ([b] + [c]) == [a, b, c];
  }

  lemma BuildsTwoChunks()
    ensures Build(INPUT) == Rep(TABLE_1, [[2, 3, 4], [2, 5, 6]])
  {
    var c0, c1 := Or(A, Or(B, X)), Or(A, Or(Y, C));
    SingleClause(A, B, X);
    SingleClause(A, Y, C);
    TwoClauses(c0, c1);
    assert AndParts(INPUT) == [c0, c1];
    hide AndParts, AddClauses;
  }

  lemma TwoClauses(c0: Expr, c1: Expr)
    requires OrParts(c0) == [A, B, X] && OrParts(c1) == [A, Y, C]
    ensures AddClauses(INITIAL_TABLE, [], [c0, c1]) == (TABLE_1, [[2, 3, 4], [2, 5, 6]])
  {
    hide OrParts, AddTerms, IsPermutation;
    FirstClause();
    SecondClause();
    assert [c0, c1][1..] == [c1] && [c1][1..] == [];
    NotPermuted();
    AddClausesEnd(TABLE_1, [[2, 3, 4], [2, 5, 6]]);
    AddClausesStep(TABLE_0, [[2, 3, 4]], [c1], TABLE_1, [2, 5, 6], [[2, 3, 4], [2, 5, 6]]);
    AddClausesStep(INITIAL_TABLE, [], [c0, c1], TABLE_0, [2, 3, 4], [[2, 3, 4]]);
  }

  lemma NotPermuted()
    ensures !HasPermutation([[2, 3, 4]], [2, 5, 6])
  {
    assert 3 in multiset([2, 3, 4]) && 3 !in multiset([2, 5, 6]);
  }

  lemma AddClausesEnd(table: seq<Expr>, chunks: seq<seq<Key>>)
    requires ValidTable(table)
    ensures AddClauses(table, chunks, []) == (table, chunks)
  {
  }

  lemma AddClausesStep(table: seq<Expr>, chunks: seq<seq<Key>>, clauses: seq<Expr>,
                       table': seq<Expr>, c: seq<Key>, chunks': seq<seq<Key>>)
    requires ValidTable(table) && ValidTable(table') && clauses != []
    requires AddTerms(table, [], OrParts(clauses[0])) == (table', c)
    requires !HasPermutation(chunks, c) && chunks' == chunks + [c]
    ensures AddClauses(table, chunks, clauses) == AddClauses(table', chunks', clauses[1..])
  {
    hide AddTerms, OrParts, HasPermutation;
  }

  lemma FirstClause()
    ensures AddTerms(INITIAL_TABLE, [], [A, B, X]) == (TABLE_0, [2, 3, 4])
  {
    var t2, t3 := INITIAL_TABLE + [A], INITIAL_TABLE + [A, B];
    assert Intern(INITIAL_TABLE, A) == (t2, 2);
    assert Intern(t2, B) == (t3, 3) by { assert t2 + [B] == t3; }
    assert Intern(t3, X) == (TABLE_0, 4) by { assert t3 + [X] == TABLE_0; }
    assert [A, B, X][1..] == [B, X] && [B, X][1..] == [X] && [X][1..] == [];
    assert [] + [2] == [2] && [2] + [3] == [2, 3] && [2, 3] + [4] == [2, 3, 4];
    AddTermsStep(t3, [2, 3], [X]);
    AddTermsStep(t2, [2], [B, X]);
    AddTermsStep(INITIAL_TABLE, [], [A, B, X]);
  }

  lemma SecondTable()
    ensures ValidTable(TABLE_0) && ValidTable(TABLE_0 + [Y])
    ensures Intern(TABLE_0, A) == (TABLE_0, 2)
    ensures Intern(TABLE_0, Y) == (TABLE_0 + [Y], 5)
    ensures Intern(TABLE_0 + [Y], C) == (TABLE_1, 6)
  {
    assert TABLE_0[2] == A;
    IndexIs(TABLE_0, A, 2);
    assert TABLE_0 + [Y] + [C] == TABLE_1;
  }

  lemma SecondClause()
    ensures AddTerms(TABLE_0, [], [A, Y, C]) == (TABLE_1, [2, 5, 6])
  {
    SecondTable();
    assert AddTerms(TABLE_1, [2, 5, 6], []) == (TABLE_1, [2, 5, 6]);
    hide AddTerms, Intern, ValidTable;
    var t := TABLE_0 + [Y];
    assert [A, Y, C][1..] == [Y, C] && [Y, C][1..] == [C] && [C][1..] == [];
    assert [] + [2] == [2] && [2] + [5] == [2, 5] && [2, 5] + [6] == [2, 5, 6];
    AddTermsStep(t, [2, 5], [C]);
    AddTermsStep(TABLE_0, [2], [Y, C]);
    AddTermsStep(TABLE_0, [], [A, Y, C]);
  }

  lemma AddTermsStep(table: seq<Expr>, chunk: seq<Key>, terms: seq<Expr>)
    requires ValidTable(table) && terms != []
    ensures var (table', k) := Intern(table, terms[0]);
            AddTerms(table, chunk, terms) == AddTerms(table', if k in chunk then chunk else chunk + [k], terms[1..])
  {
  }

  lemma IndexIs(table: seq<Expr>, e: Expr, k: Key)
    requires ValidTable(table) && k < |table| && table[k] == e
    ensures IndexOf(table, e) == k
  {
  }

  lemma WithinStep(t: seq<Expr>, c: seq<Key>, i: nat, j: nat, c': seq<Key>)
    requires ValidTable(t) && ValidChunk(t, c) && i < j < |c| && ValidChunk(t, c')
    requires var (t', a, b) := TryOr(Repeating(), t, c[i], c[j]); t' == t && c' == c[i := a][j := b]
    ensures WithinChunk(Repeating(), t, c, i, j) == WithinChunk(Repeating(), t, c', i, j + 1)
  {
  }

  lemma WithinRow(t: seq<Expr>, c: seq<Key>, i: nat)
    requires ValidTable(t) && ValidChunk(t, c) && i < |c|
    ensures WithinChunk(Repeating(), t, c, i, |c|) == WithinChunk(Repeating(), t, c, i + 1, i + 2) || i == |c|
  {
  }

  lemma FirstChunkRepeats()
    ensures ValidTable(TABLE_1) && ValidChunk(TABLE_1, [2, 3, 4])
    ensures WithinChunk(Repeating(), TABLE_1, [2, 3, 4], 0, 1) == (TABLE_1, [2, 3, 3])
  {
    var an, t := Repeating(), TABLE_1;
    assert IndexOf(t, B) == 3 by { IndexIs(t, B, 3); }
    assert TryOr(an, t, 2, 3) == (t, 2, 3) && TryOr(an, t, 2, 4) == (t, 2, 4);
    assert TryOr(an, t, 3, 4) == (t, 3, 3);
    WithinStep(t, [2, 3, 4], 0, 1, [2, 3, 4]);
    WithinStep(t, [2, 3, 4], 0, 2, [2, 3, 4]);
    WithinRow(t, [2, 3, 4], 0);
    WithinStep(t, [2, 3, 4], 1, 2, [2, 3, 3]);
    WithinRow(t, [2, 3, 3], 1);
    WithinRow(t, [2, 3, 3], 2);
  }

  lemma SecondChunkRepeats()
    ensures ValidTable(TABLE_1) && ValidChunk(TABLE_1, [2, 5, 6])
    ensures WithinChunk(Repeating(), TABLE_1, [2, 5, 6], 0, 1) == (TABLE_1, [2, 2, 6])
  {
    var an, t := Repeating(), TABLE_1;
    assert IndexOf(t, A) == 2 by { IndexIs(t, A, 2); }
    assert TryOr(an, t, 2, 5) == (t, 2, 2);
    assert TryOr(an, t, 2, 6) == (t, 2, 6);
    WithinStep(t, [2, 5, 6], 0, 1, [2, 2, 6]);
    WithinStep(t, [2, 2, 6], 0, 2, [2, 2, 6]);
    WithinRow(t, [2, 2, 6], 0);
    WithinStep(t, [2, 2, 6], 1, 2, [2, 2, 6]);
    WithinRow(t, [2, 2, 6], 1);
    WithinRow(t, [2, 2, 6], 2);
  }

  /** Both chunks carry a repeated key into the merge. */
  lemma ChunksBeforeAcross()
    ensures BeforeAcross(Repeating(), Build(INPUT)) == Rep(TABLE_1, [[2, 3, 3], [2, 2, 6]])
  {
    hide WithinChunk, AndParts, AddClauses, Build, Repeating;
    BuildsTwoChunks();
    FirstChunkRepeats();
    SecondChunkRepeats();
    var an, cs := Repeating(), [[2, 3, 4], [2, 5, 6]];
    assert cs[0 := [2, 3, 3]] == [[2, 3, 3], [2, 5, 6]];
    assert [[2, 3, 3], [2, 5, 6]][1 := [2, 2, 6]] == [[2, 3, 3], [2, 2, 6]];
    WithinChunksStep(an, TABLE_1, cs, 0, [2, 3, 3]);
    WithinChunksStep(an, TABLE_1, [[2, 3, 3], [2, 5, 6]], 1, [2, 2, 6]);
    assert WithinChunks(an, TABLE_1, [[2, 3, 3], [2, 2, 6]], 2) == (TABLE_1, [[2, 3, 3], [2, 2, 6]]);
    NoConstants();
  }

  lemma WithinChunksStep(an: Analyzer, table: seq<Expr>, chunks: seq<seq<Key>>, n: nat, c: seq<Key>)
    requires ValidTable(table) && ValidChunks(table, chunks) && n < |chunks| && ValidChunk(table, c)
    requires WithinChunk(an, table, chunks[n], 0, 1) == (table, c)
    ensures WithinChunks(an, table, chunks, n) == WithinChunks(an, table, chunks[n := c], n + 1)
  {
    hide WithinChunk;
  }

  lemma DropFalseNoop(c: seq<Key>)
    requires KEY_FALSE !in c
    ensures DropFalse(c) == c
  {
  }

  lemma NoConstants()
    ensures RemoveTrueFalse([[2, 3, 3], [2, 2, 6]]) == [[2, 3, 3], [2, 2, 6]]
  {
    var cs: seq<seq<Key>> := [[2, 3, 3], [2, 2, 6]];
    DropFalseNoop([2, 3, 3]);
    DropFalseNoop([2, 2, 6]);
    assert CleanChunks(cs) == cs;
    assert cs[1..] == [[2, 2, 6]];
    assert DropTrue([[2, 2, 6]]) == [[2, 2, 6]] + DropTrue([]);
    assert DropTrue(cs) == [[2, 3, 3]] + DropTrue(cs[1..]);
  }

  lemma FirstsOutside()
    ensures Mergeable([2, 3, 3], [2, 2, 6])
    ensures FirstOutside([2, 3, 3], [2, 2, 6]) == 1 && FirstOutside([2, 2, 6], [2, 3, 3]) == 2
  {
    var ci, cj := [2, 3, 3], [2, 2, 6];
    RepeatedKeysCanMerge(2, 3, 6);
    assert ci[0] in cj && ci[1] !in cj;
    assert cj[0] in ci && cj[1] in ci && cj[2] !in ci;
  }

  lemma MergeTable()
    ensures ValidTable(TABLE_1) && ValidChunk(TABLE_1, [2, 3, 3]) && ValidChunk(TABLE_1, [2, 2, 6])
    ensures TABLE_1[2] == A && TABLE_1[3] == B && TABLE_1[6] == C && |TABLE_1| == 7
  {
  }

  lemma KnownInMerge()
    requires ValidChunk(TABLE_1, [2, 3, 3])
    ensures Known(Repeating(), TABLE_1, [2, 3, 3], 1, 3) == And(Not(A), Not(B))
  {
    MergeTable();
    var an, t, ci := Repeating(), TABLE_1, [2, 3, 3];
    assert Known(an, t, ci, 1, 1) == Not(A);
    assert Known(an, t, ci, 1, 2) == Not(A);
  }

  lemma PairInMerge()
    requires |TABLE_1| == 7
    ensures TryAnd(Repeating(), And(Not(A), Not(B)), TABLE_1, 3, 6) == (TABLE_1, 0, 1)
  {
    MergeTable();
    IndexIs(TABLE_1, Const(false), 1);
  }

  lemma MergeStep()
    ensures ValidTable(TABLE_1) && ValidChunk(TABLE_1, [2, 3, 3]) && ValidChunk(TABLE_1, [2, 2, 6])
    ensures AcrossStep(Repeating(), TABLE_1, [2, 3, 3], [2, 2, 6]) == (TABLE_1, [2, 0, 3], [2, 2, 1])
  {
    MergeTable();
    hide Known, FirstOutside, SharedCount, TryAnd, ValidTable, ValidChunk, Repeating, Within;
    FirstsOutside();
    KnownInMerge();
    PairInMerge();
    assert [2, 3, 3][1 := 0] == [2, 0, 3] && [2, 2, 6][2 := 1] == [2, 2, 1];
  }

  lemma FinalChunks()
    ensures RemoveTrueFalse([[2, 0, 3], [2, 2, 1]]) == [[2, 2]]
  {
    var cs := [[2, 0, 3], [2, 2, 1]];
    assert [2, 0, 3][1] == KEY_TRUE;
    assert DropFalse([1]) == [];
    assert [2, 2, 1][1..] == [2, 1] && [2, 1][1..] == [1];
    assert DropFalse([2, 1]) == [2] + DropFalse([1]) == [2];
    assert DropFalse([2, 2, 1]) == [2] + DropFalse([2, 1]) == [2, 2];
    assert CleanChunks(cs) == [[0], [2, 2]];
    assert [[0], [2, 2]][1..] == [[2, 2]];
    assert DropTrue([[2, 2]]) == [[2, 2]] + DropTrue([]);
    assert DropTrue([[0], [2, 2]]) == [] + DropTrue([[2, 2]]);
  }

  lemma SimplifiedRep()
    ensures SimplifyRep(Repeating(), Build(INPUT)) == Rep(TABLE_1, [[2, 2]])
  {
    hide AcrossStep, BeforeAcross, Build, RemoveTrueFalse, Repeating;
    var an := Repeating();
    ChunksBeforeAcross();
    MergeStep();
    FinalChunks();
    var cs := [[2, 3, 3], [2, 2, 6]];
    var cs' := [[2, 0, 3], [2, 2, 1]];
    assert cs[0 := [2, 0, 3]][1 := [2, 2, 1]] == cs';
    AcrossSteps(an, cs, cs');
  }

  lemma AcrossSteps(an: Analyzer, cs: seq<seq<Key>>, cs': seq<seq<Key>>)
    requires ValidTable(TABLE_1) && |cs| == 2 && |cs'| == 2 && ValidChunks(TABLE_1, cs) && ValidChunks(TABLE_1, cs')
    requires AcrossStep(an, TABLE_1, cs[0], cs[1]) == (TABLE_1, cs'[0], cs'[1])
    ensures AcrossChunks(an, TABLE_1, cs, 0, 1) == (TABLE_1, cs')
  {
    hide AcrossStep;
    assert cs[0 := cs'[0]][1 := cs'[1]] == cs';
    assert AcrossChunks(an, TABLE_1, cs, 0, 1) == AcrossChunks(an, TABLE_1, cs', 0, 2);
    assert AcrossChunks(an, TABLE_1, cs', 0, 2) == AcrossChunks(an, TABLE_1, cs', 1, 2);
    assert AcrossChunks(an, TABLE_1, cs', 1, 2) == AcrossChunks(an, TABLE_1, cs', 2, 3);
  }

  /** X is equivalent to B, and Y to A. */
  function Equivalences(): World -> bool {
    (w: World) => w(2) == w(1) && w(3) == w(0)
  }

  /** The world in which all but A and Y hold. */
  function Lost(): World {
    id => id == 1 || id == 2 || id == 4
  }

  lemma RepeatingIsSound()
    ensures Sound(Repeating(), Equivalences())
  {
  }

  lemma LostIsLost(r: Rep)
    requires r == Rep(TABLE_1, [[2, 2]])
    ensures Equivalences()(Lost()) && Eval(INPUT, Lost()) && !Holds(r.table, r.chunks, Lost())
  {
    assert !ChunkHolds(r.table, r.chunks[0], Lost());
  }

  /** A sound analyzer, an input and a possible world in which the simplified input is false. */
  lemma SimplifyCanLoseSolutions()
    ensures Sound(Repeating(), Equivalences()) && Equivalences()(Lost())
    ensures Eval(INPUT, Lost()) && !Eval(SimplifySpec(Repeating(), INPUT), Lost())
  {
    RepeatingIsSound();
    SimplifiedRep();
    LostIsLost(SimplifyRep(Repeating(), Build(INPUT)));
    assert Repeating().simplify(Const(true), INPUT) == INPUT;
    hide Sound, SimplifyRep, Build, Holds, Lost, Equivalences, AsExpr, Repeating;
  }
}
