/**
 The class `AndOfOrs`, updating its chunks and its two key maps in place. Every method is proved
 against the functions on values, whose meaning is proved in their own modules.
 */
module AndOfOrsClass {
  import opened BoolExpr
  import opened CnfParts
  import opened CnfRewriting
  import opened CnfMerging
  import opened CnfSimplify

  datatype Option<T> = None | Some(value: T)

  lemma IndexOfUnique(table: seq<Expr>, e: Expr, k: Key)
    requires k < |table| && table[k] == e
    requires forall i, j | 0 <= i < j < |table| :: table[i] != table[j]
    ensures IndexOf(table, e) == k
  {
  }

  /** First position of c whose key is not in d, as the search loops find it. */
  method FindOutside(c: seq<Key>, d: set<Key>) returns (r: Option<nat>)
    ensures r.None? <==> forall i | 0 <= i < |c| :: c[i] in d
    ensures r.Some? ==> r.value < |c| && c[r.value] !in d && forall i | 0 <= i < r.value :: c[i] in d
  {
    for i := 0 to |c|
      invariant forall m | 0 <= m < i :: c[m] in d
    {
      if c[i] !in d {
        return Some(i);
      }
    }
    return None;
  }

  method CountShared(c: seq<Key>, d: seq<Key>, s: set<Key>) returns (n: nat)
    requires s == KeySet(d)
    ensures n == SharedCount(c, d)
  {
    n := 0;
    for i := 0 to |c|
      invariant n + SharedCount(c[i..], d) == SharedCount(c, d)
    {
      assert c[i..][1..] == c[i + 1..];
      if c[i] in s {
        n := n + 1;
      }
    }
  }

  lemma FirstOutsideUnique(c: seq<Key>, d: seq<Key>, p: nat)
    requires p < |c| && c[p] !in d && forall i | 0 <= i < p :: c[i] in d
    ensures FirstOutside(c, d) == p
  {
    var q := FirstOutside(c, d);
    assert !(p < q) && !(q < p);
  }

  lemma BuildModel(e: Expr)
    ensures var (table, chunks) := AddClauses(INITIAL_TABLE, [], AndParts(e));
            Build(e) == Rep(table, chunks) && ValidTable(table) && ValidChunks(table, chunks)
  {
  }

  lemma ConstantsIntern()
    ensures Intern([], Const(true)) == ([Const(true)], KEY_TRUE)
    ensures Intern([Const(true)], Const(false)) == (INITIAL_TABLE, KEY_FALSE)
    ensures ValidTable(INITIAL_TABLE)
  {
    assert [] + [Const(true)] == [Const(true)];
    assert [Const(true)] + [Const(false)] == INITIAL_TABLE;
  }

  lemma WithinEnds(an: Analyzer, table: seq<Expr>, chunk: seq<Key>, i: nat, j: nat)
    requires ValidTable(table) && ValidChunk(table, chunk) && i < j && j >= |chunk|
    ensures i < |chunk| ==> WithinChunk(an, table, chunk, i, j) == WithinChunk(an, table, chunk, i + 1, i + 2)
    ensures i >= |chunk| ==> WithinChunk(an, table, chunk, i, j) == (table, chunk)
  {
  }

  class AndOfOrs {
    var chunks: seq<seq<Key>>
    var keyToExpr: map<Key, Expr>
    var exprToKey: map<Expr, Key>
    var keyTrue: Key
    var keyFalse: Key
    /** The interned expressions in the order of their keys. */
    ghost var table: seq<Expr>

    /** The two maps are inverse, and their keys are the numbers below the table size. */
    ghost predicate Interned()
      reads this`keyToExpr, this`exprToKey, this`table
    {
      && |exprToKey| == |table|
      && (forall k | k in keyToExpr :: k < |table|)
      && (forall k | 0 <= k < |table| :: k in keyToExpr && keyToExpr[k] == table[k])
      && (forall k | 0 <= k < |table| :: table[k] in exprToKey && exprToKey[table[k]] == k)
      && (forall e | e in exprToKey :: exprToKey[e] < |table| && table[exprToKey[e]] == e)
    }

    ghost function Model(): Rep
      reads this
    {
      Rep(table, chunks)
    }

    ghost predicate Valid()
      reads this
    {
      Interned() && keyTrue == KEY_TRUE && keyFalse == KEY_FALSE && ValidTable(table) && ValidChunks(table, chunks)
    }

    /** `GetKey` */
    method GetKey(e: Expr) returns (key: Key)
      requires Interned()
      modifies this`keyToExpr, this`exprToKey, this`table
      ensures Interned() && (table, key) == Intern(old(table), e)
    {
      if e in exprToKey {
        key := exprToKey[e];
        IndexOfUnique(table, e, key);
      } else {
        key := |exprToKey|;
        exprToKey := exprToKey[e := key];
        keyToExpr := keyToExpr[key := e];
        table := table + [e];
      }
    }

    /** `GetExpr` */
    function GetExpr(key: Key): (e: Expr)
      requires Interned() && key < |table|
      reads this`keyToExpr, this`exprToKey, this`table
      ensures e == table[key]
    {
      keyToExpr[key]
    }

    /** The constructor: chunks of distinct keys, no chunk a permutation of an earlier one. */
    constructor (e: Expr)
      ensures Valid() && Model() == Build(e)
    {
      chunks := [];
      keyToExpr, exprToKey, table := map[], map[], [];
      keyTrue, keyFalse := 0, 0;
      new;
      assert Interned();
      hide Interned, Build, Valid, Model;
      Fill(e);
    }

    method Fill(e: Expr)
      requires Interned() && table == [] && chunks == []
      modifies this
      ensures Valid() && Model() == Build(e)
    {
      hide Interned, Build, AddClauses, AndParts, ValidTable, ValidChunks, Intern;
      InternTrue();
      InternFalse();
      BuildModel(e);
      AddChunks(AndParts(e));
    }

    /** The cached keys of the two constants. */
    method InternTrue()
      requires Interned() && table == []
      modifies this`keyTrue, this`keyToExpr, this`exprToKey, this`table
      ensures Interned() && table == [Const(true)] && keyTrue == KEY_TRUE
    {
      hide Interned, IndexOf, Intern;
      ConstantsIntern();
      keyTrue := GetKey(Const(true));
    }

    method InternFalse()
      requires Interned() && table == [Const(true)]
      modifies this`keyFalse, this`keyToExpr, this`exprToKey, this`table
      ensures Interned() && table == INITIAL_TABLE && ValidTable(table) && keyFalse == KEY_FALSE
    {
      hide Interned, IndexOf, Intern, ValidTable;
      ConstantsIntern();
      keyFalse := GetKey(Const(false));
    }

    /** The chunks of the conjuncts that the outer callback receives. */
    method AddChunks(clauses: seq<Expr>)
      requires Interned() && ValidTable(table)
      modifies this`chunks, this`keyToExpr, this`exprToKey, this`table
      ensures Interned() && (table, chunks) == AddClauses(old(table), old(chunks), clauses)
    {
      hide Interned, HasPermutation, ValidTable, AddTerms, OrParts;
      assert clauses[0..] == clauses;
      for n := 0 to |clauses|
        invariant Interned() && ValidTable(table)
        invariant AddClauses(table, chunks, clauses[n..]) == AddClauses(old(table), old(chunks), clauses)
      {
        assert clauses[n..][0] == clauses[n] && clauses[n..][1..] == clauses[n + 1..];
        var components := OrComponents(clauses[n]);
        if !HasPermutation(chunks, components) {
          chunks := chunks + [components];
        }
      }
    }

    /** The keys of one clause. */
    method OrComponents(clause: Expr) returns (components: seq<Key>)
      requires Interned() && ValidTable(table)
      modifies this`keyToExpr, this`exprToKey, this`table
      ensures Interned() && ValidTable(table)
      ensures (table, components) == AddTerms(old(table), [], OrParts(clause))
    {
      components := [];
      var terms := OrParts(clause);
      for n := 0 to |terms|
        invariant Interned() && ValidTable(table)
        invariant AddTerms(table, components, terms[n..]) == AddTerms(old(table), [], terms)
      {
        assert terms[n..][0] == terms[n] && terms[n..][1..] == terms[n + 1..];
        var key := GetKey(terms[n]);
        if key !in components {
          components := components + [key];
        }
      }
    }

    /** `TrySimplifyOr`, returning the overwritten keys. */
    method TrySimplifyOr(an: Analyzer, a: Key, b: Key) returns (a': Key, b': Key)
      requires Interned() && ValidTable(table) && a < |table| && b < |table| && keyFalse == KEY_FALSE
      modifies this`keyToExpr, this`exprToKey, this`table
      ensures Interned() && (table, a', b') == TryOr(an, old(table), a, b)
    {
      a', b' := a, b;
      var joint := MkOr(GetExpr(a), GetExpr(b));
      var simplified := an.rewrite(Const(true), joint);
      if simplified != joint {
        if simplified.Or? {
          a' := GetKey(simplified.a);
          b' := GetKey(simplified.b);
        } else {
          a' := keyFalse;
          b' := GetKey(simplified);
        }
      }
    }

    /** `TrySimplifyAnd` under an entered constraint, returning the overwritten keys. */
    method TrySimplifyAnd(an: Analyzer, known: Expr, a: Key, b: Key) returns (a': Key, b': Key)
      requires Interned() && ValidTable(table) && a < |table| && b < |table| && keyTrue == KEY_TRUE
      modifies this`keyToExpr, this`exprToKey, this`table
      ensures Interned() && (table, a', b') == TryAnd(an, known, old(table), a, b)
    {
      a', b' := a, b;
      var joint := MkAnd(GetExpr(a), GetExpr(b));
      var simplified := an.rewrite(known, joint);
      if simplified != joint {
        if simplified.And? {
          a' := GetKey(simplified.a);
          b' := GetKey(simplified.b);
        } else {
          a' := keyTrue;
          b' := GetKey(simplified);
        }
      }
    }

    /** One pair of keys of `SimplifyWithinChunks`. */
    method SimplifyKeys(an: Analyzer, n: nat, i: nat, j: nat)
      requires Valid() && n < |chunks| && i < j < |chunks[n]|
      modifies this`chunks, this`keyToExpr, this`exprToKey, this`table
      ensures Valid() && |chunks| == |old(chunks)| && chunks == old(chunks)[n := chunks[n]]
      ensures |chunks[n]| == |old(chunks)[n]|
      ensures WithinChunk(an, table, chunks[n], i, j + 1) == WithinChunk(an, old(table), old(chunks)[n], i, j)
    {
      hide Interned, ValidTable, TryOr;
      ghost var before := table;
      TryOrSound(an, _ => true, table, chunks[n][i], chunks[n][j]);
      var a, b := TrySimplifyOr(an, chunks[n][i], chunks[n][j]);
      ReplaceChunkValid(before, table, chunks, n, chunks[n][i := a][j := b]);
      chunks := chunks[n := chunks[n][i := a][j := b]];
    }

    /** One chunk of `SimplifyWithinChunks`. */
    method SimplifyWithinChunk(an: Analyzer, n: nat)
      requires Valid() && n < |chunks|
      modifies this`chunks, this`keyToExpr, this`exprToKey, this`table
      ensures Valid()
      ensures var (table', chunk) := WithinChunk(an, old(table), old(chunks)[n], 0, 1);
              table == table' && chunks == old(chunks)[n := chunk]
    {
      hide Interned, ValidTable, WithinChunk;
      ghost var cs := chunks;
      ghost var goal := WithinChunk(an, table, chunks[n], 0, 1);
      var i := 0;
      while i < |chunks[n]|
        invariant Valid() && |chunks| == |cs| && chunks == cs[n := chunks[n]] && |chunks[n]| == |cs[n]|
        invariant WithinChunk(an, table, chunks[n], i, i + 1) == goal
      {
        var j := i + 1;
        while j < |chunks[n]|
          invariant Valid() && |chunks| == |cs| && chunks == cs[n := chunks[n]] && |chunks[n]| == |cs[n]|
          invariant i < j
          invariant WithinChunk(an, table, chunks[n], i, j) == goal
          decreases |chunks[n]| - j
        {
          SimplifyKeys(an, n, i, j);
          j := j + 1;
        }
        WithinEnds(an, table, chunks[n], i, j);
        i := i + 1;
      }
      WithinEnds(an, table, chunks[n], i, i + 1);
    }

    /** `SimplifyWithinChunks` */
    method SimplifyWithinChunks(an: Analyzer)
      requires Valid()
      modifies this`chunks, this`keyToExpr, this`exprToKey, this`table
      ensures Valid()
      ensures (table, chunks) == WithinChunks(an, old(table), old(chunks), 0)
    {
      ghost var goal := WithinChunks(an, table, chunks, 0);
      for n := 0 to |chunks|
        invariant Valid() && |chunks| == |old(chunks)|
        invariant WithinChunks(an, table, chunks, n) == goal
      {
        WithinChunkValid(an, table, chunks[n], 0, 1);
        SimplifyWithinChunk(an, n);
      }
    }

    /** `RemoveTrueFalse` */
    method RemoveConstants()
      requires Valid()
      modifies this`chunks
      ensures Valid() && chunks == RemoveTrueFalse(old(chunks)) && ConstantFree(chunks)
    {
      ghost var cs := chunks;
      for n := 0 to |chunks|
        invariant |chunks| == |cs|
        invariant forall m | 0 <= m < n :: chunks[m] == CleanChunk(cs[m])
        invariant forall m | n <= m < |cs| :: chunks[m] == cs[m]
      {
        if keyTrue in chunks[n] {
          chunks := chunks[n := [keyTrue]];
        } else {
          chunks := chunks[n := DropFalse(chunks[n])];
        }
      }
      assert chunks == CleanChunks(cs);
      if [] in chunks {
        chunks := [[]];
      } else {
        chunks := DropTrue(chunks);
      }
      RemoveTrueFalseForm(cs);
      RemoveTrueFalseMeans(table, cs, _ => true);
    }

    /** The constraint under which a differ-by-one pair is simplified. */
    method BuildKnown(an: Analyzer, ci: seq<Key>, p: nat) returns (known: Expr)
      requires Interned() && ValidChunk(table, ci)
      ensures known == Known(an, table, ci, p, |ci|)
    {
      known := Const(true);
      for n := 0 to |ci|
        invariant known == Known(an, table, ci, p, n)
      {
        if n != p {
          known := MkAnd(known, an.simplify(Const(true), MkNot(GetExpr(ci[n]))));
        }
      }
    }

    /** One pair of `SimplifyAcrossChunks`. */
    method SimplifyPair(an: Analyzer, i: nat, j: nat)
      requires Valid() && i < j < |chunks|
      modifies this`chunks, this`keyToExpr, this`exprToKey, this`table
      ensures Valid()
      ensures var (table', ci, cj) := AcrossStep(an, old(table), old(chunks)[i], old(chunks)[j]);
              table == table' && chunks == old(chunks)[i := ci][j := cj]
    {
      hide Interned, ValidTable, TryAnd, Known, SharedCount, FirstOutside, Mergeable, CleanMerge, OneDiffers;
      var ci, cj := chunks[i], chunks[j];
      ghost var before := chunks;
      AcrossStepValid(an, table, ci, cj);
      if |ci| == 1 && |cj| == 1 {
        var a, b := TrySimplifyAnd(an, Const(true), ci[0], cj[0]);
        chunks := chunks[i := [a]][j := [b]];
        return;
      }
      var outsideI := FindOutside(ci, KeySet(cj));
      if outsideI.None? {
        assert Within(ci, cj);
        chunks := chunks[j := [keyTrue]];
        assert chunks == before[i := ci][j := [keyTrue]];
        return;
      }
      assert ci[outsideI.value] !in cj && !Within(ci, cj);
      var iSet := KeySet(ci);
      var outsideJ := FindOutside(cj, iSet);
      if outsideJ.None? {
        assert Within(cj, ci);
        chunks := chunks[i := [keyTrue]];
        assert chunks == before[i := [keyTrue]][j := cj];
        return;
      }
      assert cj[outsideJ.value] !in ci && !Within(cj, ci);
      assert chunks == before[i := ci][j := cj];
      if |ci| == |cj| {
        var shared := CountShared(cj, ci, iSet);
        if shared + 1 == |ci| {
          var p, q := outsideI.value, outsideJ.value;
          FirstOutsideUnique(ci, cj, p);
          FirstOutsideUnique(cj, ci, q);
          var known := BuildKnown(an, ci, p);
          var a, b := TrySimplifyAnd(an, known, ci[p], cj[q]);
          chunks := chunks[i := ci[p := a]][j := cj[q := b]];
        }
      }
    }

    /** `SimplifyAcrossChunks` */
    method SimplifyAcrossChunks(an: Analyzer)
      requires Valid()
      modifies this`chunks, this`keyToExpr, this`exprToKey, this`table
      ensures Valid()
      ensures (table, chunks) == AcrossChunks(an, old(table), old(chunks), 0, 1)
    {
      hide Interned, ValidTable, AcrossStep;
      ghost var goal := AcrossChunks(an, table, chunks, 0, 1);
      var i := 0;
      while i < |chunks|
        invariant Valid() && |chunks| == |old(chunks)|
        invariant AcrossChunks(an, table, chunks, i, i + 1) == goal
      {
        var j := i + 1;
        while j < |chunks|
          invariant Valid() && i < j && |chunks| == |old(chunks)|
          invariant AcrossChunks(an, table, chunks, i, j) == goal
          decreases |chunks| - j
        {
          AcrossStepValid(an, table, chunks[i], chunks[j]);
          SimplifyPair(an, i, j);
          j := j + 1;
        }
        i := i + 1;
      }
    }

    /** `Simplify` */
    method Simplify(an: Analyzer)
      requires Valid()
      modifies this`chunks, this`keyToExpr, this`exprToKey, this`table
      ensures Valid() && ConstantFree(chunks)
      ensures Model() == SimplifyRep(an, old(Model()))
    {
      SimplifyWithinChunks(an);
      RemoveConstants();
      SimplifyAcrossChunks(an);
      RemoveConstants();
    }

    /** `AsPrimExpr` */
    method AsPrimExpr() returns (e: Expr)
      requires Valid()
      ensures e == AsExpr(table, chunks)
    {
      e := Const(true);
      for n := 0 to |chunks|
        invariant ValidChunks(table, chunks[..n])
        invariant e == AsExpr(table, chunks[..n])
      {
        var chunk := chunks[n];
        var chunkExpr := Const(false);
        for m := 0 to |chunk|
          invariant ValidChunk(table, chunk[..m])
          invariant chunkExpr == ChunkExpr(table, chunk[..m])
        {
          assert chunk[..m + 1][..m] == chunk[..m];
          chunkExpr := MkOr(chunkExpr, GetExpr(chunk[m]));
        }
        assert chunk[..|chunk|] == chunk;
        assert chunks[..n + 1][..n] == chunks[..n];
        e := MkAnd(e, chunkExpr);
      }
      assert chunks[..|chunks|] == chunks;
    }
  }

  /** The entry point keeps the truth of its argument in every possible world. */
  method SimplifyAsAndOfOrs(an: Analyzer, e: Expr, ghost possible: World -> bool) returns (r: Expr)
    requires Sound(an, possible)
    ensures r == SimplifySpec(an, e)
    ensures CleanRun(an, Build(an.simplify(Const(true), e))) ==>
              forall w | possible(w) :: Eval(r, w) == Eval(e, w)
  {
    var repr := new AndOfOrs(an.simplify(Const(true), e));
    repr.Simplify(an);
    r := repr.AsPrimExpr();
    if CleanRun(an, Build(an.simplify(Const(true), e))) {
      forall w | possible(w) ensures Eval(r, w) == Eval(e, w) {
        SimplifySpecSound(an, possible, e, w);
      }
    }
  }
}
