/**
 Simplification across chunks: absorption, the merge of two singleton chunks, and the merge of two
 chunks that differ in one key. The last rewrites under the assumption that the shared keys are
 false.
 */
module CnfMerging {
  import opened BoolExpr
  import opened CnfRewriting

  /** Number of positions of c whose key occurs in d. */
  function SharedCount(c: seq<Key>, d: seq<Key>): (n: nat)
    ensures n <= |c|
  {
    if c == [] then 0 else (if c[0] in d then 1 else 0) + SharedCount(c[1..], d)
  }

  /** First position of c whose key does not occur in d. */
  function FirstOutside(c: seq<Key>, d: seq<Key>): (p: nat)
    requires exists i | 0 <= i < |c| :: c[i] !in d
    ensures p < |c| && c[p] !in d && forall i | 0 <= i < p :: c[i] in d
  {
    if c[0] !in d then 0 else
      assert exists i | 0 <= i < |c[1..]| :: c[1..][i] !in d by {
        var i :| 0 <= i < |c| && c[i] !in d;
        assert c[1..][i - 1] == c[i];
      }
      1 + FirstOutside(c[1..], d)
  }

  predicate Within(c: seq<Key>, d: seq<Key>) {
    forall i | 0 <= i < |c| :: c[i] in d
  }

  /** The guard of the differ-by-one merge; it counts the shared keys of cj only. */
  predicate Mergeable(ci: seq<Key>, cj: seq<Key>) {
    && !(|ci| == 1 && |cj| == 1)
    && !Within(ci, cj) && !Within(cj, ci)
    && |ci| == |cj| && SharedCount(cj, ci) + 1 == |ci|
  }

  /** The conjunction of the negated keys of ci other than position p. */
  function Known(an: Analyzer, table: seq<Expr>, ci: seq<Key>, p: nat, n: nat): Expr
    requires ValidChunk(table, ci) && n <= |ci|
  {
    if n == 0 then Const(true)
    else
      var known := Known(an, table, ci, p, n - 1);
      if n - 1 == p then known
      else MkAnd(known, an.simplify(Const(true), MkNot(table[ci[n - 1]])))
  }

  /** One iteration of the loops of `SimplifyAcrossChunks`. */
  function AcrossStep(an: Analyzer, table: seq<Expr>, ci: seq<Key>, cj: seq<Key>): (seq<Expr>, seq<Key>, seq<Key>)
    requires ValidTable(table) && ValidChunk(table, ci) && ValidChunk(table, cj)
  {
    if |ci| == 1 && |cj| == 1 then
      var (table', a, b) := TryAnd(an, Const(true), table, ci[0], cj[0]);
      (table', [a], [b])
    else if Within(ci, cj) then (table, ci, [KEY_TRUE])
    else if Within(cj, ci) then (table, [KEY_TRUE], cj)
    else if |ci| == |cj| && SharedCount(cj, ci) + 1 == |ci| then
      var p, q := FirstOutside(ci, cj), FirstOutside(cj, ci);
      var (table', a, b) := TryAnd(an, Known(an, table, ci, p, |ci|), table, ci[p], cj[q]);
      (table', ci[p := a], cj[q := b])
    else (table, ci, cj)
  }

  /** What the merge guard omits: all keys of ci but one are shared, too. */
  predicate OneDiffers(ci: seq<Key>, cj: seq<Key>) {
    SharedCount(ci, cj) + 1 == |ci|
  }

  /**
   The condition on a merge: true is among the keys of both chunks, or the first key of ci outside
   cj is the only one that matters.
   */
  predicate CleanMerge(ci: seq<Key>, cj: seq<Key>) {
    || (KEY_TRUE in ci && KEY_TRUE in cj)
    || forall i | 0 <= i < |ci| && ci[i] !in cj && ci[i] != KEY_FALSE :: i == FirstOutside(ci, cj)
  }

  lemma {:induction false} SharedAllBut(c: seq<Key>, d: seq<Key>, p: nat)
    requires p < |c| && c[p] !in d
    ensures SharedCount(c, d) < |c|
    ensures SharedCount(c, d) + 1 == |c| <==> forall i | 0 <= i < |c| && i != p :: c[i] in d
  {
    if p == 0 {
      SharedAll(c[1..], d);
      assert (forall i | 0 <= i < |c| && i != 0 :: c[i] in d) <==> Within(c[1..], d) by {
        assert forall i | 0 <= i < |c[1..]| :: c[1..][i] == c[i + 1];
        if Within(c[1..], d) {
          forall i | 0 <= i < |c| && i != 0 ensures c[i] in d {
            assert c[1..][i - 1] in d;
          }
        }
      }
    } else {
      SharedAllBut(c[1..], d, p - 1);
      var rest := c[1..];
      assert forall i | 0 <= i < |rest| :: rest[i] == c[i + 1];
      if forall i | 0 <= i < |rest| && i != p - 1 :: rest[i] in d {
        forall i | 0 < i < |c| && i != p ensures c[i] in d {
          assert rest[i - 1] in d;
        }
      }
    }
  }

  lemma {:induction false} SharedAll(c: seq<Key>, d: seq<Key>)
    ensures SharedCount(c, d) == |c| <==> Within(c, d)
  {
    if c != [] {
      SharedAll(c[1..], d);
      assert forall i | 0 <= i < |c[1..]| :: c[1..][i] == c[i + 1];
      if Within(c[1..], d) && c[0] in d {
        forall i | 0 <= i < |c| ensures c[i] in d {
          if i > 0 {
            assert c[1..][i - 1] in d;
          }
        }
      }
    }
  }

  lemma {:induction false} KnownMeans(an: Analyzer, possible: World -> bool, table: seq<Expr>,
                                     ci: seq<Key>, p: nat, n: nat, w: World)
    requires ValidChunk(table, ci) && n <= |ci| && Sound(an, possible) && possible(w)
    ensures Eval(Known(an, table, ci, p, n), w)
            <==> forall i | 0 <= i < n && i != p :: !Eval(table[ci[i]], w)
  {
    if n > 0 {
      KnownMeans(an, possible, table, ci, p, n - 1, w);
      if n - 1 != p {
        assert Eval(Const(true), w);
        assert Eval(an.simplify(Const(true), MkNot(table[ci[n - 1]])), w) == !Eval(table[ci[n - 1]], w);
      }
    }
  }

  lemma AcrossStepValid(an: Analyzer, table: seq<Expr>, ci: seq<Key>, cj: seq<Key>)
    requires ValidTable(table) && ValidChunk(table, ci) && ValidChunk(table, cj)
    ensures var (table', ci', cj') := AcrossStep(an, table, ci, cj);
            table <= table' && ValidTable(table') && ValidChunk(table', ci') && ValidChunk(table', cj')
  {
    hide TryAnd;
    if |ci| == 1 && |cj| == 1 {
      TryAndSound(an, _ => true, Const(true), table, ci[0], cj[0]);
    } else if Mergeable(ci, cj) {
      var p, q := FirstOutside(ci, cj), FirstOutside(cj, ci);
      TryAndSound(an, _ => true, Known(an, table, ci, p, |ci|), table, ci[p], cj[q]);
    }
  }

  /** The keys of a chunk other than position p, of which at least one is true. */
  ghost predicate OthersHold(table: seq<Expr>, c: seq<Key>, p: nat, w: World) {
    exists i | 0 <= i < |c| && i != p :: c[i] < |table| && Eval(table[c[i]], w)
  }

  lemma ReplaceInChunk(table: seq<Expr>, table': seq<Expr>, c: seq<Key>, p: nat, a: Key, w: World)
    requires table <= table' && ValidChunk(table, c) && p < |c| && a < |table'|
    ensures ChunkHolds(table, c, w) == (OthersHold(table, c, p, w) || Eval(table[c[p]], w))
    ensures ChunkHolds(table', c[p := a], w) == (OthersHold(table, c, p, w) || Eval(table'[a], w))
  {
    var c' := c[p := a];
    assert c'[p] == a;
    assert forall i | 0 <= i < |c| && i != p :: c'[i] == c[i] && table'[c[i]] == table[c[i]];
    if ChunkHolds(table', c', w) {
      var i :| 0 <= i < |c'| && c'[i] < |table'| && Eval(table'[c'[i]], w);
      assert i != p ==> Eval(table[c[i]], w);
    }
    if OthersHold(table, c, p, w) {
      var i :| 0 <= i < |c| && i != p && c[i] < |table| && Eval(table[c[i]], w);
      assert Eval(table'[c'[i]], w);
    }
  }

  /** Apart from the first key outside, the chunks of a clean merge hold alike. */
  lemma SameOthers(table: seq<Expr>, ci: seq<Key>, cj: seq<Key>, p: nat, q: nat, w: World)
    requires ValidTable(table) && p < |ci| && q < |cj| && ci[p] !in cj && cj[q] !in ci
    requires (KEY_TRUE in ci && KEY_TRUE in cj) || forall i | 0 <= i < |ci| && i != p :: ci[i] in cj || ci[i] == KEY_FALSE
    requires forall j | 0 <= j < |cj| && j != q :: cj[j] in ci
    ensures OthersHold(table, ci, p, w) == OthersHold(table, cj, q, w)
  {
    if KEY_TRUE in ci && KEY_TRUE in cj {
      TrueOther(table, ci, p, w);
      TrueOther(table, cj, q, w);
    } else {
      if OthersHold(table, ci, p, w) {
        var i :| 0 <= i < |ci| && i != p && ci[i] < |table| && Eval(table[ci[i]], w);
        var j :| 0 <= j < |cj| && cj[j] == ci[i];
        assert j != q;
      }
      if OthersHold(table, cj, q, w) {
        var j :| 0 <= j < |cj| && j != q && cj[j] < |table| && Eval(table[cj[j]], w);
        var i :| 0 <= i < |ci| && ci[i] == cj[j];
        assert i != p;
      }
    }
  }

  lemma TrueOther(table: seq<Expr>, c: seq<Key>, p: nat, w: World)
    requires ValidTable(table) && KEY_TRUE in c && p < |c| && c[p] != KEY_TRUE
    ensures OthersHold(table, c, p, w)
  {
    var i :| 0 <= i < |c| && c[i] == KEY_TRUE;
    assert i != p && Eval(table[c[i]], w);
  }

  /** The differ-by-one merge keeps the conjunction when it is clean. */
  lemma MergeSound(an: Analyzer, possible: World -> bool, table: seq<Expr>, ci: seq<Key>, cj: seq<Key>, w: World)
    requires ValidTable(table) && ValidChunk(table, ci) && ValidChunk(table, cj)
    requires Sound(an, possible) && possible(w) && Mergeable(ci, cj) && CleanMerge(ci, cj)
    ensures var (table', ci', cj') := AcrossStep(an, table, ci, cj);
            (ChunkHolds(table', ci', w) && ChunkHolds(table', cj', w))
            == (ChunkHolds(table, ci, w) && ChunkHolds(table, cj, w))
  {
    hide TryAnd, ChunkHolds, OthersHold, ValidTable, Sound;
    var p, q := FirstOutside(ci, cj), FirstOutside(cj, ci);
    SharedAllBut(cj, ci, q);
    var known := Known(an, table, ci, p, |ci|);
    TryAndSound(an, possible, known, table, ci[p], cj[q]);
    var (table', a, b) := TryAnd(an, known, table, ci[p], cj[q]);
    ReplaceInChunk(table, table', ci, p, a, w);
    ReplaceInChunk(table, table', cj, q, b, w);
    SameOthers(table, ci, cj, p, q, w);
    KnownOthers(an, possible, table, ci, p, w);
  }

  lemma KnownOthers(an: Analyzer, possible: World -> bool, table: seq<Expr>, ci: seq<Key>, p: nat, w: World)
    requires ValidChunk(table, ci) && Sound(an, possible) && possible(w)
    ensures Eval(Known(an, table, ci, p, |ci|), w) <==> !OthersHold(table, ci, p, w)
  {
    KnownMeans(an, possible, table, ci, p, |ci|, w);
  }

  /** A chunk all of whose keys occur in another implies it. */
  lemma Absorb(table: seq<Expr>, c: seq<Key>, d: seq<Key>, w: World)
    requires Within(c, d) && ChunkHolds(table, c, w)
    ensures ChunkHolds(table, d, w)
  {
    var i :| 0 <= i < |c| && c[i] < |table| && Eval(table[c[i]], w);
    var j :| 0 <= j < |d| && d[j] == c[i];
  }

  lemma TrueChunk(table: seq<Expr>, w: World)
    requires ValidTable(table)
    ensures ChunkHolds(table, [KEY_TRUE], w)
  {
    assert [KEY_TRUE][0] == KEY_TRUE;
  }

  lemma SingleChunk(table: seq<Expr>, a: Key, w: World)
    requires a < |table|
    ensures ChunkHolds(table, [a], w) == Eval(table[a], w)
  {
    assert [a][0] == a;
  }

  /** Every step keeps the conjunction of the two chunks, a merge if it is clean. */
  lemma AcrossStepSound(an: Analyzer, possible: World -> bool, table: seq<Expr>, ci: seq<Key>, cj: seq<Key>, w: World)
    requires ValidTable(table) && ValidChunk(table, ci) && ValidChunk(table, cj)
    requires Sound(an, possible) && possible(w)
    requires Mergeable(ci, cj) ==> CleanMerge(ci, cj)
    ensures var (table', ci', cj') := AcrossStep(an, table, ci, cj);
            (ChunkHolds(table', ci', w) && ChunkHolds(table', cj', w))
            == (ChunkHolds(table, ci, w) && ChunkHolds(table, cj, w))
  {
    hide TryAnd, ChunkHolds;
    if |ci| == 1 && |cj| == 1 {
      TryAndSound(an, possible, Const(true), table, ci[0], cj[0]);
      var (table', a, b) := TryAnd(an, Const(true), table, ci[0], cj[0]);
      assert ci == [ci[0]] && cj == [cj[0]];
      SingleChunk(table, ci[0], w);
      SingleChunk(table, cj[0], w);
      SingleChunk(table', a, w);
      SingleChunk(table', b, w);
      assert Eval(Const(true), w);
    } else if Within(ci, cj) {
      TrueChunk(table, w);
      if ChunkHolds(table, ci, w) {
        Absorb(table, ci, cj, w);
      }
    } else if Within(cj, ci) {
      TrueChunk(table, w);
      if ChunkHolds(table, cj, w) {
        Absorb(table, cj, ci, w);
      }
    } else if Mergeable(ci, cj) {
      MergeSound(an, possible, table, ci, cj, w);
    }
  }

  // When the merge is sound: exactly when it is clean.

  predicate Distinct(c: seq<Key>) {
    forall i, j | 0 <= i < j < |c| :: c[i] != c[j]
  }

  function KeySet(c: seq<Key>): set<Key> {
    set k | k in c
  }

  lemma {:induction false} SharedCountOfDistinct(c: seq<Key>, d: seq<Key>)
    requires Distinct(c)
    ensures SharedCount(c, d) == |KeySet(c) * KeySet(d)|
  {
    hide Distinct;
    if c == [] {
      assert KeySet(c) == {};
    } else {
      KeySetFirst(c);
      SharedCountOfDistinct(c[1..], d);
      OneMoreShared(c[0], KeySet(c[1..]), KeySet(d));
    }
  }

  lemma KeySetFirst(c: seq<Key>)
    requires c != []
    ensures KeySet(c) == {c[0]} + KeySet(c[1..])
    ensures Distinct(c) ==> Distinct(c[1..]) && c[0] !in KeySet(c[1..])
  {
    assert c == [c[0]] + c[1..];
    assert forall i | 0 <= i < |c[1..]| :: c[1..][i] == c[i + 1];
  }

  lemma OneMoreShared(a: Key, r: set<Key>, d: set<Key>)
    requires a !in r
    ensures |({a} + r) * d| == |r * d| + if a in d then 1 else 0
  {
    if a in d {
      assert ({a} + r) * d == {a} + r * d;
    } else {
      assert ({a} + r) * d == r * d;
    }
  }

  /** For chunks without repeated keys the guard forces one differing key on each side, and a clean merge. */
  lemma DistinctMerge(ci: seq<Key>, cj: seq<Key>)
    requires Distinct(ci) && Distinct(cj) && Mergeable(ci, cj)
    ensures OneDiffers(ci, cj) && CleanMerge(ci, cj)
  {
    SharedCountOfDistinct(ci, cj);
    SharedCountOfDistinct(cj, ci);
    assert KeySet(ci) * KeySet(cj) == KeySet(cj) * KeySet(ci);
    OneDiffersIsClean(ci, cj);
  }

  /** Without constant keys a merge is clean exactly if one key differs on each side. */
  lemma OneDiffersIsClean(ci: seq<Key>, cj: seq<Key>)
    requires Mergeable(ci, cj)
    ensures OneDiffers(ci, cj) ==> CleanMerge(ci, cj)
    ensures CleanMerge(ci, cj) && KEY_TRUE !in ci && KEY_FALSE !in ci ==> OneDiffers(ci, cj)
  {
    SharedAllBut(ci, cj, FirstOutside(ci, cj));
  }

  ghost predicate StepPreserves(an: Analyzer, possible: World -> bool, table: seq<Expr>, ci: seq<Key>, cj: seq<Key>)
    requires ValidTable(table) && ValidChunk(table, ci) && ValidChunk(table, cj)
  {
    var (table', ci', cj') := AcrossStep(an, table, ci, cj);
    forall w | possible(w) ::
      (ChunkHolds(table', ci', w) && ChunkHolds(table', cj', w))
      == (ChunkHolds(table, ci, w) && ChunkHolds(table, cj, w))
  }

  /** The merge of two chunks is right whatever the analyzer answers and the keys stand for. */
  ghost predicate AlwaysPreserves(ci: seq<Key>, cj: seq<Key>) {
    forall an: Analyzer, possible: World -> bool, table: seq<Expr> ::
      Sound(an, possible) && ValidTable(table) && ValidChunk(table, ci) && ValidChunk(table, cj) ==>
        StepPreserves(an, possible, table, ci, cj)
  }

  /** An analyzer that adds the entered constraint to its answer. */
  function Conjoining(): Analyzer {
    Analyzer((known, e) => And(e, known), (known, e) => e)
  }

  /** An analyzer that lets its answer hold where the constraint does not. */
  function Weakening(): Analyzer {
    Analyzer((known, e) => Or(e, Not(known)), (known, e) => e)
  }

  /** A table that gives every key above the constants an atom of its own. */
  function AtomTable(n: nat): (table: seq<Expr>)
    requires n >= 2
    ensures |table| == n && ValidTable(table) && forall k | 2 <= k < n :: table[k] == Atom(k)
  {
    seq(n, (k: nat) => if k == KEY_TRUE then Const(true) else if k == KEY_FALSE then Const(false) else Atom(k))
  }

  function MaxKey(c: seq<Key>): (m: nat)
    ensures forall i | 0 <= i < |c| :: c[i] <= m
  {
    if c == [] then 0 else
      var m := MaxKey(c[1..]);
      assert forall i | 0 < i < |c| :: c[i] == c[1..][i - 1];
      if c[0] > m then c[0] else m
  }

  lemma AnalyzersAreSound(possible: World -> bool)
    ensures Sound(Conjoining(), possible) && Sound(Weakening(), possible)
  {
  }

  lemma ConjoiningAnswer(known: Expr, table: seq<Expr>, a: Key, b: Key)
    requires ValidTable(table) && a < |table| && b < |table|
    ensures var (table', a', b') := TryAnd(Conjoining(), known, table, a, b);
            table <= table' && a' < |table'| && b' < |table'| && table'[b'] == known
  {
    var joint := MkAnd(table[a], table[b]);
    assert joint < And(joint, known);
  }

  lemma WeakeningAnswer(known: Expr, table: seq<Expr>, a: Key, b: Key, w: World)
    requires ValidTable(table) && a < |table| && b < |table| && !Eval(known, w)
    ensures var (table', a', b') := TryAnd(Weakening(), known, table, a, b);
            table <= table' && a' < |table'| && b' < |table'| && Eval(table'[b'], w)
  {
    var joint := MkAnd(table[a], table[b]);
    assert joint < Or(joint, Not(known));
  }

  /** Everything: the worlds in which the merges below go wrong need no assumption. */
  function Anything(): World -> bool {
    (w: World) => true
  }

  /** In a world where another key of ci is true and the others of cj are false, the merge changes cj. */
  lemma MergeFailsIn(table: seq<Expr>, ci: seq<Key>, cj: seq<Key>, second: nat, w: World)
    requires ValidTable(table) && ValidChunk(table, ci) && ValidChunk(table, cj) && Mergeable(ci, cj)
    requires second < |ci| && second != FirstOutside(ci, cj) && Eval(table[ci[second]], w)
    requires !OthersHold(table, cj, FirstOutside(cj, ci), w)
    ensures var an := if Eval(table[cj[FirstOutside(cj, ci)]], w) then Conjoining() else Weakening();
            !StepPreserves(an, Anything(), table, ci, cj)
  {
    hide TryAnd, ChunkHolds, OthersHold, Conjoining, Weakening, ValidTable;
    var p, q := FirstOutside(ci, cj), FirstOutside(cj, ci);
    var an := if Eval(table[cj[q]], w) then Conjoining() else Weakening();
    var known := Known(an, table, ci, p, |ci|);
    AnalyzersAreSound(Anything());
    KnownOthers(an, Anything(), table, ci, p, w);
    SomeOther(table, ci, p, second, w);
    ConjoiningAnswer(known, table, ci[p], cj[q]);
    WeakeningAnswer(known, table, ci[p], cj[q], w);
    var (table', a, b) := TryAnd(an, known, table, ci[p], cj[q]);
    ReplaceInChunk(table, table', ci, p, a, w);
    ReplaceInChunk(table, table', cj, q, b, w);
    assert Anything()(w);
  }

  lemma SomeOther(table: seq<Expr>, c: seq<Key>, p: nat, i: nat, w: World)
    requires ValidChunk(table, c) && i < |c| && i != p && Eval(table[c[i]], w)
    ensures OthersHold(table, c, p, w)
  {
  }

  lemma OthersFalse(table: seq<Expr>, c: seq<Key>, q: nat, other: Key, w: World)
    requires ValidTable(table) && ValidChunk(table, c) && q < |c| && other !in c
    requires forall k | 2 <= k < |table| :: table[k] == Atom(k)
    requires forall j | 0 <= j < |c| && j != q :: c[j] != KEY_TRUE
    requires forall id: nat :: w(id) ==> id == other
    ensures !OthersHold(table, c, q, w)
  {
  }

  /** With a second key of ci that matters outside cj, an analyzer and a world make the merge go wrong. */
  lemma MergeGoesWrong(ci: seq<Key>, cj: seq<Key>, second: nat)
    requires Mergeable(ci, cj) && !(KEY_TRUE in ci && KEY_TRUE in cj)
    requires second < |ci| && second != FirstOutside(ci, cj) && ci[second] !in cj && ci[second] != KEY_FALSE
    ensures !AlwaysPreserves(ci, cj)
  {
    hide OthersHold, StepPreserves, ChunkHolds, Sound, Conjoining, Weakening;
    var table := AtomTable(2 + MaxKey(ci) + MaxKey(cj));
    var q := FirstOutside(cj, ci);
    SharedAllBut(cj, ci, q);
    var w: World := id => id == ci[second];
    OthersFalse(table, cj, q, ci[second], w);
    MergeFailsIn(table, ci, cj, second, w);
    AnalyzersAreSound(Anything());
  }

  /** A guarded merge is right for every sound analyzer, meaning of the keys and world exactly if it is clean. */
  lemma MergeExact(ci: seq<Key>, cj: seq<Key>)
    requires Mergeable(ci, cj)
    ensures AlwaysPreserves(ci, cj) <==> CleanMerge(ci, cj)
  {
    if CleanMerge(ci, cj) {
      hide CleanMerge, Mergeable;
      forall an: Analyzer, possible: World -> bool, table: seq<Expr>
        | Sound(an, possible) && ValidTable(table) && ValidChunk(table, ci) && ValidChunk(table, cj)
        ensures StepPreserves(an, possible, table, ci, cj)
      {
        forall w | possible(w) {
          MergeSound(an, possible, table, ci, cj, w);
        }
      }
    } else {
      var second :| 0 <= second < |ci| && ci[second] !in cj && ci[second] != KEY_FALSE && second != FirstOutside(ci, cj);
      MergeGoesWrong(ci, cj, second);
    }
  }

  /** The guard does hold of chunks that fail the condition. */
  lemma RepeatedKeysCanMerge(a: Key, b: Key, c: Key)
    requires a != b && b != c && a != c
    ensures Mergeable([a, b, b], [a, a, c]) && !OneDiffers([a, b, b], [a, a, c])
    ensures a != KEY_TRUE && b != KEY_FALSE ==> !CleanMerge([a, b, b], [a, a, c])
  {
    var i, j := [a, b, b], [a, a, c];
    assert i[1] !in j && j[2] !in i;
    SharedAllBut(j, i, 2);
    SharedAllBut(i, j, 1);
    assert i[2] !in j;
  }
}
