# Verification of selected TVM and tile-language components

This project models six parts of the repository in Dafny and proves what they promise:

1. **`AndOfOrs`** (`src/arith/conjunctive_normal_form.cc`): a boolean expression becomes a conjunction
   of disjunctions of interned keys, is rewritten in place within and across its chunks, and is
   printed back. The analyzer is an oracle that keeps the truth of its argument in every possible
   world that satisfies the constraint entered.
2. **The bound deducer** (`src/arith/bound_deducer.cc`): a comparison is inverted along the path to one
   variable through `+`, `-`, `*` and floor division. Interval evaluation, signs and provability are
   oracles that are right in the valuation at hand; divisibility may go unproved.
3. **Float width conversion** (`3rdparty/compiler-rt/builtin_fp16.h`): truncation and extension between
   any two formats of the widths `Widens` admits, against roundTiesToEven of section 4.3.1 of
   IEEE 754-2008, in integers with explicit word sizes.
4. **picojson** (`3rdparty/picojson/picojson.h`): the printer, the parser with its lazy cursor, and the
   parser that discards values.
5. **Tile kernels** (`tl_scripts`): forward and backward flash attention and implicit-GEMM convolution,
   over reals, with minus infinity explicit and with an abstract exp2 and log2 (exp2 is positive and
   turns sums into products, log2 inverts it). Copies read zero past a tensor and write nothing past
   it, as `src/tl/frontend_legalize.cc` arranges. Blocks of a grid run in any order.
6. **Two protocols**: the RPC match-key handshake (`apps/cpp_rpc`) as a step system over every sequence of
   events, and the name list that crosses from C++ to Go (`golang/src`).

Code that updates fields, buffers or arrays is modelled by classes and methods with loops; each is
proved against a function of the old state, and the properties are proved of those functions.

Some promises do not hold as they stand, and the exact condition is proved instead:

- The differ-by-one merge of two chunks tests the shared keys of one chunk only. It is right for
  every analyzer and every meaning of the keys exactly when true is a key of both chunks, or the first
  key outside the other chunk is the only one outside apart from false (`CnfMerging.MergeExact`). Chunks
  without repeated keys always meet this (`CnfMerging.DistinctMerge`), the constructor produces such
  chunks, but rewriting within chunks can repeat keys; `CnfCounterexample.SimplifyCanLoseSolutions`
  gives a sound analyzer and an input that simplification then changes.
- An operand of a product or a divisor that is taken for positive, as every unsigned one is, gives a
  right bound for every comparison, right-hand side and value exactly when it is positive
  (`BoundInversion.FactorExact`, `BoundInversion.DivisorExact`); `BoundInversion.ZeroFactorUnsound` follows an
  unsigned zero through a whole inversion.
- Extension counts leading zeros in 32 bits. It is exact for every word exactly when the source significand
  has at most 31 bits; the least denormal of a wider source fails (`FloatExtend.Extend`).
- Flash attention without a mask lets the keys that pad the last block weigh in. It computes softmax
  attention on every input exactly when the key block divides the sequence length
  (`AttentionResults.UnmaskedIsSoftmax`); `AttentionResults.PaddingShrinks` says by how much it is off otherwise.
- The convolution guards the row and the column of a read but not the batch index. The reads of the
  grid lie inside the input exactly when no row past the last position passes the guard
  (`Convolution.GridReads`), and, where the first position sees the input, exactly when the row block divides
  the number of positions (`Convolution.PaddedReads`). What such rows read never reaches the output.
- The parser that discards values accepts number literals that make the building parser throw. Building
  throws exactly when a literal that the discarding parser reads is infinite (`JsonSkipping.ThrowsExactly`);
  on texts whose numbers are finite both agree (`JsonSkipping.SkipAgrees`).
- The line counter of the JSON cursor stays right across `cur()` exactly when the byte that was pending
  is not a newline (`JsonInput.Input.Cur`); `JsonParser.MiscountedLine` is a run where it does not.

The gradient of the queries is accumulated on top of what its buffer held, so it is right exactly where
that was zero (`AttentionTraining.ForwardBackward`), and `python/tvm/tl/utils.py` allocates the buffer without
clearing it, with the size of the tensor, which is the size of the layout exactly when 8 divides length
and dimension (`AttentionPreprocess.BoxFits`).

`dafny verify dfyconfig.toml` checks the whole project.

## Model

| member | source | states |
|---|---|---|
| `FloatFormat.RoundingRule` | 3rdparty/compiler-rt/builtin_fp16.h:112-120 | rounding a floor up by its round bits, ties to even, gives the nearest destination value, infinity from the threshold of section 4.3.1 on |
| `FloatFormat.RoundsToMonotone` | 3rdparty/compiler-rt/builtin_fp16.h:65-165 | rounding to nearest even is a monotone function of the magnitude with one result |
| `FloatFormat.BiasIsStandard` | 3rdparty/compiler-rt/builtin_fp16.h:67-87 | the bias is emax of section 3.4 of IEEE 754-2008, and the value that both formats encode by the bias alone is the same |
| `FloatTruncate.Truncate` | 3rdparty/compiler-rt/builtin_fp16.h:65-165 | for every source word and all admitted widths: the sign is kept, every number becomes the nearest destination value with ties to even, every NaN a quiet NaN with the leading payload bits |
| `FloatTruncate.RangeTest` | 3rdparty/compiler-rt/builtin_fp16.h:108 | the comparison of two wrapping differences is an interval test |
| `FloatTruncate.BranchTests` | 3rdparty/compiler-rt/builtin_fp16.h:108-131 | the thresholds select the normal, NaN, overflow and denormal branches by the exponent field |
| `FloatTruncate.NormalBranch` | 3rdparty/compiler-rt/builtin_fp16.h:109-120 | shifting, rebiasing and rounding rounds to nearest even, carries into the exponent and into infinity included |
| `FloatTruncate.NormalWords` | 3rdparty/compiler-rt/builtin_fp16.h:109-112 | the shift and the wrapping subtraction in destination words compute the rebiased pattern |
| `FloatTruncate.NaNBranch` | 3rdparty/compiler-rt/builtin_fp16.h:121-127 | the words of the NaN branch form a quiet NaN with the shifted payload |
| `FloatTruncate.OverflowBranch` | 3rdparty/compiler-rt/builtin_fp16.h:128-130 | values from the overflow exponent on round to infinity |
| `FloatTruncate.FlushBranch` | 3rdparty/compiler-rt/builtin_fp16.h:141-142 | values past the shift limit round to zero |
| `FloatTruncate.StickyOrder` | 3rdparty/compiler-rt/builtin_fp16.h:144-152 | after the sticky shift the round bits compare with half as the full remainder does |
| `FloatTruncate.DenormalBranch` | 3rdparty/compiler-rt/builtin_fp16.h:131-153 | the sticky denormal path rounds to nearest even |
| `FloatTruncate.TruncationMonotone` | 3rdparty/compiler-rt/builtin_fp16.h:65-165 | truncation is monotone in magnitude across all branch boundaries, and its contract fixes the result bit for bit |
| `FloatExtend.Clz` | 3rdparty/compiler-rt/builtin_fp16.h:33-61 | the number of leading zeros, by powers of two that bracket the word |
| `FloatExtend.ExtendNormal` | 3rdparty/compiler-rt/builtin_fp16.h:205-211 | shift and rebias keep the value |
| `FloatExtend.ExtendDenormal` | 3rdparty/compiler-rt/builtin_fp16.h:221-229 | renormalising at the leading one keeps the value |
| `FloatExtend.ExtendSpecial` | 3rdparty/compiler-rt/builtin_fp16.h:213-220 | infinity stays infinity; quiet bit and payload of a NaN keep their distance from the top |
| `FloatExtend.ExtendSubnormal` | 3rdparty/compiler-rt/builtin_fp16.h:221-229 | the denormal branch with a leading-zero count on the low 32 bits: exact for significands of at most 31 bits, wrong for the least denormal of wider ones |
| `FloatExtend.Extend` | 3rdparty/compiler-rt/builtin_fp16.h:169-244 | extension keeps sign and value of every zero, denormal, normal and infinity, and the fields of a NaN, for every word if and only if the source significand has at most 31 bits; the word 1 fails otherwise |
| `FloatExtend.RoundTrip` | 3rdparty/compiler-rt/builtin_fp16.h:65-244 | truncating an extended word returns its bits; a signalling NaN comes back with the quiet bit set |
| `BoolExpr.MkAnd` | src/arith/const_fold.h:403-411 | folding constants in a conjunction keeps its truth value |
| `BoolExpr.MkOr` | src/arith/const_fold.h:414-422 | folding constants in a disjunction keeps its truth value |
| `BoolExpr.MkNot` | src/arith/const_fold.h:425-431 | folding a constant under a negation keeps its truth value |
| `CnfParts.VisitAndIsFold` | src/arith/conjunctive_normal_form.cc:173-193 | the nested callbacks receive exactly the list of clauses, whatever state they update |
| `CnfParts.VisitOrIsFold` | src/arith/conjunctive_normal_form.cc:195-215 | on a clause the conjunction branch is never taken and the callback receives its terms |
| `CnfParts.AndPartsAreClauses` | src/arith/conjunctive_normal_form.cc:173-193 | every clause handed out is free of conjunctions down to its terms |
| `CnfParts.AndPartsMean` | src/arith/conjunctive_normal_form.cc:173-193 | distributing OR over AND keeps the truth value: the clauses together mean the expression |
| `CnfParts.OrPartsMean` | src/arith/conjunctive_normal_form.cc:195-215 | the terms together mean the clause |
| `CnfRewriting.Intern` | src/arith/conjunctive_normal_form.cc:217-227 | an expression gets a key that stands for it, old keys keep their meaning, no expression gets two keys |
| `CnfRewriting.TryOrSound` | src/arith/conjunctive_normal_form.cc:247-261 | the replacement pair has the same disjunction in every possible world |
| `CnfRewriting.TryAndSound` | src/arith/conjunctive_normal_form.cc:263-277 | the replacement pair has the same conjunction in every possible world where the entered constraint holds |
| `CnfRewriting.WithinChunkSound` | src/arith/conjunctive_normal_form.cc:286-297 | the pairwise loops keep the truth value of a chunk |
| `CnfRewriting.WithinChunksSound` | src/arith/conjunctive_normal_form.cc:286-297 | and of all chunks together |
| `CnfMerging.KnownMeans` | src/arith/conjunctive_normal_form.cc:368-376 | the constraint built for a merge says that the shared keys are false |
| `CnfMerging.MergeSound` | src/arith/conjunctive_normal_form.cc:349-380 | a clean merge keeps the conjunction of the two chunks, although the rewrite holds only where the shared keys are false |
| `CnfMerging.AcrossStepSound` | src/arith/conjunctive_normal_form.cc:299-384 | absorption either way, singleton merge and differ-by-one merge keep the conjunction of the two chunks |
| `CnfMerging.DistinctMerge` | src/arith/conjunctive_normal_form.cc:349-357 | for chunks without repeated keys the counting test forces one differing key on each side, and so a clean merge |
| `CnfMerging.OneDiffersIsClean` | src/arith/conjunctive_normal_form.cc:349-357 | without constant keys a guarded merge is clean exactly if one key differs on each side |
| `CnfMerging.MergeGoesWrong` | src/arith/conjunctive_normal_form.cc:349-380 | with a second key that matters outside the other chunk, some sound analyzer and world make the merge change the conjunction |
| `CnfMerging.MergeExact` | src/arith/conjunctive_normal_form.cc:349-380 | a guarded merge is right for every sound analyzer, meaning and world if and only if it is clean, constant keys included |
| `CnfMerging.RepeatedKeysCanMerge` | src/arith/conjunctive_normal_form.cc:349-357 | the counting test does pass chunks that fail that condition |
| `CnfSimplify.AddTermsMeans` | src/arith/conjunctive_normal_form.cc:152-159 | dropping duplicate keys keeps the meaning of a clause and leaves its keys distinct |
| `CnfSimplify.PermutationHolds` | src/arith/conjunctive_normal_form.cc:160-166 | a chunk dropped as a permutation of an earlier one means the same |
| `CnfSimplify.BuildMeans` | src/arith/conjunctive_normal_form.cc:148-171 | the constructor denotes exactly its argument, with distinct keys in every chunk |
| `CnfClauses.BuildExactly` | src/arith/conjunctive_normal_form.cc:148-171 | there is a chunk with exactly the terms of every clause and no other chunk, and no two chunks have the same keys |
| `CnfClauses.BuiltTerms` | src/arith/conjunctive_normal_form.cc:148-215 | every key stands for an expression that is neither a conjunction nor a disjunction |
| `CnfClauses.BuildForm` | src/arith/conjunctive_normal_form.cc:148-171 | a chunk is one constant alone or has no constant, and none is a permutation of another |
| `CnfSimplify.RemoveTrueFalseForm` | src/arith/conjunctive_normal_form.cc:386-411 | afterwards there is one empty chunk, or no true key, no false key and no empty chunk |
| `CnfSimplify.RemoveTrueFalseMeans` | src/arith/conjunctive_normal_form.cc:386-411 | removing constants keeps the meaning |
| `CnfSimplify.AcrossChunksSound` | src/arith/conjunctive_normal_form.cc:299-384 | the loops over all pairs keep the meaning when every merge they make is clean |
| `CnfProgress.PairsExactly` | src/arith/conjunctive_normal_form.cc:286-384 | the pairs of the nested loops are all pairs of different positions |
| `CnfProgress.PairsInOrder` | src/arith/conjunctive_normal_form.cc:286-384 | each of them once, in order |
| `CnfProgress.WithinVisitsPairs` | src/arith/conjunctive_normal_form.cc:286-297 | the loops within a chunk simplify exactly those pairs of its keys |
| `CnfProgress.AcrossVisitsPairs` | src/arith/conjunctive_normal_form.cc:299-384 | the loops across chunks compare exactly those pairs of chunks |
| `CnfProgress.OrAnswerTaken` | src/arith/conjunctive_normal_form.cc:247-261 | a pair of keys becomes the two parts of the analyzer's answer, or false and the answer, or stays if there is no news |
| `CnfProgress.AndAnswerTaken` | src/arith/conjunctive_normal_form.cc:263-277 | the same for conjunctions under a constraint, with true |
| `CnfProgress.SingletonsTakeAnswer` | src/arith/conjunctive_normal_form.cc:303-309 | two chunks of one key each take the answer about their conjunction |
| `CnfProgress.Absorbs` | src/arith/conjunctive_normal_form.cc:311-347 | for every analyzer, of two chunks one of which lies within the other, not both of one key, the smaller stays and the other becomes true |
| `CnfAbsorption.LeavesMinimal` | src/arith/conjunctive_normal_form.cc:279-411 | with an analyzer that returns its argument, false is left alone, or exactly minimal clauses are: none lies within another, each was built, and every clause built has one within it |
| `CnfAbsorption.NoneWithinAnother` | src/arith/conjunctive_normal_form.cc:311-347 | no chunk that is left lies within another |
| `CnfSimplify.AsExpr` | src/arith/conjunctive_normal_form.cc:235-245 | the printed expression means the chunks |
| `CnfSimplify.SimplifyRepSound` | src/arith/conjunctive_normal_form.cc:279-284 | the whole simplification keeps the truth value in every possible world |
| `CnfSimplify.SimplifySpecSound` | src/arith/conjunctive_normal_form.cc:436-441 | the entry point keeps the truth value of its argument in every possible world, for every sound analyzer |
| `CnfCounterexample.SimplifyCanLoseSolutions` | src/arith/conjunctive_normal_form.cc:279-384 | a sound analyzer, an input and a possible world where the input is true and its simplification false |
| `AndOfOrsClass.FindOutside` | src/arith/conjunctive_normal_form.cc:311-347 | the search loops find the first key outside the other chunk, or there is none |
| `AndOfOrsClass.CountShared` | src/arith/conjunctive_normal_form.cc:349-357 | the counting loop counts the positions whose key is shared |
| `AndOfOrsClass.AndOfOrs.GetKey` | src/arith/conjunctive_normal_form.cc:217-227 | the two maps stay inverse to each other and agree with the interned table |
| `AndOfOrsClass.AndOfOrs.GetExpr` | src/arith/conjunctive_normal_form.cc:229-233 | looking a key up gives the expression it was given for |
| `CnfVisiting.VisitorsBuild` | src/arith/conjunctive_normal_form.cc:148-215 | the visitor whose callback runs the other visitor, dropping duplicate keys and permuted chunks, builds the representation |
| `AndOfOrsClass.AndOfOrs.constructor` | src/arith/conjunctive_normal_form.cc:148-171 | fills the two maps and the chunks with the representation that `VisitorsBuild` and `BuildMeans` are about |
| `AndOfOrsClass.AndOfOrs.OrComponents` | src/arith/conjunctive_normal_form.cc:152-159 | collects the keys of the terms that the inner visitor hands out, in order and without duplicates |
| `AndOfOrsClass.AndOfOrs.TrySimplifyOr` | src/arith/conjunctive_normal_form.cc:247-261 | updates the maps and the pair as `TryOrSound` assumes |
| `AndOfOrsClass.AndOfOrs.TrySimplifyAnd` | src/arith/conjunctive_normal_form.cc:263-277 | updates the maps and the pair as `TryAndSound` assumes |
| `AndOfOrsClass.AndOfOrs.SimplifyWithinChunks` | src/arith/conjunctive_normal_form.cc:286-297 | the in-place loops have the effect `WithinChunksSound` is about |
| `AndOfOrsClass.AndOfOrs.RemoveConstants` | src/arith/conjunctive_normal_form.cc:386-411 | the in-place removal leaves the form `RemoveTrueFalseForm` is about |
| `AndOfOrsClass.AndOfOrs.BuildKnown` | src/arith/conjunctive_normal_form.cc:368-376 | builds the constraint `KnownMeans` is about |
| `AndOfOrsClass.AndOfOrs.SimplifyPair` | src/arith/conjunctive_normal_form.cc:303-380 | one pair of chunks, updated in place, as `AcrossStepSound` and `Absorbs` assume |
| `AndOfOrsClass.AndOfOrs.SimplifyAcrossChunks` | src/arith/conjunctive_normal_form.cc:299-384 | the in-place loops have the effect `AcrossChunksSound`, `AcrossVisitsPairs` and `LeavesMinimal` are about |
| `AndOfOrsClass.AndOfOrs.Simplify` | src/arith/conjunctive_normal_form.cc:279-284 | the sequence of passes, ending free of constants |
| `AndOfOrsClass.AndOfOrs.AsPrimExpr` | src/arith/conjunctive_normal_form.cc:235-245 | prints the chunks in order |
| `AndOfOrsClass.SimplifyAsAndOfOrs` | src/arith/conjunctive_normal_form.cc:436-441 | the result has the truth value of the argument in every possible world if every merge is clean |
| `IntExpr.QuotientBounds` | src/arith/bound_deducer.cc:124-210 | floor division for divisors of either sign |
| `BoundInversion.LinearStep` | src/arith/bound_deducer.cc:106-122 | sums and differences are inverted exactly, reversed when the variable is subtracted |
| `BoundInversion.MulStep` | src/arith/bound_deducer.cc:124-164 | products are inverted soundly for proper operands of either sign and lose at most the boundary value of a lower bound |
| `BoundInversion.FloorDivStep` | src/arith/bound_deducer.cc:166-210 | floor divisions are inverted exactly for proper divisors of either sign |
| `BoundInversion.InvertExact` | src/arith/bound_deducer.cc:106-210 | over any nesting: what is derived implies the comparison, and the converse fails only for a lost boundary value |
| `BoundInversion.NothingLost` | src/arith/bound_deducer.cc:138-162 | no boundary value is lost if divisibility is decided exactly for expressions without the variable |
| `BoundInversion.UpperKeepsAll` | src/arith/bound_deducer.cc:143-162 | nor, with an incomplete test, if no lower bound is derived at a product |
| `BoundInversion.InvertFree` | src/arith/bound_deducer.cc:106-210 | the derived bound does not mention the variable |
| `BoundInversion.FactorExact` | src/arith/bound_deducer.cc:97-164 | at a product whose operand is taken for positive, what is derived implies the comparison for every comparison, right-hand side and value if and only if the operand is positive |
| `BoundInversion.DivisorExact` | src/arith/bound_deducer.cc:97-210 | the same at a floor division |
| `BoundInversion.ZeroFactorUnsound` | src/arith/bound_deducer.cc:129-136 | an unsigned operand that is zero passes and gives a bound with a value that fails |
| `BoundDeducerClass.VariablePathFinder.Visit` | src/arith/bound_deducer.cc:41-61 | the traversal leaves the path to the first occurrence, or the path it started with |
| `BoundDeducerClass.GetPath` | src/arith/bound_deducer.cc:65-69 | the path is empty exactly if the variable does not occur |
| `BoundDeducerClass.TransformedExact` | src/arith/bound_deducer.cc:269-330 | every comparison turns into an equivalent `<=`, `>=` or `==` with the variable on the left |
| `BoundDeducerClass.RelaxedSound` | src/arith/bound_deducer.cc:353-370 | the relaxed comparison implies the original one |
| `BoundDeducerClass.BoundDeducer.VisitExpr` | src/arith/bound_deducer.cc:85-93 | walks the path from the top and ends with the comparison of the variable or with failure |
| `BoundDeducerClass.BoundDeducer.VisitNode` | src/arith/bound_deducer.cc:106-210 | one visitor updates comparison, bound and success as the step lemmas assume |
| `BoundDeducerClass.BoundDeducer.Relax` | src/arith/bound_deducer.cc:353-370 | fails exactly when the needed interval ends are missing, and otherwise relaxes both sides |
| `BoundDeducerClass.BoundDeducer.Deduce` | src/arith/bound_deducer.cc:332-351 | transformation, relaxation and visitors in sequence |
| `BoundDeducerClass.DeduceBound` | src/arith/bound_deducer.cc:372-388 | the interval that `DeducedSound`, `DeducedExact` and `AnswersExactly` are about, or nothing |
| `BoundDeducerClass.DeducedFree` | src/arith/bound_deducer.cc:332-388 | the ends of the interval do not mention the variable |
| `BoundDeducerClass.DeducedSound` | src/arith/bound_deducer.cc:269-388 | every value in the interval makes the original comparison true, in every valuation in which the oracles are right |
| `BoundDeducerClass.DeducedExact` | src/arith/bound_deducer.cc:124-210 | with nothing relaxed the interval misses the boundary values of products and no other solution |
| `BoundDeducerClass.DeducedIsSolutionSet` | src/arith/bound_deducer.cc:332-388 | with an exact divisibility test as well, the interval is the solution set: for every value of the variable |
| `BoundDeducerClass.UpperIsSolutionSet` | src/arith/bound_deducer.cc:332-388 | with an incomplete test it still is, where no lower bound is derived at a product |
| `BoundDeducerClass.OraclesExist` | src/arith/bound_deducer.cc:97-102 | in every environment and for every comparison there are oracles that meet all hypotheses above for every value of the variable |
| `BoundAnswers.ComesOutExactly` | src/arith/bound_deducer.cc:106-210 | with oracles that decide, an equation along sums, differences and products comes out exactly if it has a solution |
| `BoundAnswers.PreparedExactly` | src/arith/bound_deducer.cc:269-370 | the comparison is ready for the visitors exactly if the right side is bounded, an equation has point intervals on both sides, and the end used still holds the variable |
| `BoundAnswers.AnswersPrepared` | src/arith/bound_deducer.cc:85-210 | the visitors succeed exactly if the path allows it: for inequalities sums, differences, nonzero factors and dividends with a nonzero divisor, for equations no quotient and a solution |
| `BoundAnswers.AnswersExactly` | src/arith/bound_deducer.cc:332-388 | with oracles that decide, an interval is given if and only if the shape of the comparison allows it; an inequality with a proper path always gets one |
| `BoundAnswers.SolvesExactly` | src/arith/bound_deducer.cc:332-388 | and then the interval is the solution set |
| `JsonPrinter.SerializeString` | 3rdparty/picojson/picojson.h:537-574 | writes the escaped text that `StringRoundTrip` reads back |
| `JsonPrinter.Indent` | 3rdparty/picojson/picojson.h:583-589 | a newline and the indentation |
| `JsonPrinter.SerializeArray` | 3rdparty/picojson/picojson.h:597-619 | an array, compact or pretty |
| `JsonPrinter.SerializeObject` | 3rdparty/picojson/picojson.h:620-647 | an object, its members in the order of iteration |
| `JsonPrinter.Serialize` | 3rdparty/picojson/picojson.h:591-655 | the text that `SerializedRoundTrip` is about, appended to the output |
| `JsonLanguage.EscapedExactly` | 3rdparty/picojson/picojson.h:537-566 | a byte is written with a short escape where there is one, as a code point if it is another control character or delete, and as itself otherwise |
| `JsonLayout.BodyLaid` | 3rdparty/picojson/picojson.h:583-647 | pretty text is compact text with a line break and two spaces per open bracket after opening brackets and commas and before closing ones, and a space after colons, outside strings |
| `JsonLayout.SerializedLaid` | 3rdparty/picojson/picojson.h:591-655 | the pretty serialisation is the compact one laid out, and a newline |
| `JsonRoundTrip.StringRoundTrip` | 3rdparty/picojson/picojson.h:791-832 | reading an escaped string gives its bytes back and stops after the quote |
| `JsonRoundTrip.NumberRoundTrip` | 3rdparty/picojson/picojson.h:874-894 | reading a printed integer gives it back and stops after it |
| `JsonRoundTrip.ItemsRoundTrip` | 3rdparty/picojson/picojson.h:834-851 | reading printed items gives them back in order and stops after the bracket |
| `JsonRoundTrip.MembersRoundTrip` | 3rdparty/picojson/picojson.h:853-872 | reading printed members gives them back, a later key replacing an earlier one, and stops after the brace |
| `JsonRoundTrip.MembersAre` | 3rdparty/picojson/picojson.h:853-872 | members with distinct keys give the same object in whatever order they are read |
| `JsonRoundTrip.RoundTrip` | 3rdparty/picojson/picojson.h:896-951 | parsing a printed value, at any indentation and before any text, yields the value and stops at the end of its text |
| `JsonRoundTrip.SerializedRoundTrip` | 3rdparty/picojson/picojson.h:591-655 | parsing a serialisation yields the value and leaves only the final newline of the pretty form |
| `JsonRoundTrip.AnyOrderRoundTrip` | 3rdparty/picojson/picojson.h:591-951 | for every value with integral numbers and every order of the members of its objects, parsing the serialisation yields the value |
| `JsonRoundTrip.ReaderExists` | 3rdparty/picojson/picojson.h:874-894 | a number reader as the round trips assume it exists |
| `JsonRoundTrip.DocumentOf` | 3rdparty/picojson/picojson.h:620-647 | every such value can be written |
| `JsonInput.Input.Getc` | 3rdparty/picojson/picojson.h:673-686 | the next byte and one step forward, or end of input; a pending byte is inside the text and the line count is right |
| `JsonInput.Input.Ungetc` | 3rdparty/picojson/picojson.h:687 | takes back the last step |
| `JsonInput.Input.Cur` | 3rdparty/picojson/picojson.h:688-695 | the logical position; the line count stays right if and only if no newline was pending |
| `JsonInput.Input.SkipWs` | 3rdparty/picojson/picojson.h:697-705 | skips white space and nothing else |
| `JsonInput.Input.Expect` | 3rdparty/picojson/picojson.h:706-713 | takes the byte if it is next after white space, and otherwise only the white space |
| `JsonInput.Input.Match` | 3rdparty/picojson/picojson.h:714-722 | succeeds exactly if the pattern is next; what is left in either case |
| `JsonInput.ParseQuadHex` | 3rdparty/picojson/picojson.h:725-746 | four hexadecimal digits, or failure at the first other byte |
| `JsonInput.ParseCodepoint` | 3rdparty/picojson/picojson.h:748-789 | one escape or a surrogate pair as UTF-8, or failure |
| `JsonUnicode.Utf8RoundTrip` | 3rdparty/picojson/picojson.h:772-787 | an independent UTF-8 decoder reads the bytes of every code point back as that code point |
| `JsonUnicode.Utf8Shortest` | 3rdparty/picojson/picojson.h:772-787 | no shorter byte string decodes to that code point |
| `JsonUnicode.QuadExactly` | 3rdparty/picojson/picojson.h:725-746 | four digits are read exactly if they are hexadecimal digits of either case, as their value |
| `JsonUnicode.CodepointExactly` | 3rdparty/picojson/picojson.h:748-789 | an escape is read exactly if it names a code point, by four digits or by its two surrogates, and its bytes decode to that code point |
| `JsonInput.ParseString` | 3rdparty/picojson/picojson.h:791-832 | the unescaped bytes up to the quote, or failure, and what is left |
| `JsonInput.ParseNumber` | 3rdparty/picojson/picojson.h:874-894 | the longest run of number characters |
| `JsonParser.Parse` | 3rdparty/picojson/picojson.h:896-951 | outcome and position are those of the grammar; the position never moves back and every success moves it forward |
| `JsonParser.ParseArrayItems` | 3rdparty/picojson/picojson.h:834-851 | likewise for arrays |
| `JsonParser.ParseObjectMembers` | 3rdparty/picojson/picojson.h:853-872 | likewise for objects, a later member replacing an earlier one of the same key |
| `JsonLanguage.PiecesRead` | 3rdparty/picojson/picojson.h:791-832 | every well-formed string text is read as the bytes it means |
| `JsonLanguage.PiecesParsed` | 3rdparty/picojson/picojson.h:791-832 | whatever is read as a string is such a text |
| `JsonExact.TreeRead` | 3rdparty/picojson/picojson.h:834-951 | every well-formed text, with any white space, escapes and numerals, is read as the value it means |
| `JsonExact.TreeParsed` | 3rdparty/picojson/picojson.h:834-951 | whatever is read is a well-formed text that means the value |
| `JsonExact.ParsesExactly` | 3rdparty/picojson/picojson.h:896-951 | a value is read from a text if and only if the text starts with white space and a way of writing that value, up to what is left |
| `JsonParser.Skip` | 3rdparty/picojson/picojson.h:896-951 | the parser with the discarding context, by its own grammar function |
| `JsonParser.SkipArray` | 3rdparty/picojson/picojson.h:834-851 | likewise for arrays |
| `JsonParser.SkipObject` | 3rdparty/picojson/picojson.h:853-872 | likewise for objects |
| `JsonSkipping.ThrowsExactly` | 3rdparty/picojson/picojson.h:896-951 | building throws if and only if a number literal that the discarding parser reads is infinite |
| `JsonSkipping.SkipAgrees` | 3rdparty/picojson/picojson.h:978-1076 | on a text whose numbers are finite both contexts accept alike and stop at the same place |
| `JsonSkipping.SkippingIgnoresOverflow` | 3rdparty/picojson/picojson.h:1039-1076 | a literal out of range makes building throw and is accepted when skipping |
| `JsonParser.ParseText` | 3rdparty/picojson/picojson.h:1087-1105 | succeeds exactly on texts that start with a value, at the position after it; an error names the line where the grammar fails, less a pending newline, and the rest of that line |
| `JsonParser.MiscountedLine` | 3rdparty/picojson/picojson.h:688-695 | a run in which the position moves past a newline that is not counted |
| `TileOps.Copy` | src/tl/frontend_legalize.cc:93-104 | rows past the tensor read as zero |
| `AttentionSpec.MaxIsMaximum` | tl_scripts/mha_example.py:56-57 | the running maximum bounds all scores seen and is one of them |
| `AttentionSpec.MaxIsFinite` | tl_scripts/mha_example.py:47-57 | after the first block the maximum is finite, causal or not |
| `AttentionSpec.RatioInvariant` | tl_scripts/mha_example.py:58-70 | output over sum does not depend on the maximum subtracted |
| `AttentionLaws.SoftmaxByDefinition` | tl_scripts/mha_example.py:76-79 | the output times the sum of the exponentials of a row's visible scores is the sum of the values weighted by them |
| `AttentionForward.Corrected` | tl_scripts/mha_example.py:58-61 | the correction factor moves the running sums to the new maximum, the first block included |
| `AttentionForward.NextSum` | tl_scripts/mha_example.py:66-68 | the new sum of weights from the old one and a block |
| `AttentionForward.NextV` | tl_scripts/mha_example.py:60-65 | the new weighted sum of values from the old one and a block |
| `AttentionForward.TileScores` | tl_scripts/mha_example.py:46-54 | mask and product leave the score of every key of the block |
| `AttentionForward.ReduceMax` | tl_scripts/mha_example.py:57 | the row maxima after the block |
| `AttentionForward.Reweigh` | tl_scripts/mha_example.py:58-64 | weights relative to the new maximum; no infinity is subtracted from another |
| `AttentionForward.Accumulate` | tl_scripts/mha_example.py:65-68 | the corrected sums plus the block are the running sums of all keys so far |
| `AttentionForward.AttendBlock` | tl_scripts/mha_example.py:45-68 | the online-softmax invariant: maximum, sum of exp2(s - max) and weighted sum of V after every block |
| `AttentionForward.WriteOutput` | tl_scripts/mha_example.py:69-71 | sums are positive, and the rows of the tile inside the sequence get the weighted mean of the values |
| `AttentionForward.WriteLse` | tl_scripts/mha_bwd_example.py:72-74 | exp2 of the written value is the sum of exp2 of all scores |
| `AttentionForward.AttendTile` | tl_scripts/mha_bwd_example.py:34-74 | one block of the grid writes its own rows, right for the keys it visits, and no others |
| `AttentionResults.FlashForward` | tl_scripts/mha_bwd_example.py:20-74 | with the blocks in any order, every row ends up with the mean over the keys its tile visits |
| `AttentionResults.CausalIsSoftmax` | tl_scripts/mha_example.py:42-51 | with a mask that is softmax attention for every length and block size: skipped blocks are fully masked |
| `AttentionResults.PaddingShrinks` | tl_scripts/mha_example.py:43-53 | without a mask each padded key adds one to the sum; the output is right exactly if there is none or the right value is zero |
| `AttentionResults.UnmaskedIsSoftmax` | tl_scripts/mha_example.py:43-53 | without a mask the kernel is right on every input if and only if the key block divides the length |
| `AttentionResults.ForwardIsExact` | tl_scripts/mha_bwd_example.py:42-74 | with a mask or a dividing block, output and log-sum-exp are exact |
| `AttentionGradient.ProbsSumToOne` | tl_scripts/mha_bwd_example.py:66-70 | the probabilities of a row add up to one |
| `AttentionGradient.OutputProductIsMean` | tl_scripts/mha_bwd_example.py:96-103 | the product of output and its gradient is the row sum of P times dP |
| `AttentionGradient.ScoreGradClosed` | tl_scripts/mha_bwd_example.py:212-213 | the Jacobian of softmax applied to dP is P times dP minus the row sum |
| `AttentionGradient.ScoreGradsCancel` | tl_scripts/mha_bwd_example.py:212-213 | the score gradients of every full row add up to zero |
| `AttentionLaws.ProbabilitySecant` | tl_scripts/mha_bwd_example.py:212-213 | multiplying the exponential of one score by c changes every probability by (c - 1) times the entry of the Jacobian, over 1 + (c - 1) times the probability of that key |
| `AttentionLaws.ValuesCount` | tl_scripts/mha_bwd_example.py:196-206 | a change of the values changes the output, weighted by its gradient, by exactly dV times the change |
| `AttentionLaws.QueryCounts` | tl_scripts/mha_bwd_example.py:212-221 | a change of a query changes the scores, weighted by their gradients, by exactly dQ times the change |
| `AttentionLaws.KeyCounts` | tl_scripts/mha_bwd_example.py:212-218 | the same for a key and dK |
| `AttentionPreprocess.TilesThenColumns` | tl_scripts/mha_bwd_example.py:97-102 | adding up tiles first and columns then adds up the row |
| `AttentionPreprocess.Preprocess` | tl_scripts/mha_bwd_example.py:91-103 | with the blocks in any order, every row gets the product of its output and output gradient, for every length and dimension |
| `AttentionPreprocess.LayoutInvertible` | tl_scripts/mha_bwd_example.py:108-112 | the layout of dQ puts no two elements in one place |
| `AttentionPreprocess.PlaceInvertible` | tl_scripts/mha_bwd_example.py:108-112 | every place of the shape is the place of its element |
| `AttentionPreprocess.LayoutOnto` | tl_scripts/mha_bwd_example.py:108-112 | the layout fills its shape if and only if 8 divides length and dimension |
| `AttentionPreprocess.BoxFits` | python/tvm/tl/utils.py:78-81 | the shape has as many places as the tensor has elements if and only if 8 divides both, and otherwise more |
| `AttentionBackward.RecomputeProbs` | tl_scripts/mha_bwd_example.py:192-203 | the kernel's probabilities of a tile, masked after the exponential |
| `AttentionBackward.ScoreGrads` | tl_scripts/mha_bwd_example.py:204-213 | the scaled score gradients of a tile |
| `AttentionBackward.AddValueGrads` | tl_scripts/mha_bwd_example.py:192-206 | dV after a further block of queries |
| `AttentionBackward.AddKeyGrads` | tl_scripts/mha_bwd_example.py:208-218 | dK after a further block of queries, and the share of dQ of this block of keys |
| `AttentionBackward.SendAdds` | tl_scripts/mha_bwd_example.py:219-221 | one addition per element inside the sequence and none outside |
| `AttentionBackwardGrid.SkippedIsZero` | tl_scripts/mha_bwd_example.py:189-191 | blocks before the causal start block would add zero to dV and dK |
| `AttentionBackwardGrid.SkippedShare` | tl_scripts/mha_bwd_example.py:189-191 | and zero to dQ |
| `AttentionBackwardGrid.PaddedIsZero` | tl_scripts/mha_bwd_example.py:190-214 | queries past the sequence add zero |
| `AttentionBackwardGrid.BackBlock` | tl_scripts/mha_bwd_example.py:191-221 | one block of queries keeps the sums of dV and dK and the additions to dQ right for all queries so far |
| `AttentionBackwardGrid.BackTile` | tl_scripts/mha_bwd_example.py:174-223 | one block of the grid finishes its own rows, leaves the others, and sends its share of dQ |
| `AttentionBackwardGrid.FlashBackward` | tl_scripts/mha_bwd_example.py:155-223 | with the blocks in any order, the grid finishes every row of dV and dK and logs every block's additions |
| `AttentionBackwardResults.AddedPermutes` | tl_scripts/mha_bwd_example.py:219-221 | atomic additions have the same effect in any order |
| `AttentionBackwardResults.AnyScheduleAddsGradient` | tl_scripts/mha_bwd_example.py:191-221 | any interleaving of all blocks' additions adds dS times K at every index |
| `AttentionBackwardResults.AtomicAdd` | tl_scripts/mha_bwd_example.py:108-112 | an addition through the layout changes one element of dQ and no other |
| `AttentionBackwardResults.RunAdds` | tl_scripts/mha_bwd_example.py:219-221 | running the additions one by one through the layout adds their sum to every element |
| `AttentionBackwardResults.Postprocess` | tl_scripts/mha_bwd_example.py:126-131 | reading dQ back through the layout gives every element |
| `AttentionBackwardResults.KernelProbIsProb` | tl_scripts/mha_bwd_example.py:197-203 | exp2 of score minus log-sum-exp is the normalised probability of the forward pass |
| `AttentionBackwardResults.KernelGradIsGrad` | tl_scripts/mha_bwd_example.py:212-213 | the kernel's score gradient is the Jacobian of softmax applied to dP, scaled |
| `AttentionBackwardResults.ReadyGivesGradients` | tl_scripts/mha_bwd_example.py:196-218 | from exact log-sum-exps and row products the kernel's sums are the gradients |
| `AttentionBackwardResults.BackwardPass` | tl_scripts/mha_bwd_example.py:136-225 | in any block order and under any scheduler of the atomic additions dV and dK are the kernel's sums over the sequence and dQ is its old content plus the kernel's sum |
| `AttentionTraining.LaunchExists` | tl_scripts/mha_bwd_example.py:228-256 | for every head and all block sizes there are block orders and a scheduler as assumed |
| `AttentionTraining.Prepare` | tl_scripts/mha_bwd_example.py:6-105 | forward pass and preprocessing leave the mean over the keys visited and its log-sum-exp; with a mask or a dividing block exact attention, log-sum-exps and row products |
| `AttentionTraining.ForwardBackward` | tl_scripts/mha_bwd_example.py:228-256 | a head through all four kernels, for every length; with a mask or a dividing block the output is softmax attention, dV and dK are its gradients, and dQ is its gradient exactly where the buffer held zero |
| `Convolution.Decode` | tl_scripts/conv_example.py:38-41 | a flat index decodes to its three digits, by either formula for the middle one |
| `Convolution.TermIsTap` | tl_scripts/conv_example.py:40-50 | at the flat index of a tap the kernel multiplies exactly the operands of that tap |
| `Convolution.FlatIsDirect` | tl_scripts/conv_example.py:36-52 | the flat sum over taps is the sum over kernel rows, columns and channels: every tap once |
| `Convolution.PositionInRange` | tl_scripts/conv_example.py:33-39 | every output position is a row of the flat output |
| `Convolution.RowIsPosition` | tl_scripts/conv_example.py:38-49 | every row is the position it is decoded to |
| `Convolution.NextTaps` | tl_scripts/conv_example.py:36-52 | a block of taps extends the sum, with zero for taps past the last |
| `Convolution.GuardedReadInside` | tl_scripts/conv_example.py:40-50 | a read that passes the guard is inside the input if and only if its row is an output position |
| `Convolution.GridReads` | tl_scripts/conv_example.py:24-50 | all reads of the grid are inside if and only if no row past the last position passes the guard |
| `Convolution.PaddedReads` | tl_scripts/conv_example.py:24-50 | where padding, dilation and kernel size let the first position see the input, that is so if and only if the row block divides the number of positions |
| `Convolution.CornerExactly` | tl_scripts/conv_example.py:40-47 | the condition on padding, dilation and kernel size says exactly that the first position sees the input |
| `Convolution.UnpaddedCornerReads` | tl_scripts/conv_example.py:40-47 | without padding it does |
| `Convolution.AddTaps` | tl_scripts/conv_example.py:36-52 | the accumulator after a further block of taps |
| `Convolution.ConvolveTile` | tl_scripts/conv_example.py:35-52 | a tile holds the flat sums over all taps |
| `Convolution.ConvolveBlock` | tl_scripts/conv_example.py:35-54 | one block of the grid writes its own part of the output and no more |
| `Convolution.Convolve` | tl_scripts/conv_example.py:24-54 | with the blocks in any order, every output is the direct strided, dilated, zero-padded convolution |
| `ConvolutionLaws.StoredValue` | tl_scripts/conv_example.py:40-47 | a tap reads the stored value at the decoded batch, row, column and channel exactly if the row and the column are inside the input, and zero otherwise |
| `ConvolutionLaws.ScatterIsDirect` | tl_scripts/conv_example.py:36-54 | every output is the sum of all stored values, each times the kernel entries that see it |
| `ConvolutionLaws.ImpulseResponse` | tl_scripts/conv_example.py:36-54 | an input that is one at one place and zero elsewhere gives the sum of the kernel entries whose dilated, strided, padded offsets meet that place, in that batch element only |
| `ConvolutionLaws.OutputSize` | tl_scripts/conv_example.py:9-10 | the input is as large as the usual output size formula for padding, stride and dilation requires, with nothing left over |
| `RpcHandshake.NextKeeps` | apps/cpp_rpc/rpc_server.cc:151-172 | every event keeps the invariant on keys, counter, connection and trace |
| `RpcHandshake.ContainsExactly` | apps/cpp_rpc/rpc_tracker_client.h:160-165 | the test for the key finds it exactly if it occurs somewhere in the text |
| `RpcHandshake.PresentsExactly` | apps/cpp_rpc/rpc_server.cc:271-300 | the stream reads give a word and options exactly if these are the first two words of the text, by their positions, and magic number and length are right |
| `RpcHandshake.PollEvent` | apps/cpp_rpc/rpc_tracker_client.h:140-185 | a poll in the trace is the event of that step, with the text received |
| `RpcHandshake.HandOverEvent` | apps/cpp_rpc/rpc_server.cc:251-319 | a hand-over in the trace is the event of that step, with the text received |
| `RpcHandshake.RunKeeps` | apps/cpp_rpc/rpc_server.cc:151-172 | the invariant holds after every run |
| `RpcHandshake.HandedOnlyToKey` | apps/cpp_rpc/rpc_server.cc:251-319 | at a hand-over in any run, the event of that step is a client whose first word is `client:` and the key last put, or the plain key without a tracker, and whose options are the text after it |
| `RpcHandshake.MatchingClientIsHandedOn` | apps/cpp_rpc/rpc_server.cc:271-316 | and every such client whose announced length is right is handed on |
| `RpcHandshake.PolledKeyNeverPutAgain` | apps/cpp_rpc/rpc_tracker_client.h:140-185 | a key that survived an idle poll is never put again |
| `RpcHandshake.ReplacedAfterUnlistedPolls` | apps/cpp_rpc/rpc_tracker_client.h:142-179 | a key is replaced only after c consecutive polls whose texts do not contain it, c the least number with c * period > 4 + period |
| `RpcHandshake.ListedPollRestarts` | apps/cpp_rpc/rpc_tracker_client.h:160-180 | a poll that lists the key starts the count again |
| `RpcHandshake.OverdueKeyNotPolled` | apps/cpp_rpc/rpc_tracker_client.h:160-180 | and never polled again once overdue |
| `RpcHandshake.EveryHandOverHasItsPut` | apps/cpp_rpc/rpc_server.cc:151-172 | between an exception or a hand-over and the next hand-over a key is put |
| `RpcServer.Server.TryConnect` | apps/cpp_rpc/rpc_tracker_client.h:82-100 | comes back connected and due to report, due to wait with the plain key, or with an exception |
| `RpcServer.Server.RandomKey` | apps/cpp_rpc/rpc_tracker_client.h:225-235 | the redraw loop ends with a key that was never polled |
| `RpcServer.Server.ReportResourceAndGetKey` | apps/cpp_rpc/rpc_tracker_client.h:115-131 | puts such a key and receives the status, or takes the plain key without a tracker |
| `RpcServer.Server.WaitConnectionAndUpdateKey` | apps/cpp_rpc/rpc_tracker_client.h:140-185 | the wait loop, with the redraw loop in it, ends with a connection and the key it is to present |
| `RpcServer.Server.AcceptConnection` | apps/cpp_rpc/rpc_server.cc:251-319 | the accept loop, with the wait loop in it, ends with a client that presents the key, or with an exception |
| `RpcServer.Server.ListenLoop` | apps/cpp_rpc/rpc_server.cc:151-241 | on any sequence of events the nested loops do what the step system does, and every action is safe: the key handed on, the keys put and the keys replaced |
| `NameList.NumberOfBytes` | golang/src/function.go:98-102 | the decoder's number of the encoder's bytes is the number, modulo the word size |
| `NameList.ByteAt` | golang/src/gotvm.cc:78-82 | byte i of a number is bits 8 i to 8 i + 7: least significant byte first |
| `NameList.PutUint64` | golang/src/gotvm.cc:78-82 | writes eight little-endian bytes at the offset and nothing else |
| `NameList.SizeIsOffset` | golang/src/gotvm.cc:115-129 | the moving offset ends exactly at the precomputed size |
| `NameList.TotalSize` | golang/src/gotvm.cc:115-118 | the precomputed size is the final offset |
| `NameList.ListGlobalNames` | golang/src/gotvm.cc:105-136 | the buffer is the encoding, filled exactly; it fails if and only if memory runs out or the size exceeds a C int |
| `NameList.FuncListGlobalNames` | golang/src/function.go:88-108 | decodes, or panics exactly when a slice is out of range |
| `NameList.RoundTrip` | golang/src/function.go:96-107 | decoding an encoding gives the names back in order with no byte left over |
| `NameList.DecodedIsEncoded` | golang/src/function.go:96-107 | whatever decodes with no byte left over is the encoding of the names read |
| `NameList.RoundTripThroughGo` | golang/src/gotvm.cc:105-136 | names go through encoder and decoder unchanged whenever the encoder succeeds |

## Left out

- CnfSimplify.SimplifySpecSound: assumes that every differ-by-one merge of the run is clean, because the code is not right without it.
- JsonRoundTrip.NumberRoundTrip: integers below 2^53 in magnitude, which print through `%.f`; `%.17g`, negative zero and locales are not part of this model, and `strtod` is a parameter.
- BoundDeducerClass.DeducedSound: multiplication and division operands beside the path are not zero, and positive if unsigned, because the code is not right for others; arithmetic on a symbolic infinity, which raises a type error, counts as failure.
- AttentionLaws.ProbabilitySecant: the exact secant of softmax in place of a limit, since exp2 is abstract.
- AttentionBackwardResults.AtomicAdd: the buffer of dQ has the shape of its layout; where 8 does not divide length or dimension the allocated buffer is smaller, and what lies past it is not part of this model.
- Convolution.PaddedReads: where the first position sees padding only, the condition on reads stays that of `GridReads`.
- Analyzer internals: rewriting, interval evaluation and provability are stateless oracles with a stated contract.
- Machine integer overflow in the arithmetic passes, except unsigned signs; node sharing, except identity on the path to the variable.
- Rounding, half-precision casts, thread layouts, swizzling and pipelining in the kernels; batch and head indices, which select independent slices.
- The backward kernel's copies of K and dsT into other memories, which do not change values.
- Sockets, timeouts, logging, child processes and the served session of the RPC server; they are events.
- Memory ownership between C++ and Go, and the other wrappers.
- The other scripts under `tl_scripts` (matrix products, reductions, transposition): their sums over tiles are covered by the convolution.
- The rest of the repository: compiler passes, runtime, bindings, build and test scripts.
