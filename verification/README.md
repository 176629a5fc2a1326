# Verified model of the graph store's query and storage cores

This project models, in Dafny, the parts of the repository whose answers must agree with a simple
specification, and proves the agreement for all inputs:

- **Query algebra** (`AlgebraTree`, `RowOps`, `Expressions`, `Values`, `Folding`, `FoldLimits`, `Simplify`,
  `Pushdown`, `PushProof`, `PushExact`, `StaticPush`, `PushStable`, `BgpOrder`, `Canonicalize`, `Rewrite`,
  `RewriteTwice`, with the loops in `EvalLoops` and `PushLoops`). What the operators and expressions themselves yield
  is stated on variables, row positions and terms (`OperatorMeaning`, `Grouping`, `ValueMeaning`, `QueryVars`, with
  `Positions`). Rows are partial maps, evaluation yields row *sequences*, expressions have three outcomes (section
  17.2 of SPARQL 1.1 Query). Each rewrite is proved against that evaluation: constant
  simplification and filter pushdown keep the exact sequence, pattern ordering keeps the multiset, and their
  composition is the pipeline `rewrite`, of which it is proved for exactly which queries a second run changes nothing.
- **Property paths** (`Paths`, `PathExact`, `PathModes`, `PathEnds`, `PathCompile`, loops in `PathLoops`). The work-list
  evaluator is proved to compute the relation section 18.4 of SPARQL 1.1 Query gives the path; termination rests
  on a weighted size, because pushing an inverse inward grows the path.
- **HDT and HDTQ** (`Codec`, `Section`, `BitmapTriples`, `ByteOrder`, `QuadIds`, `HdtFile`, `HdtRead`,
  `HdtLossless`, `Import`, `ImportTerms`). Growing buffers, cursors, front-coded blocks, bitmaps and graph layers as
  imperative code, up to the end-to-end statement that reading what was written yields each added quad exactly once.
- **Values and encodings** (`Calendar`, `DateText`, `InlineCompare`, `InlineId`, `ExactDecimal`, `Varint`,
  `Concise`, `HdtTerm`, `DotSegments`, `Resolve`).

A storage snapshot is a finite set of triples per graph together with a scan that lists the matching ones once
each, in any order, and an arbitrary estimate. Integer widths (`u64`, `i64`, `i128`, scale bytes) are written out
as bounds; overflow is a missing result.

## Where code and documentation differ

The model follows the code; each difference has its own statement below.

- `try_push` sinks a filter when its variables are *visible* on a side. On each of the three sides it may land on
  (left and right of a join, left of OPTIONAL) that keeps the rows exactly when the rows are *settled*
  (`PushExact.JoinSinkExactIff`, `RightSinkExactIff`, `LeftJoinSinkExactIff`); `VisibilityIsNotEnough` and
  `VisibilityIsNotEnoughOnTheRight` are queries whose answers change.
  `StaticPush.StaticPushPreserves` gives a test on the query that suffices for all data.
- `rewrite` is documented to be idempotent on its own output. A conjunct that comes later can stop at a filter an
  earlier one left on its way, and sink past it on a second run (`RewriteTwice.RewriteNotIdempotent` is such a
  query). `RewriteIdempotentIff` says for which queries it is idempotent: no conjunct lands on a filter although it
  could have sunk below it. `PushStable.PushIdempotentIff` says the same of `push_filters` alone.
- `fold` collapses `true && e` and the disjunction of `false` and `e` to `e`. That keeps the value exactly when `e`
  yields only booleans or errors (`FoldLimits.CollapseExactIff`, with `CollapseChangesValue`). A constant under `!`
  keeps its outcome exactly when `ebv_const` does not read it or reads it as it evaluates (`FoldNotExactIff`): always
  for booleans, integers, plain strings, IRIs and blank nodes (`ReadAlikeAgrees`), never with a language tag
  (`LangNeverAgrees`), and not for `"1e3"^^xsd:decimal` (`ExponentDecimalFolds`).
- A dictionary entry that holds a NUL, which the writer accepts in a literal, is read back only up to it. Random
  access and the iterator return the written section exactly when no entry holds one (`Section.AllReadIff`,
  `GetReads`, `Collect`).
- Inverting an empty negated property set is not its converse (`PathModes.InverseNpsExactIff`).
- Byte equality is said to be term equality. The decoder also accepts padded lengths inside triple terms
  (`Concise.NonMinimalAccepted`); `DecodeAccepted` and `BytesDecideTerms` say exactly when the claim holds.
- Subjects must be numbered 1, 2, ... without gaps for BitmapTriples to round trip (`BitmapTriples.RoundTripIff`);
  the writer's numbering is proved to have none.
- `Dec::round` sends a positive integer to its successor and leaves more than 38 fraction digits alone
  (`ExactDecimal.RoundHalfUpIff`, `FiveRoundsToSix`); integers near the 128-bit limit print text that does not parse
  (`LexicalRoundTrip`).
- Section 5.3 of RFC 3986 recomposes parts into a string. Without authority, a path that begins with `//` then
  reads as an authority (`Resolve.ResolvedParts`, `AmbiguityOccurs`). A same-document reference copies the base path
  with its dot segments, and only then does resolving again change the result (`ResolveSettles`,
  `CopiedPathUnsettled`).

## Model

| member | source | states |
|---|---|---|
| Folding.FoldKeepsEbv | crates/graphy-algebra/src/rewrite.rs:301-396 | on every row a folded condition is true, false or an error exactly when the condition is, if the constants it reads are read as they evaluate |
| Folding.FoldKeepsValue | crates/graphy-algebra/src/rewrite.rs:301-412 | a folded expression evaluates to the same term or error wherever each connective that collapses leaves a boolean-valued operand |
| Folding.FoldIdempotent | crates/graphy-algebra/src/rewrite.rs:301-396 | folding a second time changes nothing |
| FoldLimits.CollapseExactIff | crates/graphy-algebra/src/rewrite.rs:304-324 | collapsing `&&` or `||` with a constant operand keeps its value on all rows iff the operand that stays is a boolean or an error on all rows |
| FoldLimits.CollapseChangesValue | crates/graphy-algebra/src/rewrite.rs:304-324 | with ?x = 5, `true && ?x` and the disjunction of `false` and `?x` evaluate to true but fold to an expression with value 5 |
| FoldLimits.FoldNotExactIff | crates/graphy-algebra/src/rewrite.rs:325-331 | folding the negation of a constant keeps its outcome on all rows iff the constant is not read, or is read as it evaluates |
| FoldLimits.ReadAlikeAgrees | crates/graphy-algebra/src/rewrite.rs:417-443 | well-formed booleans and integers, plain strings, IRIs and blank nodes are read exactly as they evaluate |
| FoldLimits.LangNeverAgrees | crates/graphy-algebra/src/rewrite.rs:417-443 | a language-tagged constant is read by its non-emptiness, evaluates to an error, and its folded negation differs on every row |
| FoldLimits.ExponentDecimalFolds | crates/graphy-algebra/src/rewrite.rs:417-443 | the negation of `"1e3"^^xsd:decimal` folds to false although it evaluates to an error, the decimal parser refusing the exponent |
| Simplify.SimplifyPreserves | crates/graphy-algebra/src/rewrite.rs:121-294 | simplification keeps the exact row sequence of every tree, in every dataset and graph scope |
| Simplify.SimplifyIdempotent | crates/graphy-algebra/src/rewrite.rs:121-294 | simplifying a simplified tree changes nothing |
| FoldLimits.FoldComputes | crates/graphy-algebra/src/rewrite.rs:301-443 | a condition or sum of constants folds to the term it evaluates to, and to no constant exactly when it is an error |
| Expressions.DependsOnly | crates/graphy-algebra/src/rewrite.rs:696-737 | an expression with pushable variables has the same outcome on rows that agree on them, in any graph scope |
| QueryVars.PushableIff | crates/graphy-algebra/src/rewrite.rs:696-737 | a condition may move iff it tests no EXISTS, and counts exactly the variables it mentions |
| QueryVars.VisibleIff | crates/graphy-algebra/src/translate.rs:764-847 | a variable is visible iff some node introduces it that is neither on the right of a MINUS nor below a projection, group or inline table |
| Bindings.RowsBetween | crates/graphy-algebra/src/translate.rs:764-847 | every row of a tree binds only its visible variables, and at least the certain ones |
| PushProof.TryPushPreserves | crates/graphy-algebra/src/rewrite.rs:587-691 | evaluating the tree a conjunct was sunk into is filtering the rows of the tree, when the rows are settled where it sinks |
| PushProof.PushPreserves | crates/graphy-algebra/src/rewrite.rs:477-573 | filter pushdown keeps the exact row sequence when every filter sinks safely |
| PushExact.JoinSinkExactIff | crates/graphy-algebra/src/rewrite.rs:595-600 | filtering the left side of a join agrees with filtering the join for all conditions over given variables iff no compatible right row binds one of them that the left row leaves unbound |
| PushExact.RightSinkExactIff | crates/graphy-algebra/src/rewrite.rs:601-606 | the same equivalence for the right side of a join, with the sides exchanged |
| PushExact.LeftJoinSinkExactIff | crates/graphy-algebra/src/rewrite.rs:638-654 | the same equivalence for the left side of OPTIONAL |
| PushExact.VisibilityIsNotEnough | crates/graphy-algebra/src/rewrite.rs:594-654 | with inline data, a query gains a row by pushdown into the left of a join, and another into the left of OPTIONAL, although the filter variable is visible there |
| PushExact.VisibilityIsNotEnoughOnTheRight | crates/graphy-algebra/src/rewrite.rs:601-606 | a query loses its one answer by pushdown into the right of a join although both filter variables are visible there |
| StaticPush.StaticSinkSafe | crates/graphy-algebra/src/rewrite.rs:587-681 | a test on the query alone implies safe sinking on every dataset |
| StaticPush.StaticPushPreserves | crates/graphy-algebra/src/rewrite.rs:477-573 | pushdown of a query that passes the test keeps the exact rows on every dataset |
| QueryVars.TotalPasses | crates/graphy-algebra/src/rewrite.rs:477-573 | queries of basic graph patterns, paths, joins and row-dropping operators always pass the test |
| PushStable.FixIff | crates/graphy-algebra/src/rewrite.rs:477-573 | the pass returns a tree unchanged iff every filter holds one conjunct that stays above what its stack stands on |
| PushStable.SinkStable | crates/graphy-algebra/src/rewrite.rs:587-691 | sinking one conjunct leaves a stable tree stable iff on its way down it does not stop at a filter whose base it could sink into |
| PushStable.PushIdempotentIff | crates/graphy-algebra/src/rewrite.rs:477-508 | pushing filters twice is pushing them once iff no conjunct of the query, sunk in turn, stops that way |
| PushLoops.SplitInto | crates/graphy-algebra/src/rewrite.rs:575-583 | appends the conjuncts left to right behind what the list held |
| PushLoops.Flatten | crates/graphy-algebra/src/rewrite.rs:483-489 | the loop over a stack of filters collects all conjuncts, outermost first, and ends below the stack |
| PushLoops.PushEach | crates/graphy-algebra/src/rewrite.rs:490-500 | the conjunct loop keeps those that stay, in order, and threads the tree through every push |
| PushLoops.PushStack | crates/graphy-algebra/src/rewrite.rs:479-508 | the filter arm with its three loops computes the pass that `PushPreserves` is about |
| Canonicalize.SortDecides | crates/graphy-algebra/src/rewrite.rs:743-753 | two pattern lists sort to the same list iff they are rearrangements of each other |
| Canonicalize.SortedBySubject | crates/graphy-algebra/src/rewrite.rs:743-753 | the sorted patterns go by subject, predicate and object, constants first by their bytes, then variables by number |
| Canonicalize.CanonicalReorders | crates/graphy-algebra/src/rewrite.rs:743-824 | the pass changes nothing but the order of patterns inside basic graph patterns |
| Canonicalize.CanonicalIdempotent | crates/graphy-algebra/src/rewrite.rs:743-824 | canonicalizing twice is canonicalizing once |
| Canonicalize.CanonicalDecides | crates/graphy-algebra/src/rewrite.rs:743-824 | two queries share their canonical form (the plan-cache key) iff they differ in pattern order alone |
| Rewrite.ReorderPreserves | crates/graphy-algebra/src/rewrite.rs:743-824 | reordering patterns anywhere in a tree keeps the multiset of rows |
| Rewrite.SortRowsPerm | crates/graphy-engine/src/eval.rs:1242-1277 | ordering rows only permutes them |
| Rewrite.GroupPerm | crates/graphy-engine/src/eval.rs:1197-1238 | grouping and counting see no row order: permuted rows give permuted groups |
| Rewrite.RewritePreserves | crates/graphy-algebra/src/rewrite.rs:14-19 | simplify, push filters, canonicalize: together they keep the multiset of rows in every dataset, for queries whose simplified form passes the static test of `StaticPush` |
| RewriteTwice.PushMinimal | crates/graphy-algebra/src/rewrite.rs:16-19 | pushing filters in a simplified query leaves nothing to simplify |
| RewriteTwice.PushCanonical | crates/graphy-algebra/src/rewrite.rs:14-19 | pushing filters and ordering patterns commute |
| RewriteTwice.RewriteIdempotentIff | crates/graphy-algebra/src/rewrite.rs:14-19 | rewriting twice is rewriting once iff no conjunct of the simplified query stops at a filter whose base it could sink into |
| RewriteTwice.RewriteNotIdempotent | crates/graphy-algebra/src/rewrite.rs:14-19 | a query of three inline tables whose rewritten form is rewritten again to another one |
| BgpOrder.ScanRowExact | crates/graphy-engine/src/eval.rs:2777-2826 | scanning a pattern under a row yields exactly the extensions of the row that map the pattern to a triple of the graph, repeated variables included |
| BgpOrder.BgpSolutions | crates/graphy-engine/src/eval.rs:755-789 | the bind join lists each mapping of the patterns into the graph exactly once and nothing else |
| BgpOrder.BgpOrderIndependent | crates/graphy-engine/src/eval.rs:755-789 | the multiset of rows depends on the set of patterns only, not on order, repetition or estimates |
| BgpOrder.SortCheapest | crates/graphy-engine/src/eval.rs:755-789 | patterns are taken by ascending estimate, those of one estimate in the order they stand in |
| OperatorMeaning.BgpMaps | crates/graphy-engine/src/eval.rs:553-553 | in each scope a basic graph pattern yields, once each, the rows that bind its variables and map every pattern into that graph |
| OperatorMeaning.PathPairs | crates/graphy-engine/src/eval.rs:554-558 | in each scope a path pattern between variables yields each pair of the path that starts at a node, once |
| OperatorMeaning.JoinPairs | crates/graphy-engine/src/eval.rs:559-571 | one merged row for every pair of rows that agree on each shared variable, left row by left row |
| OperatorMeaning.LeftJoinPairs | crates/graphy-engine/src/eval.rs:572-596 | one merged row for every agreeing pair on which the condition is true, and the left row as it is where there is none |
| OperatorMeaning.FilterKeeps | crates/graphy-engine/src/eval.rs:597-601 | exactly the rows on which the condition is true stay, in order |
| OperatorMeaning.UnionRows | crates/graphy-engine/src/eval.rs:602-606 | the left rows, then the right rows |
| OperatorMeaning.GraphPairs | crates/graphy-engine/src/eval.rs:607-651 | the rows of each named graph in order, without those that bind the variable to another term, the variable bound to the name; a constant name selects its graph, or nothing |
| OperatorMeaning.ExtendBinds | crates/graphy-engine/src/eval.rs:655-667 | each row with the variable set to the value, or as it is where the expression errs |
| OperatorMeaning.MinusKeeps | crates/graphy-engine/src/eval.rs:668-681 | exactly the left rows stay, in order, for which no right row shares a bound variable and agrees on all it shares |
| OperatorMeaning.TableLines | crates/graphy-engine/src/eval.rs:682-704 | one row for each line that gives no variable two values, binding exactly what its cells give |
| OperatorMeaning.ProjectKeeps | crates/graphy-engine/src/eval.rs:716-728 | every row keeps exactly its bindings of the listed variables |
| OperatorMeaning.DistinctKeeps | crates/graphy-engine/src/eval.rs:729-736 | of equal rows exactly the first stays, in order |
| OperatorMeaning.PassedThrough | crates/graphy-engine/src/eval.rs:705-737 | REDUCED and inner selects pass the rows through |
| OperatorMeaning.SliceCuts | crates/graphy-engine/src/eval.rs:738-749 | the rows from the offset on, at most as many as the limit |
| Grouping.GroupsOf | crates/graphy-engine/src/eval.rs:1197-1238 | one row for each key in order of first appearance, binding keys and aggregates over the rows of that key, the last assignment of a variable winning |
| Grouping.EmptyGroup | crates/graphy-engine/src/eval.rs:1222-1225 | without keys and rows there is one group with no members |
| Grouping.AggregateMeans | crates/graphy-engine/src/eval.rs:1279-1315 | COUNT is the number of rows, of rows without error, or of distinct terms; SAMPLE the term of the first row that has one |
| Grouping.OrderSorts | crates/graphy-engine/src/eval.rs:1242-1277 | with a sorter that sorts by a comparison of keys and directions, no row follows one that its conditions put behind it |
| ValueMeaning.EqualityMeans | crates/graphy-engine/src/value.rs:706-756 | `=` and `!=` on IRIs, blank nodes, strings, integers and booleans: identity, text with tag in any case, or value; an error between literals of different kinds, unequal otherwise |
| ValueMeaning.OrderMeans | crates/graphy-engine/src/value.rs:683-701 | the four order comparisons: numbers by value, false before true, strings of one tag byte by byte, an error for every other pair |
| ValueMeaning.ComparisonErrs | crates/graphy-engine/src/eval.rs:1407-1409 | a comparison with an operand that errs is an error |
| ValueMeaning.InMeans | crates/graphy-engine/src/eval.rs:1426-1451 | IN is true iff some member is equal, and an error iff none is and comparing with some member is; NOT IN negates it |
| ValueMeaning.TruthMeans | crates/graphy-engine/src/value.rs:666-680 | the effective boolean value of every modelled kind of term, an error for IRIs, blank nodes and tagged strings |
| ValueMeaning.ConnectivesMean | crates/graphy-engine/src/eval.rs:1385-1406 | the three-valued truth tables of the connectives, and BOUND |
| ValueMeaning.IntegersCompute | crates/graphy-engine/src/eval.rs:1452-1455 | integer `+`, `-` and `*` are exact, and an error outside 64 bits |
| ValueMeaning.SignsCompute | crates/graphy-engine/src/eval.rs:1456-1466 | negation is exact or an error, `+` leaves a number as it is written |
| ValueMeaning.NumbersOnly | crates/graphy-engine/src/eval.rs:1452-1466 | arithmetic on IRIs, blank nodes, strings and booleans is an error |
| EvalLoops.ScanPattern | crates/graphy-engine/src/eval.rs:2777-2826 | the batch loop pushes the extensions of one row behind what the output held |
| EvalLoops.BindJoin | crates/graphy-engine/src/eval.rs:755-789 | the pattern loop with its early exit and the uncosted single pattern computes the bind join |
| EvalLoops.JoinRows | crates/graphy-engine/src/eval.rs:559-571 | the nested loops push the merges of compatible rows, left row by left row |
| EvalLoops.ExtendLeft | crates/graphy-engine/src/eval.rs:572-596 | one left row gives its passing merges, or itself when there is none |
| EvalLoops.EvalTree | crates/graphy-engine/src/eval.rs:546-751 | the evaluator's loops build the row sequence of every operator tree |
| Paths.NeighborsExact | crates/graphy-engine/src/eval.rs:1093-1148 | the neighbour scan lists exactly the far ends of matching edges whose predicate is not excluded |
| PathExact.ClosureIsSteps | crates/graphy-engine/src/eval.rs:957-980 | the visited-set loop lists exactly what zero (or one) or more steps reach |
| PathExact.ReachExact | crates/graphy-engine/src/eval.rs:935-1079 | `reach` lists y from x iff section 18.4 relates x to y by the path, nested closures and inverses included |
| PathModes.ReachConverse | crates/graphy-engine/src/eval.rs:983-1079 | reaching along the inverted path is reaching backwards along the path |
| PathModes.InverseNpsExactIff | crates/graphy-engine/src/eval.rs:1025-1077 | a negated set is inverted correctly on all graphs iff it is not empty |
| PathModes.NullableExact | crates/graphy-engine/src/eval.rs:2642-2650 | a nullable path relates every term to itself, and only nullable ones relate a term without edges to itself |
| PathModes.ReachableExact | crates/graphy-engine/src/eval.rs:908-931 | from a bound variable exactly the related graph nodes are listed, each once |
| PathModes.PathRows | crates/graphy-engine/src/eval.rs:835-890 | in all four binding modes the rows are exactly the solutions of the path pattern, each once |
| PathEnds.FromConstant | crates/graphy-engine/src/eval.rs:908-931 | from a constant exactly the related terms are reached, zero-length pairs of constants outside the graph or the store included, each once |
| PathEnds.ConstantSubject | crates/graphy-engine/src/eval.rs:835-890 | with a constant subject the rows are exactly the extensions by a related object, each once |
| PathEnds.ConstantObject | crates/graphy-engine/src/eval.rs:835-890 | with a constant object the rows are exactly the extensions by a related subject, each once; a subject the row already binds must be a node |
| PathEnds.ConstantEnds | crates/graphy-engine/src/eval.rs:835-890 | between constants the row stays iff they are related |
| PathEnds.OutsideStore | crates/graphy-engine/src/eval.rs:926-929 | a term outside the store is related to itself by nullable paths and to nothing else |
| PathModes.ModesCohere | crates/graphy-engine/src/eval.rs:835-890 | under pre-bound endpoints the rows are the unbound enumeration joined with the binding, as multisets |
| PathLoops.NeighborsLoop | crates/graphy-engine/src/eval.rs:1093-1148 | the scan with its seen set lists first occurrences in scan order |
| PathLoops.ClosureLoop | crates/graphy-engine/src/eval.rs:957-980 | frontier, visited set and output of the work-list loop give the closure, and the loop terminates |
| PathLoops.StepLoop | crates/graphy-engine/src/eval.rs:983-1079 | the step loops over mids, branches and negated sets give the step function |
| PathLoops.EvalPathLoop | crates/graphy-engine/src/eval.rs:835-890 | the four-mode loops push the rows of the path pattern |
| PathCompile.JoinTreesRows | crates/graphy-algebra/src/translate.rs:731-742 | dropping a unit operand or merging two basic graph patterns keeps the set of joined rows |
| PathCompile.JoinTreesSequence | crates/graphy-algebra/src/translate.rs:731-742 | where no basic graph patterns merge, the row sequence is that of the join |
| PathCompile.CompiledDecomposed | crates/graphy-algebra/src/translate.rs:188-216 | only closures and negated sets are left as path nodes, and no join has a unit operand or two basic graph patterns |
| PathCompile.CompiledMeans | crates/graphy-algebra/src/translate.rs:188-216 | the tree a path is translated to relates exactly the endpoint pairs of the path, and binds beyond them only fresh variables |
| PathCompile.CompileAgreesWithPath | crates/graphy-algebra/src/translate.rs:188-216 | decomposed and whole evaluation give the same endpoint pairs, namely those section 18.4 relates |
| Codec.VByteRoundTrip | crates/graphy-hdt/src/codec.rs:101-115 | a written value below 2^63 reads back and consumes its bytes exactly; every larger one is refused |
| Codec.Out.VByte | crates/graphy-hdt/src/codec.rs:203-213 | appends the seven-bit groups, least significant first, last one marked |
| Codec.Cur.VByte | crates/graphy-hdt/src/codec.rs:101-115 | the shifting loop returns the value of the groups and leaves the cursor behind them, or fails at the end of data or the tenth byte |
| Codec.BitsPack | crates/graphy-hdt/src/codec.rs:259-272 | the byte array holds exactly the bits of the values, in order, and has the least whole number of bytes |
| Codec.PackedReads | crates/graphy-hdt/src/codec.rs:246-272 | position k of a packed stream reads back value k, for every width and values that fit |
| Codec.BitsGet | crates/graphy-hdt/src/codec.rs:246-256 | the bit loop returns the number in the k-th slice of the stream |
| Codec.PackedAtMax | crates/graphy-hdt/src/codec.rs:275-277 | packing at the width of the maximum loses no value |
| Codec.BitsForLeast | crates/graphy-hdt/src/codec.rs:275-277 | no narrower width holds the maximum |
| Section.WriteLogSeq | crates/graphy-hdt/src/section.rs:38-47 | a written sequence stores every value at its position |
| Section.WriteBitmap | crates/graphy-hdt/src/section.rs:75-87 | a written bitmap stores every flag at its position |
| Section.WriteSection | crates/graphy-hdt/src/section.rs:176-209 | the front-coding loop lays out block heads in full, other entries by shared prefix length, and records every block start and the end |
| Section.LcpShared | crates/graphy-hdt/src/section.rs:186-194 | the stored prefix length is that of the longest common prefix of both entries |
| Section.GetAgrees | crates/graphy-hdt/src/section.rs:127-162 | random access returns the written entry for every index and refuses indexes past the end |
| Section.GetReads | crates/graphy-hdt/src/section.rs:127-162 | random access returns an entry up to its first NUL, if no entry before it in its block holds one |
| Section.AllReadIff | crates/graphy-hdt/src/section.rs:127-162 | random access returns every written entry iff none holds a NUL |
| Section.NextReads | crates/graphy-hdt/src/section.rs:219-257 | one iterator step, across block boundaries, decodes the next written entry up to its first NUL, and without one ends where the entry after it begins |
| Section.PfcIter.Next | crates/graphy-hdt/src/section.rs:219-257 | over a written section the iterator returns the written entries in turn, then nothing; the first that holds a NUL comes cut off there |
| Section.Collect | crates/graphy-hdt/src/section.rs:165-257 | collecting the iterator yields the written list iff no entry holds a NUL |
| BitmapTriples.Fill | crates/graphy-hdt/src/writer.rs:156-177 | the loop that looks one triple back and one ahead builds the four arrays |
| BitmapTriples.EachTripleIds | crates/graphy-hdt/src/reader.rs:189-212 | the reader's loop over stored arrays emits the walk's triples |
| BitmapTriples.WrittenReads | crates/graphy-hdt/src/reader.rs:189-212 | for every list the walk stays inside the written arrays and emits the list with subjects renumbered by runs; pairs and flags match in number |
| BitmapTriples.RoundTripIff | crates/graphy-hdt/src/writer.rs:156-177 | the list comes back unchanged iff its subjects are 1, 2, ... with none missing |
| QuadIds.SortDedup | crates/graphy-hdt/src/writer.rs:141-142 | the ids end up strictly ascending with the same members |
| QuadIds.SplitLoop | crates/graphy-hdt/src/writer.rs:143-154 | distinct triples and per-graph layers are collected in one pass |
| QuadIds.WriteAnnex | crates/graphy-hdt/src/quads.rs:94-118 | chunked layers answer membership for every graph and triple index |
| QuadIds.SplitJoin | crates/graphy-hdt/src/reader.rs:219-265 | recombining triples with their layers gives the ascending quad list back in order |
| QuadIds.RowsNotEmpty | crates/graphy-hdt/src/reader.rs:238-263 | no written triple is in no layer, so the "no graph" error cannot occur |
| HdtFile.HdtWriter.AddQuad | crates/graphy-hdt/src/writer.rs:49-71 | keeps the writer's invariant, refuses exactly quads with triple terms, and records the others |
| HdtFile.HdtWriter.WriteTo | crates/graphy-hdt/src/writer.rs:78-240 | the written dictionary, arrays and layers describe the assigned ids of the recorded quads, with dense subjects |
| HdtFile.DictHolds | crates/graphy-hdt/src/writer.rs:80-110 | the sections ascend; a string that is subject and object is shared, the others stand in their own section |
| HdtFile.IdsName | crates/graphy-hdt/src/writer.rs:80-110 | ids over shared, subject, object, predicate and graph sections name the strings they were assigned to |
| HdtFile.AssignedCovers | crates/graphy-hdt/src/writer.rs:80-139 | every subject id is used by some quad |
| HdtFile.RawRoundTrip | crates/graphy-hdt/src/writer.rs:49-71 | the dictionary strings of a quad decode to the quad |
| HdtRead.EachQuadIds | crates/graphy-hdt/src/reader.rs:219-265 | over a written file the id quads are reported in order and no error occurs |
| HdtRead.EachQuad | crates/graphy-hdt/src/reader.rs:298-338 | over a written file the quads are reported as the terms their ids name |
| HdtLossless.NothingLost | crates/graphy-hdt/src/reader.rs:298-338 | distinct ids decode to distinct quads and every added quad is among them |
| HdtLossless.ExportImport | crates/graphy-hdt/src/writer.rs:45-240 | after any run of additions, reading what was written reports each added quad exactly once and no error |
| HdtTerm.HdtRoundTrip | crates/graphy-hdt/src/term.rs:11-76 | every valid term but a triple term survives its HDT string |
| HdtTerm.FromHdtIff | crates/graphy-hdt/src/term.rs:11-46 | exactly which strings decode: those written, tags in any case, and plain strings with their datatype |
| HdtTerm.HdtInjective | crates/graphy-hdt/src/term.rs:49-76 | distinct terms have distinct HDT strings |
| Terms.LowerIs | crates/graphy-core/src/concise.rs:208-211 | lower case changes the letters A to Z to theirs and nothing else |
| HdtTerm.ConstructedOk | crates/graphy-core/src/term.rs:196-217 | literals the constructors return satisfy the term invariant |
| Import.SortSection | crates/graphy-hdt/src/import.rs:59-72 | the sorted section ascends and the remap is a permutation with sorted[remap[i]] = section[i] |
| Import.RemapsKeepsAll | crates/graphy-hdt/src/import.rs:59-72 | a section keeps every entry as often as it was |
| Import.KeptExact | crates/graphy-hdt/src/import.rs:76-96 | objects without an inline id stay in the dictionary, as often as they were, and no others |
| Import.MapObjects | crates/graphy-hdt/src/import.rs:76-96 | each object either becomes its inline id or gets the column of its own entry behind the shared section |
| Import.MapGraphs | crates/graphy-hdt/src/import.rs:36-56 | column 0 stays the default graph and every named graph's column points at its own entry |
| Import.ImportSegment | crates/graphy-hdt/src/import.rs:32-149 | the sections are consistently remapped and every quad with known ids is mapped through the remaps |
| Import.QuadConserved | crates/graphy-hdt/src/import.rs:98-133 | the mapped columns of every quad denote the quad's own terms and graph |
| Import.DenotesUnique | crates/graphy-hdt/src/import.rs:98-133 | columns denote one quad only, so distinct quads stay distinct |
| ImportTerms.GateIff | crates/graphy-hdt/src/import.rs:153-160 | bytes have an inline id iff they are a literal without language tag whose text is the canonical text of a value in range |
| ImportTerms.GateInjective | crates/graphy-hdt/src/import.rs:153-160 | with the real inline gate, doubles, floats and short strings included, distinct encoded terms never share an inline id |
| ImportTerms.ImportQuads | crates/graphy-hdt/src/import.rs:32-149 | with the real inline gate, every quad is mapped to columns that denote its own terms and graph and those of no other quad |
| Calendar.DaysRoundTrip | crates/graphy-core/src/id.rs:814-836 | every day number names a valid date whose day number it is |
| Calendar.Epoch | crates/graphy-core/src/id.rs:814-822 | 1970-01-01 is day 0 |
| Calendar.CivilRoundTrip | crates/graphy-core/src/id.rs:814-836 | every valid date comes back from its day number |
| Calendar.DaysMonotone | crates/graphy-core/src/id.rs:814-822 | later dates have larger day numbers |
| Calendar.CopiesAgree | crates/graphy-engine/src/value.rs:603-610 | the second copy differs by 719468 days and orders dates alike |
| DateText.RenderedText | crates/graphy-core/src/id.rs:614-796 | the text of an instant is that of its calendar date, wall clock and zone, and its seconds are theirs less the offset |
| DateText.DateTimeRoundTrip | crates/graphy-core/src/id.rs:614-796 | every inlinable date or dateTime survives rendering and parsing unchanged |
| Digits.RenderIntIff | crates/graphy-core/src/id.rs:311-311 | the text of an integer is the shortest digits of its magnitude, with a minus sign exactly for a negative one |
| Digits.ParseRenderInt | crates/graphy-core/src/id.rs:156-190 | a 64-bit integer's text parses back to it |
| Digits.ParseI64Iff | crates/graphy-engine/src/value.rs:408-413 | exactly which texts parse as a machine integer: an optional sign and digits whose value fits |
| InlineCompare.IntDecExact | crates/graphy-core/src/id.rs:470-484 | integer against decimal is the rational comparison at every scale, overflow branch included |
| InlineCompare.DecDecExact | crates/graphy-core/src/id.rs:487-508 | decimal against decimal is the rational comparison at every scale, through both overflow branches |
| InlineCompare.ValueExact | crates/graphy-core/src/id.rs:424-455 | integer and decimal ids compare as the rational numbers they stand for |
| InlineCompare.ValuePreorder | crates/graphy-core/src/id.rs:424-455 | the order of integer and decimal ids is a total preorder |
| InlineId.DecimalRoundTrip | crates/graphy-core/src/id.rs:512-579 | canonical decimals survive rendering and parsing |
| InlineId.ParsedCanonical | crates/graphy-core/src/id.rs:512-556 | what parses is canonical and has the value of its text |
| InlineId.AccumulateLoop | crates/graphy-core/src/id.rs:512-540 | the digit loop yields the number or fails exactly when it leaves i128 |
| InlineId.InlineRoundTrip | crates/graphy-core/src/id.rs:193-281 | an id decodes to the value it was made from: integers, decimals, doubles, floats, booleans, dates and short strings |
| InlineId.DecodeExact | crates/graphy-core/src/id.rs:255-281 | what an id decodes to inlines as that id again, unused payloads apart, so the ranges are as wide as the payloads |
| InlineId.DoubleText | crates/graphy-core/src/id.rs:583-610 | the text of a double is NaN, an infinity or scientific notation with a point, by the intervals of its bits |
| InlineId.FloatText | crates/graphy-core/src/id.rs:593-610 | the same for a float |
| InlineId.IntegerOrder | crates/graphy-core/src/id.rs:193-253 | integer payload order is value order |
| InlineId.StringOrder | crates/graphy-core/src/id.rs:366-414 | short-string payload order is byte order, lengths and embedded NULs included |
| InlineId.WidenedValue | crates/graphy-core/src/id.rs:164-170 | widening a float keeps sign and value, subnormals included, infinities and NaN |
| InlineId.FloatsFit | crates/graphy-core/src/id.rs:164-170 | every float, subnormal ones included, widens to a double that leaves its low 29 bits zero and so fits the payload |
| InlineId.InlineIsLossless | crates/graphy-core/src/id.rs:156-190 | an inlined id gives back the text and datatype it was made from |
| InlineId.TryInlineInjective | crates/graphy-core/src/id.rs:156-190 | distinct literals never share an inline id |
| InlineId.TryInlineIff | crates/graphy-core/src/id.rs:156-190 | a text inlines iff it is the canonical text of a value in range |
| InlineId.CanonicalInlines | crates/graphy-core/src/id.rs:156-326 | every canonical value in range inlines from its own text, floating-point values when their own text reads back as them |
| ExactDecimal.Widths | crates/graphy-engine/src/value.rs:110-120 | the ranges are those of 128 bits signed and, for scales, 32 bits |
| ExactDecimal.NormalLoop | crates/graphy-engine/src/value.rs:102-108 | the loop strips trailing zeros down to the normal form |
| ExactDecimal.NormalUnique | crates/graphy-engine/src/value.rs:102-108 | a value has one normal form |
| ExactDecimal.AddIff | crates/graphy-engine/src/value.rs:122-131 | the sum is the rational sum in normal form, defined iff both operands, the powers that take them to the larger scale and the sum there fit an i128 |
| ExactDecimal.SubIff | crates/graphy-engine/src/value.rs:133-142 | the difference is the rational difference in normal form, defined iff both operands, the powers that take them to the larger scale and the difference there fit an i128 |
| ExactDecimal.MulIff | crates/graphy-engine/src/value.rs:144-152 | the product is the rational product in normal form, defined iff it fits an i128 and the scales add up to a u32 |
| ExactDecimal.DivIff | crates/graphy-engine/src/value.rs:156-171 | the quotient is truncated toward zero at scale max(18, scale), defined iff the divisor is not zero and shifted dividend and quotient fit |
| ExactDecimal.CompareExactIff | crates/graphy-engine/src/value.rs:173-183 | comparison is rational comparison, whatever the doubles say, iff both operands reach the larger scale |
| ExactDecimal.TruncBounds | crates/graphy-engine/src/value.rs:194-199 | truncation is toward zero at every scale |
| ExactDecimal.FloorCeilBounds | crates/graphy-engine/src/value.rs:208-228 | floor and ceiling are the true integer bounds at every scale |
| ExactDecimal.RoundHalfUpIff | crates/graphy-engine/src/value.rs:231-248 | rounding is half-up iff there are 1 to 38 fraction digits or the value is an integer not above zero |
| ExactDecimal.FiveRoundsToSix | crates/graphy-engine/src/value.rs:231-248 | the text 5.0 parses to a value that rounds to 6, which is not half-up |
| ExactDecimal.ParseIff | crates/graphy-engine/src/value.rs:72-99 | exactly which texts parse, and to the normal form of the number they spell: an optional sign, digits, an optional point with digits |
| ExactDecimal.LexicalRoundTrip | crates/graphy-engine/src/value.rs:72-293 | the canonical text parses to the normal form within the accumulator's bound and fails beyond it |
| Varint.RoundTrip | crates/graphy-core/src/lib.rs:34-60 | every u64 reads back, consuming exactly what was written, whatever follows |
| Varint.Write | crates/graphy-core/src/lib.rs:34-44 | the loop appends the groups of the value |
| Varint.Read | crates/graphy-core/src/lib.rs:47-60 | the accumulating loop returns value and length, or nothing on truncation and 64-bit overflow; a value returned fits 64 bits |
| Varint.MinimalIff | crates/graphy-core/src/lib.rs:47-60 | the bytes consumed are the written form iff the last of several groups is not zero |
| Concise.RoundTrip | crates/graphy-core/src/concise.rs:43-197 | decoding undoes encoding for every valid term nested to depth 32, quotes and sigils in its texts notwithstanding |
| Concise.EncodeInjective | crates/graphy-core/src/concise.rs:43-87 | distinct valid terms have distinct bytes |
| Concise.LiteralsOk | crates/graphy-core/src/concise.rs:205-235 | a tag is valid iff it is lower-case subtags of one to eight letters, or digits behind the first, joined by hyphens; a datatype iff it is an IRI without a spelling of its own |
| Concise.DecodeAccepted | crates/graphy-core/src/concise.rs:100-197 | whatever decodes is a valid term, and its canonical bytes are the accepted ones iff every inner length is minimal |
| Concise.BytesDecideTerms | crates/graphy-core/src/concise.rs:100-197 | on minimal bytes, byte equality is term equality |
| Concise.NonMinimalAccepted | crates/graphy-core/src/concise.rs:100-197 | a padded inner length is accepted and gives a term whose canonical bytes differ |
| Concise.DepthMonotone | crates/graphy-core/src/concise.rs:100-197 | what decodes deep inside a term decodes to the same term higher up |
| Concise.ComponentAt | crates/graphy-core/src/term.rs:128-146 | lazy component access on a validated payload never fails and returns that component |
| Concise.EncodeTriple | crates/graphy-core/src/concise.rs:81-87 | the loop appends three length-framed components behind the sigil |
| Concise.Decode | crates/graphy-core/src/concise.rs:100-197 | the cursor loop over the components accepts and returns what the recursive decoder does |
| DotSegments.RemoveLoop | crates/graphy-core/src/iri.rs:396-437 | the input-consuming loop terminates with the result of section 5.2.4 of RFC 3986 |
| DotSegments.AbsoluteIsFold | crates/graphy-core/src/iri.rs:396-429 | on absolute paths the result is the fold of the segments over a stack, trailing dot segments leaving a trailing slash |
| DotSegments.RemoveIsFold | crates/graphy-core/src/iri.rs:396-429 | on every path, relative ones included, the result is the text of a fold over its segments behind the leading dot segments |
| DotSegments.NeverLonger | crates/graphy-core/src/iri.rs:396-429 | the result is never longer than the path |
| DotSegments.NoDotSegments | crates/graphy-core/src/iri.rs:396-429 | no "." or ".." segment is left |
| DotSegments.RemoveIdempotent | crates/graphy-core/src/iri.rs:396-429 | removing twice is removing once, on every input |
| Resolve.SplitExact | crates/graphy-core/src/iri.rs:102-209 | a string splits into given parts iff they are parts a string can have and recompose to it |
| Resolve.SchemeIff | crates/graphy-core/src/iri.rs:163-176 | schemes are a letter, then letters, digits, plus, minus and point |
| Resolve.ResolvesTo | crates/graphy-core/src/iri.rs:32-89 | resolution fails iff a string does not split or the base has no scheme, and otherwise gives the string of the parts of section 5.2.2 of RFC 3986, each said outright |
| Resolve.RelativePath | crates/graphy-core/src/iri.rs:374-393 | a relative path against an absolute base path is the stack fold of the base segments without the last, then its own |
| Resolve.RelativeAlone | crates/graphy-core/src/iri.rs:374-393 | a relative path against an authority alone is rooted; against a base path without `/` it stands for itself |
| Resolve.ResolvedParts | crates/graphy-core/src/iri.rs:32-89 | the resolved string has those parts iff not: no authority is chosen and the chosen segments fold to an empty first segment with another behind it |
| Resolve.ResolveSettles | crates/graphy-core/src/iri.rs:32-89 | a resolved IRI resolves to itself against every base iff no same-document reference copied a base path with dot segments |
| Resolve.CopiedPathUnsettled | crates/graphy-core/src/iri.rs:56-58 | the empty reference against `a:/./b` gives `a:/./b`, which resolves on to `a:/b` |
| Resolve.AmbiguityOccurs | crates/graphy-core/src/iri.rs:32-89 | base `a:b` and reference `/.//c` give a string that names an authority |

## Left out

- Rewrite.RewritePreserves: for trees without slices and SAMPLE, whose rows depend on row order, and with filters that sink safely by the static test on the simplified query, whose filters the pass sees.
- Rewrite.ReorderPreserves: for trees without slices and SAMPLE, as above.
- Rewrite.GroupPerm: COUNT only; SAMPLE takes the first member, and the other aggregates are not part of this model.
- Grouping.AggregateMeans: COUNT and SAMPLE only.
- Rewrite.SortRowsPerm: ORDER BY uses an arbitrary sorter that sees only the keys, because the engine's comparison is not a total order; Grouping.OrderSorts says what follows when it sorts.
- Simplify.SimplifyPreserves: for expressions `fold` treats safely, a test on the query.
- Folding.FoldKeepsEbv: for constants that are read as they evaluate; `FoldLimits.FoldNotExactIff` shows the condition is needed.
- Folding.FoldKeepsValue: an operand a connective collapses to must be boolean-valued by its form.
- FoldLimits.ExponentDecimalFolds: how the folder reads decimals and floating-point text is an arbitrary answer per constant; the witness states the answer Rust's parser gives.
- PushProof.PushPreserves: conditional on settled rows, since the visibility test alone does not suffice; SERVICE nodes are not part of this model.
- PathExact.ReachExact: not for an empty negated set under an inverse, where the code differs from the standard.
- PathModes.ReachConverse: not for an empty negated set under an inverse.
- PathModes.PathRows: no empty negated set under an inverse; constant endpoints are in PathEnds.
- PathModes.ModesCohere: variable endpoints, and no empty negated set under an inverse; a constant keeps zero-length pairs of terms outside the graph, which a bound variable does not.
- PathEnds.FromConstant: no empty negated set under an inverse.
- PathEnds.ConstantSubject: as for FromConstant.
- PathEnds.ConstantObject: as for FromConstant.
- PathEnds.ConstantEnds: as for FromConstant.
- PathCompile.CompiledMeans: variable endpoints, and no empty negated set under an inverse.
- PathCompile.CompileAgreesWithPath: as for CompiledMeans, and endpoint pairs rather than multiplicities, which decomposition changes by design.
- BgpOrder.BgpSolutions: patterns with structural triple terms and unions of FROM graphs are not part of this model.
- EvalLoops.EvalTree: only the all-unbound seed row; projection, extension, MINUS and grouping are functions of the rows.
- Section.WriteLogSeq: the type byte, header fields and checksums around the packed bytes are not part of this model.
- Section.WriteBitmap: the type byte, header fields and checksums are not part of this model.
- Section.WriteSection: the type byte, header fields and checksums are not part of this model.
- HdtFile.HdtWriter.WriteTo: container framing (control information, checksums, header text, file access) is not part of this model; sections and arrays pass from writer to reader as values holding the encoded bytes.
- HdtRead.EachQuadIds: reads sections and arrays that are already located in the file.
- HdtRead.EachQuad: reads sections and arrays that are already located in the file.
- HdtLossless.ExportImport: without container framing, as for WriteTo, and for strings without NUL, as `Section.AllReadIff` requires.
- QuadIds.WriteAnnex: roaring bitmaps are sets, so their bytes are not part of this model.
- Import.MapObjects: for any inline gate; ImportTerms.ImportQuads uses the real one.
- Import.ImportSegment: for any inline gate; the bytes of the built segment are not part of this model.
- Import.QuadConserved: for any inline gate whose ids carry a tag, which the real gate's do.
- Import.DenotesUnique: for any injective inline gate, which the real gate is.
- ImportTerms.ImportQuads: objects that do not decode, an error in the source, are kept in the dictionary.
- InlineId.CanonicalInlines: reading floating-point text and writing it in scientific notation belong to the language and are parameters, so that their round trip is an assumption here.
- InlineCompare.ValueExact: for integers and decimals; comparison with doubles is approximate by design, and booleans and dates compare only with their own kind.
- ExactDecimal.CompareExactIff: the comparison of the nearest doubles, for values too far apart to align, is an arbitrary answer.
- ExactDecimal.DivIff: dividing the least i128 by -1 panics in the source and is a missing result here; scales that overflow 32 bits in addition are excluded by the bound on scales.
- Concise.RoundTrip: UTF-8, IRI and label validation are predicates with the few facts the encoding relies on.
- Resolve.SplitExact: character-level validation of IRIs is not part of this model.
- Resolve.ResolvedParts: character-level validation of IRIs is not part of this model.
- ValueMeaning.EqualityMeans: decimals, doubles, dates, triple terms and unknown datatypes compare by an arbitrary answer, and so does their arithmetic.
- EXISTS is an arbitrary answer per row and scope; random, minting, time, regex, hash and string builtins are not modelled.
- The vectorized engine, the update executor, snapshots, write-ahead log, merge and succinct structures.
- RDF/XML, JSON-LD and XML reading, the language server, command line, benches and bindings.
