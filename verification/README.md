# Models of reka

reka is an application server written in Java that also carries a JSX compiler in JavaScript. This project models
the parts of it with the most state and arithmetic, and proves what they are for.

The bundled JSX compiler:

- the source map format: base 64 VLQ with 32-bit shifts (`Int32`, `Base64Vlq`), the comparators (`Mappings`), the delta
  stream (`MappingCodec`, `MappingFormat`, `MappingRoundTrip`), binary search, `ArraySet`, the generator and the consumer;
- `SourceNode` trees: walking them, cutting a program into attributed pieces, and writing a program with its map
  (`Text`, `Pieces`, `SourceNode`, `SourceNodeCut`, `SourceNodeMap`);
- the operator-precedence parser (`BinaryExpressions`);
- the transformation state with `catchup`, `move` and `append`, the traversal, and the rendering of JSX text
  (`TransformState`, `TransformLaws`, `Transformation`, `Traversal`, `XjsLiteral`, `XjsLaws`);
- the path module (`PathNormalize`).

reka itself:

- data trees and their comparison (`DataTrees`, `DataDiff`, `DataDiffLaws`);
- the render cache whose key set grows while it runs (`ReadObservation`, `RenderCache`, `JadeRenderer`), and where it
  fails (`FingerprintBytes`, `RenderCacheLimits`);
- the concurrent run of flow tests before a deployment (`TestCases`, `TestRuns`);
- dotted paths (`PathDots`) and texts with colon variables (`ColonTemplate`).

Code that updates state in the program is a class or a method with loops here, proved against a specification
function; the laws are lemmas about those functions. The concurrent test run is a state machine whose steps are the
atomic actions of its threads. Hash functions, the text of content, word characters and value lookups are parameters,
with the law a result needs stated as its hypothesis.

Places where the code does not do what it looks meant to do, each with its exact condition or an example:

- a delta of magnitude 2^30 or more does not survive the VLQ, and at 2^30 its sign flips (`DecodeEncodeExact`,
  `SignFlipsAtBound`);
- catching up with a removed indentation that is the whole piece records nothing and leaves the source cursor behind
  (`StepInStep`, `SwallowingExample`);
- the line breaks that get a mapping in `catchup` are counted from the line where the piece starts, not from the next
  one as its comment draws them (`StepRecords`);
- `parseBinaryExpression` returns early without restoring `allowIn` (its contract says when);
- a comment in `fromStringWithSourceMap` says the remaining lines get no mapping; the code gives them the last one, and
  so does the model;
- differences report null content for a hole inside an element that only one tree has (`DifferencesAreOfContent`,
  `AppliedGivesOther`), and a test that expects such a hole always fails (`NoErrorIsAsExpected`);
- `dataIsEqual` looks at the order of keys and at empty parts, the differences do not (`NoEventsExactly`,
  `NoEventsAndEqual`);
- `applySourceMap` that fails half way leaves the old tables to mappings it has rewritten (`ApplySourceMap` says when,
  `TableLeftBehind` is an example);
- the ETag of a page does not tell some values and some lists of keys apart (`OneValueCollides`, `OneKeyListCollides`,
  `ServedForOther`), and nested maps are not observed (`EqualObservationsSamePages`); `TameIsApart` gives data for which
  it is right;
- dotted text does not tell names that look like indexes from indexes (`DotsRoundTrip`).

## Model

| member | source | states |
|---|---|---|
| Base64Vlq.Encode | reka-module-jsx/src/main/resources/JSXTransformer-0.12.2.js:9808-9826 | the digit loop over a 32-bit number shifted right in place yields the specified digits, for every integer |
| Base64Vlq.Decode | reka-module-jsx/src/main/resources/JSXTransformer-0.12.2.js:9832-9854 | the decoding loop yields the specified value and rest, or the error of a missing or wrong digit |
| Base64Vlq.DigitRoundTrip | reka-module-jsx/src/main/resources/JSXTransformer-0.12.2.js:9870-9898 | each of the 64 digits is read back, and none is a comma or a semicolon |
| Base64Vlq.SignRoundTrip | reka-module-jsx/src/main/resources/JSXTransformer-0.12.2.js:9785-9803 | undoing the sign bit gives the number wrapped at 31 bits, and the signed form is a 32-bit number |
| Base64Vlq.DecodeEncode | reka-module-jsx/src/main/resources/JSXTransformer-0.12.2.js:9808-9854 | for every integer and every rest, decoding gives the 31-bit wrap of the integer and leaves the rest |
| Base64Vlq.DecodeEncodeExact | reka-module-jsx/src/main/resources/JSXTransformer-0.12.2.js:9808-9854 | the integer itself comes back if and only if its magnitude is below 2^30 |
| Base64Vlq.SignFlipsAtBound | reka-module-jsx/src/main/resources/JSXTransformer-0.12.2.js:9785-9803 | 2^30 comes back as -2^30 and the other way round |
| Base64Vlq.EncodedHasNoSeparators | reka-module-jsx/src/main/resources/JSXTransformer-0.12.2.js:9808-9826 | no encoded number contains a comma or a semicolon |
| Text.SplitJoin | reka-module-jsx/src/main/resources/JSXTransformer-0.12.2.js:10889-10900 | joining the lines of a text gives the text back |
| Text.AdvanceConcat | reka-module-jsx/src/main/resources/JSXTransformer-0.12.2.js:11199-11206 | line and column after two texts are those after the second, started from those after the first |
| ArraySets.ArraySet.Add | reka-module-jsx/src/main/resources/JSXTransformer-0.12.2.js:9654-9664 | the table grows by the string unless it is there and duplicates are off, and the index map stays that of first occurrences |
| ArraySets.ArraySet.AtIndexOf | reka-module-jsx/src/main/resources/JSXTransformer-0.12.2.js:9680-9699 | at(indexOf(s)) is s for every member, and indexOf fails exactly for the others |
| ArraySets.AddedAllDistinct | reka-module-jsx/src/main/resources/JSXTransformer-0.12.2.js:9641-9664 | without duplicates a table has distinct members: those it had and the added ones |
| ArraySets.AddedAllCopies | reka-module-jsx/src/main/resources/JSXTransformer-0.12.2.js:9641-9647 | with duplicates a table copies the array, index by index |
| Mappings.GeneratedZero | reka-module-jsx/src/main/resources/JSXTransformer-0.12.2.js:11392-11421 | the full comparator gives zero exactly for mappings that serialise alike |
| Mappings.GeneratedFlip | reka-module-jsx/src/main/resources/JSXTransformer-0.12.2.js:11392-11421 | exchanging the arguments exchanges the sign |
| Mappings.GeneratedTransitive | reka-module-jsx/src/main/resources/JSXTransformer-0.12.2.js:11392-11421 | the comparators by generated position are transitive |
| Mappings.GeneratedRefinesPosition | reka-module-jsx/src/main/resources/JSXTransformer-0.12.2.js:11392-11421 | the full comparator agrees with the position-only one wherever that one decides |
| Mappings.OriginalTransitive | reka-module-jsx/src/main/resources/JSXTransformer-0.12.2.js:11351-11380 | the comparators by original position are transitive |
| Mappings.OriginalRefines | reka-module-jsx/src/main/resources/JSXTransformer-0.12.2.js:11351-11380 | the full comparator by original position agrees with the original-only one wherever that one decides |
| MappingCodec.SegmentRoundTrip | reka-module-jsx/src/main/resources/JSXTransformer-0.12.2.js:10186-10246 | one segment written against the running values is read back as its mapping, with the running values moved on alike, when its deltas are small |
| MappingCodec.SegmentMismatch | reka-module-jsx/src/main/resources/JSXTransformer-0.12.2.js:10186-10246 | one segment with a delta that is not small never comes back as its mapping |
| MappingCodec.ReadWritten | reka-module-jsx/src/main/resources/JSXTransformer-0.12.2.js:10729-10793 | from any state of the running values, the stream comes back as the kept mappings if and only if all deltas fit |
| MappingRoundTrip.KeptIncreases | reka-module-jsx/src/main/resources/JSXTransformer-0.12.2.js:10747-10768 | the kept mappings strictly increase under the full comparator, so there are no duplicates |
| MappingRoundTrip.KeptDenotes | reka-module-jsx/src/main/resources/JSXTransformer-0.12.2.js:10729-10793 | the kept mappings are exactly the recorded ones, in their canonical form |
| MappingRoundTrip.DenotesUnique | reka-module-jsx/src/main/resources/JSXTransformer-0.12.2.js:10740-10745 | only one list is strictly increasing with the same members, whatever order the sort chose among equals |
| MappingRoundTrip.MappingsRoundTrip | reka-module-jsx/src/main/resources/JSXTransformer-0.12.2.js:10170-10246 | parsing the serialised string of any sorted valid mappings gives the one sorted duplicate-free list of them, every optional field recovered, if and only if every delta stays within 2^30 |
| MappingFormat.EncodedStandsFor | reka-module-jsx/src/main/resources/JSXTransformer-0.12.2.js:9768-9826 | below 2^30 a number is written as twice its magnitude plus the sign bit, five bits a digit, lowest first, with the continuation bit on all digits but the last |
| MappingFormat.WrittenExample | reka-module-jsx/src/main/resources/JSXTransformer-0.12.2.js:10729-10793 | the string of two mappings on the first line and one on the third: column, source, original line and column and name in this order, commas within a line, one semicolon a line |
| MappingRoundTrip.WithinLimitFits | reka-module-jsx/src/main/resources/JSXTransformer-0.12.2.js:10729-10793 | lines, columns and table indexes below 2^30 are enough for all deltas to fit |
| BinarySearch.SearchCorrect | reka-module-jsx/src/main/resources/JSXTransformer-0.12.2.js:9976-9981 | on a haystack monotone for the needle the search returns an equal element if there is one, else the greatest smaller one, else nothing |
| BinarySearch.RecursiveSearchCorrect | reka-module-jsx/src/main/resources/JSXTransformer-0.12.2.js:9923-9958 | the same for every interval the recursion visits, which always shrinks |
| SourceMapConsumers.SearchFindsOwner | reka-module-jsx/src/main/resources/JSXTransformer-0.12.2.js:10252-10272 | with positions increasing, the search finds the last mapping at or before the line and column |
| SourceMapConsumers.AnswerIs | reka-module-jsx/src/main/resources/JSXTransformer-0.12.2.js:10287-10319 | with positions increasing, a query answers with the source, line, column and name of the last mapping at or before the position, and with nothing if there is none |
| SourceMapConsumers.SortedByGeneratedIsMonotone | reka-module-jsx/src/main/resources/JSXTransformer-0.12.2.js:10740-10745 | a list sorted by the full comparator is a fit haystack for position-only queries |
| SourceMapConsumers.SortedByOriginalIsMonotone | reka-module-jsx/src/main/resources/JSXTransformer-0.12.2.js:10245 | the same for the list sorted by original position |
| Sorting.Sort | reka-module-jsx/src/main/resources/JSXTransformer-0.12.2.js:10245 | any array sort: a sorted permutation |
| SourceMapConsumers.SourceMapConsumer.ParseSegment | reka-module-jsx/src/main/resources/JSXTransformer-0.12.2.js:10194-10237 | one segment is read as specified, or rejected with its error |
| SourceMapConsumers.SourceMapConsumer.ParseMappings | reka-module-jsx/src/main/resources/JSXTransformer-0.12.2.js:10170-10246 | succeeds exactly when the string denotes mappings; then the generated list is those in order, and the original list a permutation of the ones with an original position, sorted by it; after a failed parse the lists are no longer missing |
| SourceMapConsumers.SourceMapConsumer.OriginalPositionFor | reka-module-jsx/src/main/resources/JSXTransformer-0.12.2.js:10287-10319 | parses at the first query only; a line below 1, a negative column or an unreadable string is an error, and otherwise the answer is the original position of the mapping the search finds |
| SourceMapGenerators.SourceMapGenerator.AddMapping | reka-module-jsx/src/main/resources/JSXTransformer-0.12.2.js:10556-10581 | accepts exactly the valid mappings, appends the mapping, and keeps the source and name tables exact |
| SourceMapGenerators.SourceMapGenerator.ApplySourceMap | reka-module-jsx/src/main/resources/JSXTransformer-0.12.2.js:10620-10685 | succeeds exactly when no mapping of the file is at a position that cannot be queried and the consumer, if asked, can be read; then every mapping of the file is replaced by what the consumer answers from what it has parsed or else denotes, the others stay, and the new tables are exact. An error leaves the tables alone, the mappings before the failing one rewritten and the others not; without a mapping at a bad position nothing is rewritten and the tables stay exact |
| SourceMapGenerators.RemappedIs | reka-module-jsx/src/main/resources/JSXTransformer-0.12.2.js:10637-10658 | a mapping of the file takes source, line and column of the last mapping of the other map at or before its original position, and the name of that one exactly when both have a name; it stays when there is none with a source, and so do mappings of other files |
| SourceMapGenerators.TableLeftBehind | reka-module-jsx/src/main/resources/JSXTransformer-0.12.2.js:10637-10673 | with a bad line brought in by another map, an error half way leaves a rewritten source that the table misses, so that serialising fails |
| SourceMapGenerators.TablesCover | reka-module-jsx/src/main/resources/JSXTransformer-0.12.2.js:10770-10788 | exact tables have an index for every source and name of the mappings, so serialising never misses one |
| SourceMapGenerators.SourceMapGenerator.SerializeMappings | reka-module-jsx/src/main/resources/JSXTransformer-0.12.2.js:10729-10793 | sorts the mappings in place and writes exactly the specified stream |
| SourceMapGenerators.Reload | reka-module-jsx/src/main/resources/JSXTransformer-0.12.2.js:10815-10840 | a consumer of what a generator externalises denotes exactly the recorded mappings, if and only if every delta fits |
| SourceNodes.SourceNode.Add | reka-module-jsx/src/main/resources/JSXTransformer-0.12.2.js:10992-11010 | a chunk comes last: the walk of the node is its former walk followed by that of the chunk |
| SourceNodes.SourceNode.Walk | reka-module-jsx/src/main/resources/JSXTransformer-0.12.2.js:11041-11057 | visits every non-empty snippet once, in order |
| SourceNodes.SourceNode.ToString | reka-module-jsx/src/main/resources/JSXTransformer-0.12.2.js:11138-11144 | the concatenation of all snippets |
| SourceNodeCut.FromStringWithSourceMap | reka-module-jsx/src/main/resources/JSXTransformer-0.12.2.js:10889-10984 | for mappings in order on existing lines no character is lost or moved; for mappings inside their lines every character carries the last mapping at or before it |
| SourceNodeCut.AttributionIsSearch | reka-module-jsx/src/main/resources/JSXTransformer-0.12.2.js:10287-10319 | for mappings at distinct positions that attribution is the one a position query would answer |
| SourceNodeMap.ToStringWithSourceMap | reka-module-jsx/src/main/resources/JSXTransformer-0.12.2.js:11150-11213 | succeeds exactly when all snippets have usable positions; the code is that of toString, the mappings strictly increase, each starts a snippet, and together they attribute every character as the tree does |
| SourceNodeMap.MappedMore | reka-module-jsx/src/main/resources/JSXTransformer-0.12.2.js:11158-11190 | one more snippet, with or without a mapping at its start, keeps the map of the code so far exact |
| SourceNodeMap.ThereAndBack | reka-module-jsx/src/main/resources/JSXTransformer-0.12.2.js:11150-11213 | map of a tree, serialised, consumed and used to cut the code: the same code, every character with its recorded origin |
| BinaryExpressions.Parser.ParseBinaryExpression | reka-module-jsx/src/main/resources/JSXTransformer-0.12.2.js:5610-5671 | succeeds exactly when some operand is followed by a token that is no operator; then it returns a derivation of the grammar with the operands and operators up to there in order, each range spanning its leaves and logical nodes for the two logical operators; and it leaves allowIn on after the early return |
| BinaryExpressions.Parser.ParseOperators | reka-module-jsx/src/main/resources/JSXTransformer-0.12.2.js:5640-5671 | the shift/reduce loop keeps one marker for every operand on the stack and the precedences strictly rising |
| BinaryExpressions.TreeUnique | reka-module-jsx/src/main/resources/JSXTransformer-0.12.2.js:5610-5671 | there is only one such tree with a given yield |
| BinaryExpressions.AssociatedIsDerivable | reka-module-jsx/src/main/resources/JSXTransformer-0.12.2.js:5531-5608 | the trees that the precedences admit, each left child binding at least as tightly and each right child tighter, are exactly the derivations of the left-recursive grammar of ECMA-262 5.1, sections 11.5 to 11.11, written out level by level with its tokens |
| BinaryExpressions.OperatorsAreThose | reka-module-jsx/src/main/resources/JSXTransformer-0.12.2.js:5531-5593 | the tokens with a precedence are exactly the punctuators and keywords listed in that grammar, in only where it is allowed |
| BinaryExpressions.DerivationUnique | reka-module-jsx/src/main/resources/JSXTransformer-0.12.2.js:5610-5671 | the grammar is unambiguous: one derivation for given operands, operators and ranges |
| BinaryExpressions.Reduce | reka-module-jsx/src/main/resources/JSXTransformer-0.12.2.js:5644-5654 | reducing the top of the stack keeps the stack discipline, the markers and the spans |
| BinaryExpressions.Shift | reka-module-jsx/src/main/resources/JSXTransformer-0.12.2.js:5656-5662 | shifting an operator and an operand keeps the stack discipline and the markers |
| TransformStates.StepInStep | reka-module-jsx/src/main/resources/JSXTransformer-0.12.2.js:12274-12428 | a step keeps the buffer cursor in step, and the source cursor if and only if it does not swallow a piece whole by removing its indentation |
| TransformStates.RunInStep | reka-module-jsx/src/main/resources/JSXTransformer-0.12.2.js:12274-12428 | over every run of transformer-free steps that swallow nothing, both cursors are the positions of the ends of the consumed source and of the buffer |
| TransformStates.ZeroIndentRunInStep | reka-module-jsx/src/main/resources/JSXTransformer-0.12.2.js:12274-12428 | in particular over every run with zero indentation from the initial state, backward moves included |
| TransformStates.SwallowingExample | reka-module-jsx/src/main/resources/JSXTransformer-0.12.2.js:12280-12286 | removing the whole of a piece as indentation leaves the source cursor behind |
| TransformStates.RunBalanced | reka-module-jsx/src/main/resources/JSXTransformer-0.12.2.js:12341-12377 | any run of the four ways of catching up and of newline-free appends keeps the newline count of the buffer equal to that of the consumed source |
| TransformStates.RunLineInStep | reka-module-jsx/src/main/resources/JSXTransformer-0.12.2.js:12289-12322 | the line of the buffer cursor counts the newlines of the buffer over every run, with content transformers too |
| TransformLaws.StepRecords | reka-module-jsx/src/main/resources/JSXTransformer-0.12.2.js:12274-12428 | a step that writes something records, first, that the end of the buffer comes from the end of the consumed source, in source.js and without a name; and catching up then records column 0 of one line after the other, from the line it starts on, for all its line breaks but the last. A step that writes nothing records nothing |
| TransformLaws.RunRecordsExactly | reka-module-jsx/src/main/resources/JSXTransformer-0.12.2.js:12274-12428 | over every run that swallows nothing, the mappings are those that its steps are due to record, each from the state before the step, and no other |
| TransformLaws.ZeroIndentRunRecords | reka-module-jsx/src/main/resources/JSXTransformer-0.12.2.js:12274-12428 | in particular over every run with zero indentation from the initial state |
| TransformLaws.UpdateIndentByLine | reka-module-jsx/src/main/resources/JSXTransformer-0.12.2.js:12438-12450 | re-indenting keeps the lines and gives each one that starts with two spaces or a tab that many more of them, or takes away as many as there are |
| TransformLaws.WhiteOutInPlace | reka-module-jsx/src/main/resources/JSXTransformer-0.12.2.js:12334-12336 | whiting out keeps the length and every white character, and leaves spaces otherwise |
| TransformLaws.TransformerConcat | reka-module-jsx/src/main/resources/JSXTransformer-0.12.2.js:12334-12377 | the content transformers work character by character |
| TransformLaws.NewlinesOnlyCount | reka-module-jsx/src/main/resources/JSXTransformer-0.12.2.js:12357-12377 | keeping newlines leaves as many newlines as there are in the text, and nothing else |
| Transformations.Transformation.Catchup | reka-module-jsx/src/main/resources/JSXTransformer-0.12.2.js:12274-12322 | the state after catching up is the specified one; with both cursors in step before, the mappings added to the source map are where the piece starts and its inner line breaks, as StepRecords has them |
| Transformations.Transformation.Move | reka-module-jsx/src/main/resources/JSXTransformer-0.12.2.js:12386-12406 | the state after moving, forwards or backwards, is the specified one |
| Transformations.Transformation.Append | reka-module-jsx/src/main/resources/JSXTransformer-0.12.2.js:12412-12428 | the state after appending is the specified one; with both cursors in step before, the one mapping added for a text leads from the end of the buffer to the end of the consumed source |
| Traversals.GetOrderedChildren | reka-module-jsx/src/main/resources/JSXTransformer-0.12.2.js:12574-12608 | the children with a range, arrays flattened, as a permutation sorted by start |
| Traversals.QueuedExactly | reka-module-jsx/src/main/resources/JSXTransformer-0.12.2.js:12590-12608 | the children are the nodes with a range that are reached from the properties through arrays, however deep, and no others |
| Traversals.BoundsExactly | reka-module-jsx/src/main/resources/JSXTransformer-0.12.2.js:11956-11963 | the bounds that are caught up to are those of every node that a chain of such children leads down to |
| Traversals.Traverse | reka-module-jsx/src/main/resources/JSXTransformer-0.12.2.js:11956-11963 | whatever the ranges of the tree are, a traversal is a run of plain catching up, to the bounds of all ranges below the node and to nothing else |
| Traversals.Transform | reka-module-jsx/src/main/resources/JSXTransformer-0.12.2.js:12035-12067 | without a matching visitor the transformed code is the source |
| Traversals.CatchupsVerbatim | reka-module-jsx/src/main/resources/JSXTransformer-0.12.2.js:12274-12322 | over every run of plain catching up the buffer is the source up to the position |
| Traversals.CatchupsCopy | reka-module-jsx/src/main/resources/JSXTransformer-0.12.2.js:12274-12322 | catching up to any ends in any order, and then to the end, copies the source |
| XjsLiteral.RenderXJSLiteral | reka-module-jsx/src/main/resources/JSXTransformer-0.12.2.js:14991-15053 | the two loops append exactly the text that RenderedMeaning, MeaningIs and RenderedInPlace are about |
| XjsLiteral.RenderedMeaning | reka-module-jsx/src/main/resources/JSXTransformer-0.12.2.js:14991-15053 | the appended text is an expression that evaluates to the meaning of the literal, which MeaningIs states line by line, followed by blanks, with one newline for every line break of the literal |
| XjsLaws.TrimmedIs | reka-module-jsx/src/main/resources/JSXTransformer-0.12.2.js:15011-15020 | what is left of a line is one slice of it with tabs as spaces and only spaces around it; it starts with no space after a line break and ends with none before one, and is not cut at the start of the first line or the end of the last |
| XjsLaws.TrimmedOnly | reka-module-jsx/src/main/resources/JSXTransformer-0.12.2.js:15011-15020 | there is no other such text |
| XjsLaws.SplitBreaksIs | reka-module-jsx/src/main/resources/JSXTransformer-0.12.2.js:14992 | the lines hold no line break and give the literal back with the line breaks between them, a carriage return and a newline being one |
| XjsLaws.MeaningIs | reka-module-jsx/src/main/resources/JSXTransformer-0.12.2.js:14991-15045 | the meaning is the trimmed lines that have something left, in order, with single spaces between them |
| XjsLaws.RenderedInPlace | reka-module-jsx/src/main/resources/JSXTransformer-0.12.2.js:15022-15050 | the rendered text has the lines of the literal: each starts and ends with its blanks, its text starts in its column, and lines without text are copied |
| XjsLiteral.StringifyRead | reka-module-jsx/src/main/resources/JSXTransformer-0.12.2.js:15028 | reading a JSON string literal gives the string back |
| XjsLiteral.CoreEvaluates | reka-module-jsx/src/main/resources/JSXTransformer-0.12.2.js:15006-15050 | the concatenation written line by line evaluates to the joined lines from any line on |
| XjsLiteral.JoinedIsMeaning | reka-module-jsx/src/main/resources/JSXTransformer-0.12.2.js:14998-15045 | skipping blank lines and stopping at the last one with text loses no text |
| PathNormalize.NormalizeArray | reka-module-jsx/src/main/resources/JSXTransformer-0.12.2.js:1668-1692 | splicing from right to left with a counter yields the specified scan |
| PathNormalize.NormalizeIsEvaluation | reka-module-jsx/src/main/resources/JSXTransformer-0.12.2.js:1668-1692 | the right-to-left scan is the left-to-right stack evaluation of "." and "..", for both values of allowAboveRoot |
| PathNormalize.NormalizeIdempotent | reka-module-jsx/src/main/resources/JSXTransformer-0.12.2.js:1668-1692 | normalising twice is normalising once, and ".." is left only in front |
| PathNormalize.Resolve | reka-module-jsx/src/main/resources/JSXTransformer-0.12.2.js:1704-1732 | gathering the arguments from right to left up to an absolute one yields the specified path, for any working directory |
| PathNormalize.Relative | reka-module-jsx/src/main/resources/JSXTransformer-0.12.2.js:1773-1812 | yields the join of the relative parts of the two resolved paths |
| PathNormalize.FollowRelative | reka-module-jsx/src/main/resources/JSXTransformer-0.12.2.js:1793-1811 | following the relative parts from one normal list leads to the other |
| PathNormalize.RelativeShortest | reka-module-jsx/src/main/resources/JSXTransformer-0.12.2.js:1793-1811 | no shorter list of parts leads from one to the other, so the relative path climbs no further than it has to |
| PathNormalize.ResolveRelative | reka-module-jsx/src/main/resources/JSXTransformer-0.12.2.js:1704-1812 | resolving the relative path against its start is resolving the target, for all paths and any absolute working directory |
| DataTrees.VisitLog.VisitContent | reka-core/src/main/java/reka/data/memory/MutableMemoryData.java:337-362 | visits in order, holes as null content |
| DataTrees.VisitsExact | reka-core/src/main/java/reka/data/memory/MutableMemoryData.java:337-362 | the visits are exactly the paths with content or a hole, each path once |
| DataDiff.DataIsEqual | reka-core/src/main/java/reka/data/DataUtils.java:104-127 | accepts exactly equal trees, the order of their elements included |
| DataDiff.EventLog.DiffContent | reka-core/src/main/java/reka/data/DataUtils.java:176-222 | in whatever order the sets are iterated, the events are exactly those due, each path once, with kind and contents |
| DataDiff.RecordsBoth | reka-core/src/main/java/reka/data/DataUtils.java:196-199 | the events of an element of both trees extend a log of some elements to one more |
| DataDiff.RecordsOneSide | reka-core/src/main/java/reka/data/DataUtils.java:203-217 | so do the visits of an element of one tree only |
| DataDiffLaws.DifferencesAreOfContent | reka-core/src/main/java/reka/data/DataUtils.java:176-222 | the events are those of the content path by path if and only if no one-sided element has a hole in it |
| DataDiffLaws.AppliedGivesOther | reka-core/src/main/java/reka/data/DataUtils.java:129-131 | applying the events to the content of the first tree gives the content of the second if and only if no added element has a hole in it |
| DataDiffLaws.MirroredRecords | reka-core/src/main/java/reka/data/DataUtils.java:129-131 | comparing the other way round gives the mirror image |
| DataDiffLaws.EqualHasNoEvents | reka-core/src/main/java/reka/data/DataUtils.java:104-131 | trees found equal give no event |
| DataDiffLaws.NoEventsExactly | reka-core/src/main/java/reka/data/DataUtils.java:176-222 | there is no event if and only if the trees are alike: the same content at every common element, and nothing to visit in elements of one tree only |
| DataDiffLaws.NoEventsAndEqual | reka-core/src/main/java/reka/data/DataUtils.java:104-131 | trees are found equal if and only if there is no event and their elements are the same, in the same order, and absent alike, recursively |
| DataDiffLaws.OrderIsNoDifference | reka-core/src/main/java/reka/data/DataUtils.java:114-119 | an example of trees that are unequal for the order of their elements alone |
| DataDiffLaws.ContentsAt | reka-core/src/main/java/reka/data/memory/MutableMemoryData.java:522-541 | the content map of a tree has exactly what its paths lead to |
| ReadObservation.ReadObservedMap.Get | reka-core/src/main/java/reka/util/ReadObservedMap.java:61-70 | a nested map is wrapped over the same shared sets, anything else is noted as a value read |
| ReadObservation.ReadObservedMap.KeySet | reka-core/src/main/java/reka/util/ReadObservedMap.java:98-101 | the keys in order, with the path noted as iterated |
| ReadObservation.KeysFromAre | reka-core/src/main/java/reka/util/ReadObservedMap.java:97-101 | a name is a key if and only if some entry with that name is no hole |
| ReadObservation.KeysFromConcat | reka-core/src/main/java/reka/util/ReadObservedMap.java:97-101 | the keys come in the order of the entries |
| ReadObservation.PlainIsContent | reka-core/src/main/java/reka/util/ReadObservedMap.java:59-70 | a plain read gives the content at the path, and null where there is null content or none |
| ReadObservation.RenderTemplate | reka-module-jade/src/main/java/reka/jade/JadeWithSomeCachingStuff.java:153-154 | the page of a template run over an observed map, and exactly the paths it has read |
| RenderCaching.SameRendering | reka-core/src/main/java/reka/util/ReadObservedMap.java:59-116 | data that agree on the noted reads, of the same shape and without holes, render alike, with the same reads |
| RenderCaching.SameObservationSamePaths | reka-module-jade/src/main/java/reka/jade/JadeWithSomeCachingStuff.java:210-236 | what is fed to the fingerprint counts the paths, so of two sets of paths of which one contains the other only equal ones give equal observations |
| RenderCaching.SameTagSamePage | reka-module-jade/src/main/java/reka/jade/JadeWithSomeCachingStuff.java:210-245 | equal tags for comparable sets of paths stand for the same sets, and for the same page when these cover what one of the pages reads |
| RenderCaching.HitIsUncached | reka-module-jade/src/main/java/reka/jade/JadeWithSomeCachingStuff.java:147-149 | a cache hit is the page a fresh rendering would give |
| RenderCaching.StepTags | reka-module-jade/src/main/java/reka/jade/JadeWithSomeCachingStuff.java:133-208 | whatever the requests, a page carries the fingerprint of its data for the paths observed by then exactly when the cache is in use and it is the main response, and nothing has changed exactly when that is what the client sent |
| RenderCaching.StepKeeps | reka-module-jade/src/main/java/reka/jade/JadeWithSomeCachingStuff.java:133-175 | the cache is given up exactly when a fingerprint is missing; the paths grow by those a rendering has noted; a page that is sent is there under its fingerprint |
| RenderCaching.HitIsNotRendered | reka-module-jade/src/main/java/reka/jade/JadeWithSomeCachingStuff.java:147-154 | a page that is there is not rendered again |
| RenderCaching.OldEntryNeverHit | reka-module-jade/src/main/java/reka/jade/JadeWithSomeCachingStuff.java:156-176 | an entry made before the observed paths grew is never looked up again, whatever the data, since the fingerprint counts the paths |
| RenderCaching.StepEntries | reka-module-jade/src/main/java/reka/jade/JadeWithSomeCachingStuff.java:133-208 | every request keeps the invariant of the cache |
| RenderCaching.EveryRunSound | reka-module-jade/src/main/java/reka/jade/JadeWithSomeCachingStuff.java:133-208 | in every run each page is the uncached one and carries its tag exactly when it must, nothing has changed exactly when the client sent that tag, the sets of paths only grow, and a cache that is given up stays so |
| RenderCaching.SameTagSameBody | reka-module-jade/src/main/java/reka/jade/JadeWithSomeCachingStuff.java:185-193 | any two pages of a run with the same ETag have the same body |
| RenderCaching.NotModifiedIsTrue | reka-module-jade/src/main/java/reka/jade/JadeWithSomeCachingStuff.java:141-144 | a 304 for an ETag given out in the run is true: the page has not changed |
| FingerprintBytes.SameContentBytes | reka-module-jade/src/main/java/reka/jade/JadeWithSomeCachingStuff.java:247-265 | two values are hashed alike if and only if they are equal, both a single zero byte (missing, null, false, the zero character), both a single one byte, or a text and the number whose four bytes it is |
| FingerprintBytes.FourByteTexts | reka-module-jade/src/main/java/reka/jade/JadeWithSomeCachingStuff.java:250-254 | a text is hashed like some number if and only if it takes four bytes |
| FingerprintBytes.OneValueCollides | reka-module-jade/src/main/java/reka/jade/JadeWithSomeCachingStuff.java:216-226 | exchanging one observed value leaves all bytes as they are if and only if the two values are hashed alike |
| FingerprintBytes.OneKeyListCollides | reka-module-jade/src/main/java/reka/jade/JadeWithSomeCachingStuff.java:230-238 | exchanging one observed list of keys leaves all bytes as they are if and only if their names, run together, are the same text |
| FingerprintBytes.NullLikeFalse | reka-module-jade/src/main/java/reka/jade/JadeWithSomeCachingStuff.java:247-265 | a missing value and false, for instance |
| FingerprintBytes.KeysRunTogether | reka-module-jade/src/main/java/reka/jade/JadeWithSomeCachingStuff.java:230-238 | the keys "ab" and the keys "a", "b", for instance |
| FingerprintBytes.SameHashed | reka-module-jade/src/main/java/reka/jade/JadeWithSomeCachingStuff.java:210-245 | for values of a fixed kind at each path, keys of which none starts with another at each path, and sizes that an int holds, equal bytes come from equal observations |
| FingerprintBytes.TameIsApart | reka-module-jade/src/main/java/reka/jade/JadeWithSomeCachingStuff.java:210-245 | so a hash without collisions on such data meets what the theorems about runs require |
| JadeRendering.JadeRenderer.Call | reka-module-jade/src/main/java/reka/jade/JadeWithSomeCachingStuff.java:124-131 | cached or not, the operation is the specified step, with its whole new state; the page carries its tag, or nothing has changed, exactly when StepTags says so |
| JadeRendering.JadeRenderer.RunWithCache | reka-module-jade/src/main/java/reka/jade/JadeWithSomeCachingStuff.java:133-208 | every branch of the cached operation is the specified step, which StepTags, StepKeeps and EveryRunSound are about |
| JadeRendering.JadeRenderer.NotePaths | reka-module-jade/src/main/java/reka/jade/JadeWithSomeCachingStuff.java:160-175 | the sets grow by the noted paths below the input, and a change is reported exactly when one is new |
| RenderCacheLimits.SamePagesExactly | reka-core/src/main/java/reka/util/ReadObservedMap.java:59-116 | two data give the same page to every template that reads only given values and key lists if and only if maps stay maps, those values stay the same values and those keys the same keys |
| RenderCacheLimits.EqualObservationsSamePages | reka-module-jade/src/main/java/reka/jade/JadeWithSomeCachingStuff.java:210-245 | data with equal observations do so if and only if maps stay maps and no observed value becomes one |
| RenderCacheLimits.ShapeMustStay | reka-core/src/main/java/reka/util/ReadObservedMap.java:61-70 | otherwise a value in the place of a nested map is served the page of the map, whatever the fingerprint |
| RenderCacheLimits.ServedForOther | reka-module-jade/src/main/java/reka/jade/JadeWithSomeCachingStuff.java:133-208 | without collisions of the hash, the page of one value is served for another if and only if the two are hashed alike |
| RenderCacheLimits.FalseServedForMissing | reka-module-jade/src/main/java/reka/jade/JadeWithSomeCachingStuff.java:133-208 | for instance the page for false where the value is missing |
| RenderCacheLimits.ValuesOfOneKind | reka-module-jade/src/main/java/reka/jade/JadeWithSomeCachingStuff.java:133-208 | over all values of one kind the requirements of the theorems about runs are met |
| TestCases.Ok | reka-core/src/main/java/reka/app/ApplicationConfigurer.java:457-492 | the callback records an error for every difference that is not let go, and a last one if there is any |
| TestCases.NoErrorIsAsExpected | reka-core/src/main/java/reka/app/ApplicationConfigurer.java:457-492 | no error is recorded if and only if everything expected is there with its text, and no missing element was expected with a hole in it |
| TestRuns.EveryRunKeepsInv | reka-core/src/main/java/reka/app/ApplicationConfigurer.java:371-512 | every interleaving of runners, callbacks, list appends, counter decrements and timeout keeps the invariant |
| TestRuns.FinishedOnce | reka-core/src/main/java/reka/app/ApplicationConfigurer.java:390-411 | testsFinished runs at most once, exactly when the counter reaches zero |
| TestRuns.ZeroMeansAllEnded | reka-core/src/main/java/reka/app/ApplicationConfigurer.java:403-411 | the counter reaches zero only after all tests were started and ended every case, and then the shared list has exactly the recorded errors |
| TestRuns.NormalMeansAllPassed | reka-core/src/main/java/reka/app/ApplicationConfigurer.java:390-401 | the future completes normally only if every case of every test finished with everything expected of it |
| TestRuns.CompletedOnce | reka-core/src/main/java/reka/app/ApplicationConfigurer.java:373-401 | a completed future never changes |
| TestRuns.NeverStuck | reka-core/src/main/java/reka/app/ApplicationConfigurer.java:386-401 | while the future is open the timer or a runner can always move it on, even if no flow ever calls back |
| TestRuns.AllThrough | reka-core/src/main/java/reka/app/ApplicationConfigurer.java:371-413 | when all runners are through, the future is complete: timed out if and only if the timeout came while it was open, else normal if and only if no error was recorded, else with all recorded errors |
| TestRuns.TimedOutExactly | reka-core/src/main/java/reka/app/ApplicationConfigurer.java:386-388 | in every run the future is timed out if and only if the timeout came while it was open |
| TestRuns.NoTests | reka-core/src/main/java/reka/app/ApplicationConfigurer.java:375-378 | without tests the future is complete at once, normally, and no step is taken |
| TestRuns.RunnersGoOn | reka-core/src/main/java/reka/app/ApplicationConfigurer.java:415-512 | a runner that is not through can always take its next step or waits for the callback of its case, which may come with any outcome |
| PathDots.Print | reka-core/src/main/java/reka/util/Path.java:720-736 | the loop yields the specified dotted text |
| PathDots.Parse | reka-core/src/main/java/reka/util/Path.java:429-445 | the loop over the separators yields the specified path, or the error of a number too large |
| PathDots.GroupRoundTrip | reka-core/src/main/java/reka/util/Path.java:447-463 | a name with at most one index comes back exactly if it does not look like something else; otherwise the first element differs |
| PathDots.DotsRoundTrip | reka-core/src/main/java/reka/util/Path.java:429-463 | a path comes back from its dotted text if and only if names are not empty and have no backslash, lone names do not look like indexes, names before an index have no bracket, no index is negative and no two indexical elements are in a row |
| PathDots.DotsExample | reka-core/src/main/java/reka/util/Path.java:720-736 | the dotted text of a name, an index, a name with a dot and a next index |
| PathDots.PlainPathsRoundTrip | reka-core/src/main/java/reka/util/Path.java:720-736 | in particular for names without brackets and backslashes, dots included |
| ColonTemplates.FindsFirst | reka-core/src/main/java/reka/util/StringWithColonVariables.java:20-21 | the scanner finds a match of the pattern, none starts earlier, and none there has a longer name |
| ColonTemplates.NameCharsAre | reka-core/src/main/java/reka/util/StringWithColonVariables.java:20-21 | the characters of a variable are the letters, the digits and five signs |
| ColonTemplates.Build | reka-core/src/main/java/reka/util/StringWithColonVariables.java:66-97 | the loop over the matches yields the base and the variables with their places, or the text itself when there is none |
| ColonTemplates.Apply | reka-core/src/main/java/reka/util/StringWithColonVariables.java:105-129 | inserting at shifting places puts every value between the parts of the base, missing ones as nothing |
| ColonTemplates.WithPlaceholder | reka-core/src/main/java/reka/util/StringWithColonVariables.java:131-141 | puts one placeholder in the place of every variable, in order |
| ColonTemplates.CompiledIsPieces | reka-core/src/main/java/reka/util/StringWithColonVariables.java:66-129 | filling in by insertion is filling in the pieces from left to right; a text without variables stays as it is |
| ColonTemplates.WrittenIsRead | reka-core/src/main/java/reka/util/StringWithColonVariables.java:66-129 | a text written with its variables between braces is filled in as it was written |

## Left out

- The rest of the compiler: the parser besides operators, visitors, docblocks, the module loader, `Buffer`, base 62.
- The rest of reka: module configurers, flows, HTTP, databases and wrappers of libraries.
- Source maps: `sourceRoot`, `sourcesContent` and the JSON around the mappings string; a generator hands its tables and string to a consumer directly.
- Mapping objects are values here, so the sharing of one object between a generator and a consumer is not modelled.
- JavaScript numbers are exact integers here; magnitudes beyond 2^53 are not modelled. Characters stand for UTF-16 code units, and surrogate pairs are not modelled, so a path name that ends in one before a separator is left out.
- `Array.sort` is some sorted permutation; how it sorts is not modelled.
- Sorting.Sort: is an insertion sort; the program leaves the algorithm to the JavaScript engine, and nothing else here depends on it.
- BinaryExpressions.Parser.ParseBinaryExpression: operands are given as leaves with their ranges, since parsing a unary expression is not part of this model; comments between tokens are not modelled.
- Traversals.Traverse: scopes, declarations and the path of ancestors are left out, since without a matching visitor they do not touch the buffer.
- TransformStates.RunInStep: says nothing about the buffer cursor after a content transformer, which the code advances by the untransformed text.
- The extra mappings at line breaks are modelled as the code makes them, before the line is incremented; no order is claimed for them.
- XjsLiteral.RenderedMeaning: line separators U+2028 and U+2029 inside a string literal are read as ECMAScript 2019 does.
- PathNormalize.Resolve: arguments that are not strings are left out.
- PathNormalize.ResolveRelative: the working directory is absolute, as that of a process is.
- ReadObservation.RenderTemplate: `containsKey`, `size`, `values` and lists are not recorded by the map and not part of a template here; `entrySet` is modelled as the keys and a `get` of each, in a fixed order.
- RenderCaching.EveryRunSound: requests follow one another; templates are deterministic and come to an end; the order of a hash map is taken to depend on its set of keys only; the data keep their shape, have no holes and fingerprints that tell observations apart, which `FingerprintBytes.TameIsApart` derives and without which the theorems fail.
- FingerprintBytes.SameHashed: the hash functions themselves; a name of more than 65535 bytes, for which the byte form of a path fails.
- SourceNodeCut.FromStringWithSourceMap: for mappings out of order or past the last line, nothing is said of the code, where the program repeats or loses text or fails.
- JadeRendering.JadeRenderer.RunWithCache: the content type and cache headers, which depend only on the branch, are left out, and so are statistics.
- DataTrees.VisitLog.VisitContent: an empty list and an empty map are the same node here; nothing in these functions tells them apart.
- Content is compared by value: binary, file, long and floating-point content is not modelled, and null, text, integer and truth values are.
- TestRuns.EveryRunKeepsInv: each flow run makes one callback, the executor accepts every runner, and no callback throws.
- TestCases.Ok: messages are the values they are made of.
- ColonTemplates.Build: which characters beyond those of the pattern count as parts of words is a parameter.
