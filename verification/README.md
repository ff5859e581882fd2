# Verified models of the window-pruning database

This project models, in Dafny, the algorithms of this fork of DuckDB that are hardest to get right,
and proves what they promise. `dafny verify dfyconfig.toml` checks everything.

There are five parts.

**The PEG engine of the autocomplete extension.** `GrammarCompiler` is the shift/reduce machine that
turns rule tokens into a graph of matchers, which may be shared and cyclic; `GrammarBuilder` holds the
same machine as the classes that edit child lists in place. `GrammarMeaning` defines by recursion what
a rule body means, and `GrammarCorrectness` proves that the machine builds exactly that. `Peg` gives
the semantics of parsing expressions over such a graph; `Interpreter` holds the two interpreters as
methods that move a shared token index, and proves each of them against it. `PegProperties`,
`TreeShapes`, `PegTermination`, `Recogniser`, `RecogniserTermination` and `TokensEnd` prove what parse trees
contain, when each interpreter ends and exactly when not, exactly when the two agree, and what the
recogniser does at the end of the tokens.

**The tokenizer.** `Lexemes` says what starts at a position; `Tokenizer` is the loop over the text with
its index stepping back; `TokenizerProperties` and `TokenizerRoundTrip` prove offsets, dollar quotes
and the print/tokenise round trip.

**Window pruning.** `WindowRank` defines the query `rank() <= k` on its own terms and says when tuples
may be dropped before it. `PartitionPruning`, `MergePruning`, `EarlyStop` and `RankExecutor` are the
three optimisations: pruning while tuples are hash-partitioned, pruning while sorted runs are merged,
and evaluating the rank together with its predicate. `RankPipeline` puts threads, runs, merge and
executor together and proves the answer of the whole query, ranks included.

**Batched list lambdas.** `ListBatch`, `ListTransform` and `ListFilter` run a lambda over fixed-size
batches of list elements and rebuild the rows.

**Timestamps.** `Timestamps`, `IcuCalendar`, `IcuDateAdd` and `IcuListRange` add intervals, subtract
timestamps and generate series over a calendar at a fixed offset from universal time.

Bytes are written as characters with codes 0 to 255. References to matchers are indices into an arena,
so that sharing and cycles are visible. Exceptions are result values.

## What the proofs found

The code is followed where it differs from what its comments promise. Each of these is a theorem.

- Early stopping advances its cursor over partition starts only when a row fails. A chunk in which a
  whole partition passes before a later row fails selects rows twice; `RankPipeline.SkewedRows` has one
  of three rows. `EarlyStop.InOrderUnlessSkewed` and `RankExecutor.StopAgreesUnlessSkewed` give the exact
  condition for a chunk, `RankPipeline.PipelineGivesTheAnswer` for the query.
- The selection vector has one slot per row of the chunk, and rows selected twice can need more:
  `RankPipeline.OverrunRows` has four rows that need six slots. The selection fits exactly when the passing
  runs at the starts the walk comes to are together no longer than the chunk (`EarlyStop.WalkNeeds`,
  `RankExecutor.StopAgreesUnlessSkewed`). A run that writes past the vector is undefined here; one that
  does not selects exactly the passing rows, so none is lost.
- Partition pruning remembers minima per hash, not per partition. An input none of whose partitions
  collide is safe (`PartitionPruning.PruningIsSafe`); all inputs over a set of partitions are safe exactly
  when no two of the set collide (`PartitionPruning.SafeExactlyWithoutCollisions`).
- The borrow in timestamp subtraction takes nothing off an end in the first millisecond after the
  epoch, so the result is one millisecond too long exactly when the start is before the epoch and its
  microseconds exceed the end (`IcuDateAdd.Sub`, `IcuDateAdd.SlipHappens`).
- For an end before the epoch, its milliseconds are rounded up before whole days are taken off, so days and
  microseconds of a difference can have different signs; `IcuDateAdd.Sub` says exactly when.
- A dollar-quoted token carries the marker's length as its offset (`TokenizerProperties.DollarQuoteToken`),
  so offsets are right exactly when a lexeme starts at a dollar only where the last word does
  (`TokenizerProperties.TokensCoverTheText`).
- An identifier matcher strips the quotes of its token for good, so a later alternative sees a changed
  token (`PegProperties.BacktrackingSeesStrippedToken`). Tokens are left alone by every grammar exactly
  when none is double-quoted (`PegProperties.LeftAloneExactlyUnquoted`).
- At the end of the tokens the recogniser calls every choice mandatory and fails where a choice of an
  optional matcher parses (`Recogniser.DisagreeAtEndOfTokens`). Before the end, recogniser and parser give
  the same answers for every graph over given leaves exactly when no leaf accepts the last token
  (`Recogniser.AgreeExactlyBehindSentinel`), on tokens of which each double-quoted one is spelled like the
  last; on any others they differ (`Recogniser.AgreeExactlyWhenSteady`).
- A choice that starts with a rule's bare parameter extends the caller's matcher in place when that is
  itself a choice (`GrammarBuilder.ParameterAsFirstAlternative`).

## Model

| member | source | states |
|---|---|---|
| `Matchers.MatchLeaf` | extension/autocomplete/matcher.cpp:489-805 | the own check of each of the seven kinds of leaf, with its loops and early exits and the exception on a second exponent, gives the leaf's verdict on a token |
| `Matchers.CIEquals` | src/common/string_util.cpp:306-317 | the character loop of the keyword comparison decides equality without case |
| `Matchers.MatchIdentifier` | extension/autocomplete/matcher.cpp:489-528 | an identifier matcher accepts a text that looks like an identifier and is in no banned keyword category, or in one that overrides the ban |
| `Matchers.NumberLiterals` | extension/autocomplete/matcher.cpp:653-677 | a number is a digit or dot and then digits, dots, underscores, at most one exponent letter, and signs after it; the exception is raised exactly at a second exponent letter before which all is in order |
| `Peg.FuelMonotone` | extension/autocomplete/matcher.cpp:149-163 | an outcome does not depend on how many steps were allowed |
| `Peg.Deterministic` | extension/autocomplete/matcher.cpp:260-272 | a goal has at most one outcome on given tokens |
| `Peg.DerivesClosed` | extension/autocomplete/matcher.cpp:149-163 | outcomes obey the parsing-expression rules: sequence, ordered choice, committed optional, greedy repeat |
| `Peg.DerivesLeast` | extension/autocomplete/matcher.cpp:212-222 | outcomes are the least relation that obeys those rules, for cyclic graphs too |
| `Peg.MoreNeverFails` | extension/autocomplete/matcher.cpp:352-368 | after a first success, repeating never fails |
| `PegProperties.DerivationSound` | extension/autocomplete/matcher.cpp:418-430 | any outcome keeps the number of tokens and all tokens before the start, changes others only by stripping their quotes, and ends between start and token count |
| `PegProperties.TokensUntouched` | extension/autocomplete/matcher.cpp:422-428 | without double-quoted tokens, matching changes no token, backtracking included |
| `PegProperties.LeftAloneExactlyUnquoted` | extension/autocomplete/matcher.cpp:418-430 | every grammar leaves a token vector alone from every start if and only if no token is double-quoted |
| `PegProperties.BacktrackingSeesStrippedToken` | extension/autocomplete/matcher.cpp:260-272 | a concrete choice whose second alternative sees the token its failed first alternative stripped |
| `PegProperties.TreeSpellsTokens` | extension/autocomplete/matcher.cpp:335-368 | the leaves of a parse tree, left to right, spell exactly the tokens between start and end |
| `TreeShapes.TreeHasShape` | extension/autocomplete/matcher.cpp:149-163 | the tree of a matcher has its shape all the way down: names of lists, numbers of children, the number of the alternative taken, repeats with at least one tree, kinds of leaves |
| `PegTermination.NonNullableConsumes` | extension/autocomplete/matcher.cpp:335-368 | a matcher that the ranking does not call nullable consumes a token whenever it matches |
| `PegTermination.Terminates` | extension/autocomplete/matcher.cpp:149-163 | with a rank that drops along references reached without consuming, and no repeat of a nullable element, every parse on every input finishes |
| `PegTermination.EmptyElementDiverges` | extension/autocomplete/matcher.cpp:335-368 | a repeat whose element, after the first match, goes on matching nothing where a token is left has no outcome, whether the element strips quotes on the way or not |
| `PegTermination.EmptyMatchDiverges` | extension/autocomplete/matcher.cpp:335-368 | in particular a repeat whose element matches nothing and changes nothing |
| `PegTermination.DivergesExactly` | extension/autocomplete/matcher.cpp:335-368 | the parser has no outcome if and only if it gets into evaluations that come to one another without end |
| `PegTermination.LeftRecursionDiverges` | extension/autocomplete/matcher.cpp:149-163 | matchers that ask each other first around a cycle of any length, through lists, choices, optionals and repeats, have no outcome on any input |
| `Recogniser.InterpretersAgree` | extension/autocomplete/matcher.cpp:117-147 | recogniser and parser agree step by step on a token vector whose last token no leaf accepts, and whose double-quoted tokens are spelled like the last one |
| `Recogniser.RecogniserAgreesWithParser` | extension/autocomplete/matcher.cpp:247-258 | if the parser has an outcome, the recogniser has one, succeeds exactly when it does, and at the same end |
| `Recogniser.ParserAgreesWithRecogniser` | extension/autocomplete/matcher.cpp:304-333 | and the other way round |
| `Recogniser.DisagreeAtEndOfTokens` | extension/autocomplete/matcher.cpp:117-139 | at the end of any tokens the parser matches a list of a choice of an optional matcher, and the recogniser fails on it |
| `Recogniser.AgreeExactlyBehindSentinel` | extension/autocomplete/matcher.cpp:117-139 | the two interpreters give the same answers for every graph over given leaves only if no leaf accepts the last token, and if so on tokens whose double-quoted ones are spelled like the last |
| `Recogniser.AgreeExactlyWhenSteady` | extension/autocomplete/matcher.cpp:418-430 | the two give the same answers behind every such last token if and only if each double-quoted token is spelled like the last one |
| `Recogniser.SuggestAsks` | extension/autocomplete/matcher.cpp:165-175 | a matcher asked for suggestions is marked, and every matcher marked has passed the question on: a choice to all alternatives, an optional or repeat to its child, a list to its children up to one that answers mandatory |
| `Recogniser.SuggestWithin` | extension/autocomplete/matcher.cpp:23-30 | nothing that cannot be reached from the matcher is marked |
| `TokensEnd.AskedFirst` | extension/autocomplete/matcher.cpp:23-30 | asked for the first time, an optional matcher answers optional, a list answers optional exactly when each child, asked in turn, does, and all others answer mandatory |
| `TokensEnd.AskedAgain` | extension/autocomplete/matcher.cpp:23-30 | asked again, a matcher answers mandatory and marks nothing |
| `TokensEnd.AskedInTurn` | extension/autocomplete/matcher.cpp:165-175 | a list asks its children in turn, up to the first that answers mandatory |
| `TokensEnd.ListAtEnd` | extension/autocomplete/matcher.cpp:117-137 | with no token left the rest of a list succeeds, where it stands and with all of it marked, exactly when each child in turn answers optional; otherwise it is exhausted |
| `TokensEnd.OptionalsAtEnd` | extension/autocomplete/matcher.cpp:117-137 | when the rest are optional matchers, exactly when none has been asked before its turn |
| `TokensEnd.RepeatAtEnd` | extension/autocomplete/matcher.cpp:304-333 | with no token left a repeat that has matched succeeds and asks its element |
| `TokensEnd.FailureIndex` | extension/autocomplete/matcher.cpp:117-147 | a failure leaves the state as it was, except that an exhausted list leaves the index at the end of the tokens |
| `TokensEnd.OptionalLeafMissing` | extension/autocomplete/matcher.cpp:117-137 | a list of a leaf that takes the last token and an optional leaf succeeds at the end of the tokens |
| `TokensEnd.LeafMissing` | extension/autocomplete/matcher.cpp:117-137 | with a second leaf that is not optional it fails, and leaves the index there |
| `RecogniserTermination.RecogniseMonotone` | extension/autocomplete/matcher.cpp:117-147 | an answer of the recogniser does not depend on how many steps were allowed |
| `RecogniserTermination.RecognisesOnce` | extension/autocomplete/matcher.cpp:56-61 | the recogniser has at most one answer |
| `RecogniserTermination.OptionalIsNullable` | extension/autocomplete/matcher.cpp:165-175 | a matcher that suggestions take for optional is one that the ranking calls nullable, in any state of the suggestions |
| `RecogniserTermination.SuccessAdvances` | extension/autocomplete/matcher.cpp:304-333 | a success ends between its start and the end of the tokens, and consumes a token unless the goal can match nothing, suggestions at the end of the tokens included |
| `RecogniserTermination.RecogniserTerminates` | extension/autocomplete/matcher.cpp:117-147 | with the parser's ranking, recognising finishes on any tokens and in any state, with no condition on the last token |
| `RecogniserTermination.RankedAnswer` | extension/autocomplete/matcher.cpp:304-333 | a ranked grammar gives exactly one answer, and bounds for the index of a success |
| `RecogniserTermination.RecogniserDivergesExactly` | extension/autocomplete/matcher.cpp:304-333 | the recogniser has no answer if and only if it gets into questions that come to one another without end |
| `RecogniserTermination.LeftRecursionUnanswered` | extension/autocomplete/matcher.cpp:117-147 | matchers that ask each other first around a cycle give no answer where a token is left, nor at the end of the tokens when none of them is a list |
| `Interpreter.MatchParseResult` | extension/autocomplete/matcher.cpp:63-74 | the parsing method computes the relation's outcome and end index, and leaves the index alone when there is no match |
| `Interpreter.ParseList` | extension/autocomplete/matcher.cpp:149-163 | the list loop parses its children in order, and moves the caller's index only when all match |
| `Interpreter.ParseChoice` | extension/autocomplete/matcher.cpp:260-272 | the choice loop returns the first alternative that matches |
| `Interpreter.ParseRepeat` | extension/autocomplete/matcher.cpp:335-368 | the repeat loop takes as many elements as match |
| `Interpreter.ParseRanked` | extension/autocomplete/matcher.cpp:335-368 | for a ranked grammar the parsing method has an outcome on every input |
| `Interpreter.Match` | extension/autocomplete/matcher.cpp:56-61 | the recognising method computes the recogniser's answer, index and suggestions |
| `Interpreter.MatchList` | extension/autocomplete/matcher.cpp:117-147 | the list loop of the recogniser, with suggestions at the end of the tokens, whose answers there `TokensEnd` gives |
| `Interpreter.MatchChoice` | extension/autocomplete/matcher.cpp:247-258 | the choice loop of the recogniser |
| `Interpreter.MatchRepeat` | extension/autocomplete/matcher.cpp:304-333 | the repeat loop of the recogniser |
| `Interpreter.MatchRanked` | extension/autocomplete/autocomplete_extension.cpp:747-754 | for a ranked grammar the recognising method finishes on any tokens, with the only answer there is, within the tokens, and past its start unless the matcher can match nothing |
| `Interpreter.AddSuggestion` | extension/autocomplete/matcher.cpp:23-30 | marks what the suggestion function marks, and ends on cyclic graphs |
| `Interpreter.AddSuggestions` | extension/autocomplete/matcher.cpp:165-175 | the list loop, which stops at the first mandatory child |
| `Interpreter.AddEachSuggestion` | extension/autocomplete/matcher.cpp:274-280 | the choice loop, which does not stop |
| `GrammarCompiler.Create` | extension/autocomplete/matcher.cpp:1059-1200 | building a rule ends, because the rules left to build or the rank of the called rule drop; the graph stays well formed and only grows |
| `GrammarCompiler.Run` | extension/autocomplete/matcher.cpp:1092-1194 | after any tokens, well-formed or not, the stack is non-empty and points into a well-formed graph that only grows; reading ends |
| `GrammarCorrectness.BuildTerm` | extension/autocomplete/matcher.cpp:1120-1166 | reading a term leaves the machine as it was but for one more item that shows the term's meaning |
| `GrammarCorrectness.BuildAlternatives` | extension/autocomplete/matcher.cpp:1141-1166 | `/` joins the item before it and the item after it into one choice, in order |
| `GrammarCorrectness.BuildBody` | extension/autocomplete/matcher.cpp:1092-1194 | reading a body of any nesting appends one item per term, each with its meaning |
| `GrammarCorrectness.BuildRule` | extension/autocomplete/matcher.cpp:1059-1080 | a reference gives the cached matcher, or a new one that shows the rule's meaning |
| `GrammarCorrectness.BuildCall` | extension/autocomplete/matcher.cpp:1036-1050 | a call gives the called rule's meaning with the argument for its parameter |
| `GrammarBuilder.MatcherFactory.CreateMatcher` | extension/autocomplete/matcher.cpp:1059-1200 | the recursive method on the shared factory computes the machine's result, errors included |
| `GrammarBuilder.MatcherFactory.Keyword` | extension/autocomplete/matcher.cpp:862-868 | a keyword override wins over a new keyword matcher |
| `GrammarBuilder.MatcherFactory.AddKeywordOverride` | extension/autocomplete/matcher.cpp:1202-1205 | a first registration is kept, later ones are not |
| `GrammarBuilder.MatcherFactory.AddRuleOverride` | extension/autocomplete/matcher.cpp:1207-1209 | likewise for rules |
| `GrammarBuilder.MatcherList.AddMatcher` | extension/autocomplete/matcher.cpp:989-1008 | an item goes to the list on top, or to the choice on top, which is then taken off |
| `GrammarBuilder.MatcherList.Quantify` | extension/autocomplete/matcher.cpp:1120-1140 | the last item becomes optional, or an optional repeat |
| `GrammarBuilder.MatcherList.Alternative` | extension/autocomplete/matcher.cpp:1141-1166 | the last item becomes, or continues, a choice that is pushed |
| `GrammarBuilder.MatcherList.CloseBracket` | extension/autocomplete/matcher.cpp:1022-1051 | a bracket becomes an item below, a call is replaced by the called rule's matcher |
| `GrammarBuilder.MatcherList.Consume` | extension/autocomplete/matcher.cpp:1094-1193 | one token moves the stack as the machine's step does |
| `GrammarBuilder.MatcherList.ConsumeAll` | extension/autocomplete/matcher.cpp:1092-1194 | all tokens of a rule do |
| `GrammarBuilder.OverridesStay` | extension/autocomplete/matcher.cpp:1216-1239 | registering overrides keeps the factory one that holds overrides only |
| `GrammarBuilder.GrammarBuilt` | extension/autocomplete/matcher.cpp:1211-1244 | building a grammar whose reachable rules have well-formed, possibly mutually recursive bodies succeeds: each rule is built once, shows its meaning, all references are the same matcher, overrides win, and the result can be interpreted |
| `GrammarCorrectness.GoodWithRule` | extension/autocomplete/include/inlined_grammar.gram:853-854 | rules that an override covers or that nothing reaches may hold anything, regular expressions too |
| `GrammarBuilder.ParameterAsFirstAlternative` | extension/autocomplete/matcher.cpp:1143-1155 | the caller's matcher survives a choice that starts with the parameter if and only if it is not a choice |
| `Lexemes.CutBack` | extension/autocomplete/tokenizer.cpp:286-296 | a number is cut back to its last digit or dot, and keeps its first character |
| `Tokenizer.ParserTokenizer.IsSpecialOperator` | extension/autocomplete/tokenizer.cpp:21-48 | the operator comparisons find the longest special operator that fits in the text |
| `Tokenizer.ParserTokenizer.Numeric` | extension/autocomplete/tokenizer.cpp:264-296 | one character of a number; at its end the index steps back and the last position has grown |
| `Tokenizer.ParserTokenizer.Quoted` | extension/autocomplete/tokenizer.cpp:317-340 | one character of a quoted lexeme, with doubled quotes as escapes |
| `Tokenizer.ParserTokenizer.OnDollar` | extension/autocomplete/tokenizer.cpp:185-220 | a dollar opens a quoted string when a complete marker follows, and is passed over otherwise |
| `Tokenizer.ParserTokenizer.DollarQuoted` | extension/autocomplete/tokenizer.cpp:354-391 | one character inside a dollar quote |
| `Tokenizer.ParserTokenizer.Standard` | extension/autocomplete/tokenizer.cpp:169-263 | one character of the standard state |
| `Tokenizer.ParserTokenizer.TokenizeInput` | extension/autocomplete/tokenizer.cpp:161-412 | the loop ends although its index steps back; statements, tokens and last word are those of the lexemes, and the last word starts within the text |
| `TokenizerProperties.LaysOut` | extension/autocomplete/tokenizer.cpp:140-146 | from any position, tokens lie in order with only gaps between them if and only if a lexeme starts at a dollar only where the last word does |
| `TokenizerProperties.TokensCoverTheText` | extension/autocomplete/tokenizer.cpp:161-412 | every token is the slice at its offset, with only spaces, comments and semicolons between tokens, if and only if a lexeme starts at a dollar only where the last word does; then the last word reaches to the end, without the opening quote of an open string |
| `TokenizerProperties.TokensInOrder` | extension/autocomplete/tokenizer.cpp:140-146 | tokens do not overlap and come in order |
| `TokenizerProperties.ClosesAtMarker` | extension/autocomplete/tokenizer.cpp:363-380 | the comparison of a closing marker succeeds exactly where the marker occurs |
| `TokenizerProperties.DollarQuoteToken` | extension/autocomplete/tokenizer.cpp:354-391 | a dollar quote closes at the first occurrence of its own marker, its token is the text between in single quotes, and its offset is the marker's length |
| `TokenizerProperties.QuotedLexeme` | extension/autocomplete/tokenizer.cpp:317-340 | a quoted lexeme is exactly the opening quote, some text with its quotes doubled, and a closing quote that no further quote follows; without one it stays open |
| `TokenizerProperties.LongestSpecialOperator` | extension/autocomplete/tokenizer.cpp:21-48 | the special operator at a position is the longest one of the table that the text spells there |
| `TokenizerProperties.DollarOpensExactly` | extension/autocomplete/tokenizer.cpp:185-220 | a dollar opens a quote exactly when it begins a complete marker |
| `TokenizerProperties.StatementsReplay` | extension/autocomplete/autocomplete_extension.cpp:704-718 | the statements with their ends, and then the tokens of the last one, are exactly what is pushed, in order |
| `TokenizerRoundTrip.CopiedLexeme` | extension/autocomplete/tokenizer.cpp:161-353 | a lexeme copied to another text and followed by a space or the end gives the same token there, cut-back numbers included |
| `TokenizerRoundTrip.ReadingIsWords` | extension/autocomplete/autocomplete_extension.cpp:704-718 | in a text in which no dollar quote opens, the words read are the texts the tokenizer collects |
| `TokenizerRoundTrip.RoundTrip` | extension/autocomplete/tokenizer.cpp:161-412 | joining the words with single spaces and reading again gives the same words, dollars inside strings, identifiers and comments and dollars that are passed over included |
| `TokenizerRoundTrip.TokenizeTwice` | extension/autocomplete/autocomplete_extension.cpp:704-718 | two runs of the tokenizer, the second over the joined tokens of the first, collect the same texts |
| `TokenizerRoundTrip.DollarQuoteDoesNotReturn` | extension/autocomplete/tokenizer.cpp:354-391 | a dollar quote around a single quote, whose token is not read again as a word |
| `WindowRank.SafePruning` | src/common/sort/hashed_sort.cpp:501-528 | dropping tuples that have k smaller ones in their partition never changes the answer of rank <= k |
| `WindowRank.SafePartwisePruning` | src/common/sort/sorted_run_merger.cpp:690-721 | nor does doing so in each of many parts with regard to that part only |
| `WindowRank.TopKPermuted` | src/common/sort/sorted_run_merger.cpp:729-738 | the answer, as a multiset, does not depend on the order of the tuples |
| `PartitionPruning.HashedSortLocalSinkState.AddValue` | src/common/sort/hashed_sort.cpp:511-526 | the heap keeps the k smallest values of a bucket, and a tuple passes exactly when fewer than k are below it |
| `PartitionPruning.HashedSortLocalSinkState.Admit` | src/common/sort/hashed_sort.cpp:511-526 | the heaps stand for all tuples seen so far |
| `PartitionPruning.HashedSortLocalSinkState.Sink` | src/common/sort/hashed_sort.cpp:469-530 | a chunk loses exactly the tuples with k smaller ones so far in their bucket, or nothing when pruning is off for it |
| `PartitionPruning.SinkAll` | src/common/sort/hashed_sort.cpp:469-530 | sinking chunks whose partitions do not collide, with any adaptive decisions, drops only tuples beyond rank k and keeps the answer |
| `PartitionPruning.PruningIsSafe` | src/common/sort/hashed_sort.cpp:501-528 | when no two partitions of the input share a hash value, every run of the pruning keeps the answer |
| `PartitionPruning.CollisionLosesTuple` | src/common/sort/hashed_sort.cpp:511-526 | two partitions with one hash make the pruning lose a tuple of the answer, for every k |
| `PartitionPruning.SafeExactlyWithoutCollisions` | src/common/sort/hashed_sort.cpp:511-526 | over any set of partitions, the pruning is safe for all inputs if and only if no two of them share a hash value |
| `MergePruning.PruneRun` | src/common/sort/sorted_run_merger.cpp:690-720 | reading a sorted run keeps exactly its first k distinct order values per partition, and the answer |
| `MergePruning.DenseDropsBeyond` | src/common/sort/sorted_run_merger.cpp:710-716 | what goes is beyond rank k |
| `MergePruning.KeptExactly` | src/common/sort/sorted_run_merger.cpp:700-719 | a tuple of a sorted run is kept exactly when fewer than k distinct order values are below its own in its partition, or none is |
| `MergePruning.TracksNext` | src/common/sort/sorted_run_merger.cpp:700-719 | the scanner's three variables decide membership by dense rank |
| `MergePruning.MergedPartition.Scan` | src/common/sort/sorted_run_merger.cpp:787-821 | one chunk of a merged partition, with state carried over from the last one |
| `MergePruning.MergedPartition.ScanAll` | src/common/sort/sorted_run_merger.cpp:772-825 | the chunk size cannot be observed |
| `MergePruning.MergePruningIsSafe` | src/common/sort/sorted_run_merger.cpp:654-738 | pruned slices of any runs, sorted into any merged partitions and pruned again, give the query's answer |
| `EarlyStop.RankAtIsRank` | src/function/window/window_rank_function.cpp:200-201 | on sorted rows the distance between peer and partition boundary is the SQL rank |
| `EarlyStop.WalkSelects` | src/function/window/window_rank_function.cpp:211-233 | early stopping selects every passing row and no failing one |
| `EarlyStop.InOrderUnlessSkewed` | src/function/window/window_rank_function.cpp:222-231 | it selects them once each and in order if and only if no whole partition of the chunk passes before a row that fails |
| `EarlyStop.WalkNeeds` | src/function/window/window_rank_function.cpp:216-231 | how many slots the selection takes from any row on: the passing runs at the starts that are come to |
| `RankExecutor.WindowPeerLocalState.NextRank` | src/function/window/window_rank_function.cpp:92-103 | the counters give the rank of the next row |
| `RankExecutor.WindowPeerLocalState.SetIndex` | src/include/duckdb/common/types/selection_vector.hpp:87-89 | one row more in the selection vector, or a write past its end |
| `RankExecutor.WindowPeerLocalState.Evaluate` | src/function/window/window_rank_function.cpp:198-214 | without a predicate every row of the chunk gets its rank |
| `RankExecutor.WindowPeerLocalState.EvaluateAndFilter` | src/function/window/window_rank_function.cpp:211-220 | with it, the selection is the passing rows in order, and its vector has room for them |
| `RankExecutor.WindowPeerLocalState.EvaluateOrSkip` | src/function/window/window_rank_function.cpp:211-233 | one row of early stopping, with the jump to the next partition start, backwards too, or a write past the selection vector when the walk is longer than it |
| `RankExecutor.WindowPeerLocalState.EvaluateAndStop` | src/function/window/window_rank_function.cpp:147-238 | with early stopping the selection is the walk over the chunk, and every selected row has its rank, exactly when the walk fits the selection vector; otherwise that is overrun |
| `RankExecutor.BoundsGiveRanks` | src/function/window/window_rank_function.cpp:198-202 | the boundary vectors of sorted rows give every row its SQL rank |
| `RankExecutor.StopAgreesUnlessSkewed` | src/function/window/window_rank_function.cpp:147-233 | early stopping and plain filtering agree exactly when the chunk is not skewed; the selection vector is overrun exactly when the passing runs at the starts come to more than the chunk; otherwise the selected rows are the passing ones |
| `RankPipeline.BlocksGiveTheAnswer` | src/execution/operator/aggregate/physical_window.cpp:1151-1169 | over chunks that cover the sorted rows, the filter's selections make up the answer; early stopping gives it if and only if no chunk is skewed, is undefined if and only if some chunk overruns its selection vector, and otherwise holds every row of the answer and no other |
| `RankPipeline.SkewedRows` | src/function/window/window_rank_function.cpp:222-231 | three sorted rows whose chunk is skewed, with the row that is selected twice, just within the selection vector |
| `RankPipeline.OverrunRows` | src/function/window/window_rank_function.cpp:216-231 | four sorted rows whose chunk takes six slots of a selection vector of four |
| `RankPipeline.Execute` | src/execution/operator/aggregate/physical_window.cpp:1115-1175 | the executor, run over all chunks with one local state, gives those selections and the rank of each row, unless it overruns a selection vector |
| `RankPipeline.SinkThreads` | src/common/sort/hashed_sort.cpp:469-530 | threads sinking on their own, each without collisions in its own input, drop only tuples beyond rank k of their own |
| `RankPipeline.ScanGroup` | src/common/sort/sorted_run_merger.cpp:772-825 | scanning all merged partitions gives their pruned rows, whatever the chunk size |
| `RankPipeline.GroupAnswer` | src/common/sort/sorted_run_merger.cpp:654-738 | what the executor reads of a hash group is sorted and has the answer of the group's runs |
| `RankPipeline.RankAmongAll` | src/function/window/window_rank_function.cpp:200-201 | each row of the answer has, after all pruning, the rank it has among all tuples of the query |
| `RankPipeline.ExecuteGroups` | src/execution/operator/aggregate/physical_window.cpp:1115-1175 | every hash group is scanned and executed, and each row comes with its rank among all tuples of the query, unless a selection vector is overrun |
| `RankPipeline.PipelineGivesTheAnswer` | src/execution/operator/aggregate/physical_window.cpp:1115-1175 | for any threads, hash groups, runs, slices, merged partitions and chunks, the result is the answer over all tuples; with early stopping it is the answer if and only if no chunk is skewed, undefined if and only if some chunk overruns its selection vector, and otherwise it holds the same rows |
| `Selections.KeptSlice` | extension/core_functions/lambda_functions.cpp:133-143 | what is kept of a stretch lies between the counts of kept elements at its ends |
| `ListBatch.LambdaExecuteInfo.ExecuteExpression` | extension/core_functions/lambda_functions.cpp:182-216 | slicing by the selection vectors gives the lambda each element with its own index and its own row's columns |
| `ListTransform.ExecuteLambda` | extension/core_functions/lambda_functions.cpp:270-355 | the batched loop computes the lambda on all elements of all rows in order |
| `ListTransform.ListTransform` | extension/core_functions/lambda_functions.cpp:66-85 | whatever the batch size, every valid row keeps its length, and its n-th value is the lambda on its own n-th element, the number n and its own row's columns |
| `ListFilter.ListFilterInfo.EnterEmptyLists` | extension/core_functions/lambda_functions.cpp:146-151 | empty and NULL rows get empty entries at the current offset |
| `ListFilter.ListFilterInfo.Take` | extension/core_functions/lambda_functions.cpp:124-143 | one element moves the counters, and the row's entry is written at its last one; the current row is always in range |
| `ListFilter.ListFilterInfo.AppendResult` | extension/core_functions/lambda_functions.cpp:103-158 | one batch writes the entries of the rows it finishes, and selects the elements whose value is true |
| `ListFilter.ExecuteLambda` | extension/core_functions/lambda_functions.cpp:270-355 | the batched loop enters every row and keeps exactly the elements whose lambda is true |
| `ListFilter.ListFilter` | extension/core_functions/lambda_functions.cpp:88-158 | whatever the batch size, each valid row's slice is its elements, in order, at exactly the positions where the lambda is true, not where it is NULL; other rows are empty, and the slices lie end to end and cover the result exactly |
| `Timestamps.GetDateIsFloor` | src/common/types/timestamp.cpp:345-354 | the day of a finite timestamp is the floor, before the epoch as after it |
| `Timestamps.RepresentableRange` | src/common/types/timestamp.cpp:406-415 | the range check excludes exactly the infinities and the first, incomplete day |
| `IcuCalendar.Calendar.FieldDifference` | extension/icu/third_party/icu/i18n/calendar.cpp:2290-2388 | doubling and binary search find how many units fit, rounded toward the start, the calendar advances by them, and it fails exactly when 32 bits do not hold them |
| `IcuDateAdd.TryGetTime` | extension/icu/icu-datefunc.cpp:102-124 | the clock and the spare microseconds make a timestamp exactly when it can be represented |
| `IcuDateAdd.SetTime` | extension/icu/icu-datefunc.cpp:134-149 | the clock is the floor in milliseconds, and the rest is not negative |
| `IcuDateAdd.SubtractField` | extension/icu/icu-datefunc.cpp:160-169 | the difference to an end that is truncated toward zero |
| `IcuDateAdd.CalendarAddHour` | extension/icu/icu-dateadd.cpp:47-65 | hours beyond 32 bits are added in portions, exactly |
| `IcuDateAdd.Split` | extension/icu/icu-dateadd.cpp:98-108 | the units add up to the interval's milliseconds and share its sign |
| `IcuDateAdd.AddFields` | extension/icu/icu-dateadd.cpp:110-130 | the order of the fields depends on the signs |
| `IcuDateAdd.Add` | extension/icu/icu-dateadd.cpp:67-133 | timestamp plus interval for any months, days and microseconds and any month step, as `IcuDateAdd.AddWithMonths` and `IcuDateAdd.AddIsExact` say; infinite timestamps stay |
| `IcuDateAdd.AddWithMonths` | extension/icu/icu-dateadd.cpp:67-133 | with months the result is the sum of timestamp, days, microseconds and what the month step moves the clock by, or a range error exactly when that sum, or the clock on the way, cannot be represented |
| `IcuDateAdd.AddIsExact` | extension/icu/icu-dateadd.cpp:67-133 | without months the result is exactly the sum, or a range error, exactly when the sum cannot be represented on the way |
| `IcuDateAdd.BorrowedTotal` | extension/icu/icu-dateadd.cpp:157-165 | the borrow is right except for ends in the first millisecond after the epoch |
| `IcuDateAdd.Sub` | extension/icu/icu-dateadd.cpp:146-180 | days and microseconds total the difference, plus one millisecond exactly when the borrow slips; for an end from the epoch on they are quotient and remainder, and otherwise their signs differ at most in the case stated exactly; swapping the timestamps negates |
| `IcuDateAdd.SubtractThenAdd` | extension/icu/icu-dateadd.cpp:146-180 | adding the difference back gives the end or a range error; exactly the end if and only if nothing slips |
| `IcuDateAdd.SlipHappens` | extension/icu/icu-dateadd.cpp:160-165 | one microsecond after the epoch minus one before it gives 1002 microseconds, and adding that back misses the end |
| `IcuListRange.ListLength` | extension/icu/icu-list-range.cpp:79-123 | counting ends, because it gives up past 2^32 - 1 values |
| `IcuListRange.LengthCharacterised` | extension/icu/icu-list-range.cpp:79-123 | a row has m values exactly when the first m values exist and keep the bound, at most the end forward and at least it back, the end itself only when inclusive, and the next one exists and breaks it; none for a zero interval, refused for mixed signs |
| `IcuListRange.MeasureRows` | extension/icu/icu-list-range.cpp:145-158 | the first pass lays the rows end to end, and fails exactly when a row fails |
| `IcuListRange.FillRow` | extension/icu/icu-list-range.cpp:164-175 | the second pass writes each slot of its row once, and no step fails that was counted |
| `IcuListRange.ListRange` | extension/icu/icu-list-range.cpp:126-181 | both passes agree for any step function: rows are start, start + increment, and so on, NULL rows are empty, and together they fill the child vector exactly |
| `IcuListRange.EvenlySpaced` | extension/icu/icu-list-range.cpp:71-73 | with the calendar's addition and no months, the values are evenly spaced |
| `IcuListRange.EvenLength` | extension/icu/icu-list-range.cpp:79-123 | and their number is how often the step fits in the distance between the bounds |
| `IcuListRange.InclusiveHasTheEnd` | extension/icu/icu-list-range.cpp:184-200 | generate_series has one value more than range exactly when the step divides the distance to the end |

## Left out

- The parser of grammar text, the inlined grammar and the keyword lists: rules arrive as tokens, keyword sets as parameters.
- `GrammarBuilder.MatcherFactory.CreateMatcher`: calls among rules with a parameter must be acyclic, because building a cyclic one never ends in the source; calls and references among other rules may be cyclic.
- `GrammarBuilder.GrammarBuilt`: for well-formed bodies whose choices do not start with a bare parameter; malformed bodies that the source happens to accept have no meaning here, though building them is still modelled step by step.
- `Interpreter.MatchParseResult`: for inputs on which matching ends; `Interpreter.ParseRanked` and `PegTermination` say when it does.
- `Interpreter.Match`: likewise; `Interpreter.MatchRanked` and `RecogniserTermination` say when it ends. That the inlined grammar has a ranking is not part of this model, because its text is not.
- `TokenizerRoundTrip.RoundTrip`: for texts that open no dollar quote; `TokenizerRoundTrip.DollarQuoteDoesNotReturn` shows one that does.
- Contents and ranking of suggestions: which matchers are asked for suggestions is modelled, what they answer is not.
- The token offsets inside the PEG engine, and the autocomplete tokenizer's own handling of the last token.
- Rewriting of Unicode spaces before tokenising.
- Selection vectors of the list functions have no capacity here; the rank executor's has one slot per row of the chunk. What happens after a write past it is not modelled, because the source does not define it.
- `WindowRank.TopK`: NULL order values and descending orders are not modelled; order values are integers.
- `PartitionPruning.HashedSortLocalSinkState.Sink`: a limit below one is not modelled, because the source then reads the top of an empty heap; neither is the formula of the adaptive decision, which may be any decision per chunk.
- The bits of sort keys: partition and order value of a tuple are given.
- Ranks with explicit frames or a second order, and dense and percent ranks.
- The scanner that fills the partition starts of a chunk, the sorting of runs and the split of tuples into hash groups: `RankPipeline.PipelineGivesTheAnswer` takes their results under the conditions that they meet.
- `ListBatch.LambdaExecuteInfo.ExecuteExpression`: the columns that are not constant share one selection vector, where the source fills equal copies.
- Vector formats, validity masks and selection memory of the list functions; lambdas are pure functions of one element's arguments.
- `IcuCalendar.Calendar.Add`: adding months is a parameter, because the calendar's own rules are not part of this model; time zones with changing offsets and the rounding of times as floating-point numbers beyond 2^53 milliseconds are not modelled either.
- `IcuDateAdd.Sub`: integers do not overflow when the borrow is taken off an end at the very first microseconds of the 64-bit range.
- The generators of extension tables and other scripts.
