# Verified model of the algorithmic cores of instinct.cpp

The project models, in Dafny, the parts of instinct.cpp whose correctness does not show from a
single function body, and proves what they promise for all inputs and all runs.

- **Byte-pair encoding** (`ByteStrings`, `OrderedMaps`, `BytePairMerging`, `PairStatistics`, `PairPlaces`,
  `RegexTokenizer`, `TiktokenTokenizer`, `TiktokenEncoding`): training, lowest-rank-first encoding, decoding, recovery of
  merges from a flat rank table, the byte shuffle. Main results: greedy encoding equals replaying
  every merge in rank order (`GreedyIsReplay`), hence encoding reproduces training
  (`EncodingReproducesTraining`), and decode after encode is the identity for trained tokenizers
  (`TrainedIsLossless`) and for tokenizers rebuilt from a rank table (`LosslessOn`). For the latter,
  encoding by recovered merges is joining by rank (`EncodingIsJoining`), so that every token of the
  rank file encodes to its rank (`TokenEncodesToRank`).
- **Unigram tokenizer** (`UnigramTokenizer`, `Utf8Text`): the text is cut at its code points
  (`CutIsCodePoints`), the Viterbi search finds a best segmentation (`BackPathOptimal`, `DoEncode`), and
  its search window never hides a token (`WindowHoldsTokens`).
- **Query trees as SQL** (`SqlText`, `SqlConditions`, `SqlSyntax`, `SqlMeaning`, `SqlNesting`,
  `SqlBuilder`, `SqlLexer`, `SqlRows`): the emitted text is lexed and read back with the precedence of
  SQL, and evaluated against rows of a table (`TextSelectsRows`). The meaning is kept under every
  assignment exactly for the trees that pass a syntactic check (`MeaningKeptExactly` on tokens, `TextMeaningExactly` on the text itself): a NOT in front of several
  clauses negates only the first of them, because several clauses are printed without parentheses.
  A second NOT directly after the first undoes the damage, so the check counts NOTs in pairs.
- **Text splitter** (`SplitWindows`, `TextSplitter`, `Strings`): the sliding window, its overlap, and
  the recursion over the shared list of separators. The comment of `MergeSplits_` promises documents
  "less than" the chunk size; the code does not keep that (two splits can fill a document, and the
  test inside its trimming loop adds the separator in the wrong case). `ChunkSizeExactly` says for
  which sizes documents are at most as long as the chunk size, `BelowChunkExactly` for which they are
  shorter. The recursion need not end either; `DepthExactly` and `EndsOnEveryText` say when it does.
- **Closing a file batch** (`BatchProtocol`) and **the task scheduler** (`TaskScheduler`): state
  machines over all interleavings, the scheduler with any number of calls of `Start`, `Terminate` and
  `Drain` at any time.
- **Line framing** (`LineFraming`), **summary rounds** (`SummaryChain`), **Snowflake ids**
  (`SnowflakeIds`) and **the tensor index of a model file** (`TensorFile`).
- `Wrappers`, `Sequences` and `Strings` hold what the modules share.

Run `dafny verify dfyconfig.toml` to check everything.

## Modelling decisions

- Bytes are integers below 256, other text is a sequence of characters; ids are unbounded integers,
  with the `INT32_MAX` that starts the search for a lowest rank kept as a constant.
- Chunks cut out by a regular expression, the split of a text by a separator, grapheme borders,
  whitespace, the language model behind a summary chain, the byte size of a tensor and the printed
  form of numbers are parameters. What is assumed of a split is written out where it is needed:
  `AbsentKeepsWhole` (a separator that does not occur leaves the text whole) for what is said about
  endless recursion, `CutsAll` (non-empty pieces that make up the text) for losing nothing. That the
  empty separator makes the recursion end needs neither.
- Exceptions are `Err` or `None` results. Undefined behaviour is a result of its own where a run can
  reach it (`NoPairLeft` in training) and a precondition where a caller has to avoid it (empty chunks,
  an empty line breaker, an empty separator list).
- A recursion that need not end takes the number of nested calls there is room for; ending is
  "some number is enough", and the theorems quantify over all of them.
- Shifts, ors and masks of ids are defined bit by bit on natural numbers.
- Scores are exact reals. The least finite `float` that starts the search for a maximum is kept, and
  `ScoresInRange` says when it cannot matter: every score above some floor, and the floor times the
  number of characters still a finite `float`.
- Rows hold numbers and texts; a number and a text are never equal, and how the text of a number is read
  is a parameter.
- The reader of conditions accepts a NOT in front of a NOT, which the databases in use do.

## Model

| member | source | states |
|---|---|---|
| `BytePairMerging.MergeInPlace` | modules/instinct-llm/include/tokenizer/Tokenizer.hpp:114-121 | the erase-and-insert loop computes the left-to-right replacement of non-overlapping occurrences |
| `BytePairMerging.MergeLeftmost` | modules/instinct-llm/include/tokenizer/Tokenizer.hpp:114-121 | the leftmost occurrence is replaced and merging goes on behind it; with MergeAbsent this determines the result |
| `BytePairMerging.MergeAbsent` | modules/instinct-llm/include/tokenizer/Tokenizer.hpp:114-121 | ids without the pair are left as they are |
| `BytePairMerging.MergeRemoves` | modules/instinct-llm/include/tokenizer/Tokenizer.hpp:114-121 | no occurrence of the pair survives when the new id is neither of its parts |
| `BytePairMerging.MergePairs` | modules/instinct-llm/include/tokenizer/Tokenizer.hpp:114-121 | every adjacent pair of the result mentions the new id or stood in the input |
| `BytePairMerging.MergeShortens` | modules/instinct-llm/include/tokenizer/RegexTokenizer.hpp:195-213 | each merge of a present pair shortens the ids, so the encoding loop ends |
| `BytePairMerging.MergeKeepsExpansion` | modules/instinct-llm/include/tokenizer/Tokenizer.hpp:114-121 | merging keeps the bytes the ids spell when the new id spells its two parts |
| `BytePairMerging.GreedyStep` | modules/instinct-llm/include/tokenizer/RegexTokenizer.hpp:195-213 | one lowest-rank-first step does not change the result of replaying the whole table |
| `BytePairMerging.GreedyIsReplay` | modules/instinct-llm/include/tokenizer/RegexTokenizer.hpp:187-215 | for every table with sources below targets and distinct targets, greedy encoding equals replaying all merges in increasing rank |
| `BytePairMerging.RankOrderExists` | modules/instinct-llm/include/tokenizer/RegexTokenizer.hpp:195-213 | such a replay order exists for every table with distinct targets, so the refinement is never vacuous |
| `BytePairMerging.GreedyKeepsExpansion` | modules/instinct-llm/include/tokenizer/RegexTokenizer.hpp:187-215 | encoding never changes the bytes that the ids spell |
| `BytePairMerging.GreedyIsFinal` | modules/instinct-llm/include/tokenizer/RegexTokenizer.hpp:208-210 | encoding stops only when no pair of the table is left in the ids |
| `PairStatistics.ComputePairsState` | modules/instinct-llm/include/tokenizer/Tokenizer.hpp:147-156 | the counting loop tallies the adjacent pairs of the ids, overlapping ones included, in order of first sight |
| `PairStatistics.TallyAllKeepsStats` | modules/instinct-llm/include/tokenizer/Tokenizer.hpp:147-156 | the tallies hold the exact number of occurrences of every pair seen, keyed in order of first occurrence |
| `PairStatistics.GetMaxPair` | modules/instinct-llm/include/tokenizer/Tokenizer.hpp:135-145 | the chosen pair has the highest count, the earliest seen winning ties |
| `PairPlaces.TopIsMostFrequent` | modules/instinct-llm/include/tokenizer/Tokenizer.hpp:135-156 | the pair picked from the tallies of all chunks stands in at least as many places (chunk, position) as any other, and comes first of those that stand in as many |
| `PairPlaces.MostFrequentUnique` | modules/instinct-llm/include/tokenizer/Tokenizer.hpp:135-145 | at most one pair of the chunks is that pair |
| `PairStatistics.PickLowest` | modules/instinct-llm/include/tokenizer/RegexTokenizer.hpp:196-210 | the scan finds the lowest-ranked pair present, or none exactly when no pair ranked below INT32_MAX is present |
| `RegexTokenizer.RunInvariant` | modules/instinct-llm/include/tokenizer/RegexTokenizer.hpp:132-147 | training never selects a pair twice, both sources of each merge are below its target, and merged pairs never return |
| `RegexTokenizer.PickTop` | modules/instinct-llm/include/tokenizer/RegexTokenizer.hpp:132-137 | the pair picked in a round is the most frequent one of the chunks, counted over their places; none is picked exactly where no chunk has two ids left |
| `RegexTokenizer.LearnMerges` | modules/instinct-llm/include/tokenizer/RegexTokenizer.hpp:127-147 | every round merges the most frequent pair of the ids reached so far, the first one on ties; targets are 256, 257, ...; the loop is cut short exactly where no pair is left to pick |
| `RegexTokenizer.EncodingReproducesTraining` | modules/instinct-llm/include/tokenizer/RegexTokenizer.hpp:132-149 | encoding a training chunk with the trained table gives the ids training ended with |
| `RegexTokenizer.TrainedIsLossless` | modules/instinct-llm/include/tokenizer/RegexTokenizer.hpp:117-149 | training ids still spell their chunks, and decoding the encoding of any other chunks gives back their bytes |
| `RegexTokenizer.RoundTrip` | modules/instinct-llm/include/tokenizer/RegexTokenizer.hpp:154-183 | decode after encode is the identity for every vocabulary that spells its merges |
| `RegexTokenizer.DecodeFails` | modules/instinct-llm/include/tokenizer/RegexTokenizer.hpp:156-164 | decoding throws exactly when some id is neither in the vocabulary nor a special token |
| `RegexTokenizer.DecodeConcatenates` | modules/instinct-llm/include/tokenizer/RegexTokenizer.hpp:154-166 | decoding concatenates the words of the ids, those of the vocabulary before special tokens |
| `RegexTokenizer.EncodeIds` | modules/instinct-llm/include/tokenizer/RegexTokenizer.hpp:187-215 | the encoding loop returns the greedy result, spells the text and leaves no pair of the table |
| `RegexTokenizer.Tokenizer.Train` | modules/instinct-llm/include/tokenizer/RegexTokenizer.hpp:103-150 | rejects sizes below 256, otherwise installs the learned table and vocabulary of exactly vocab_size - 256 merges |
| `RegexTokenizer.Tokenizer.EncodeOrdinary` | modules/instinct-llm/include/tokenizer/RegexTokenizer.hpp:170-183 | the concatenated ids of the chunks spell the concatenated chunks |
| `RegexTokenizer.Tokenizer.Decode` | modules/instinct-llm/include/tokenizer/RegexTokenizer.hpp:154-166 | vocabulary first, then special tokens, else an exception |
| `TiktokenTokenizer.FindBest` | modules/instinct-llm/include/tokenizer/Tokenizer.hpp:237-248 | the search finds the leftmost join of lowest rank |
| `TiktokenTokenizer.SplitToken` | modules/instinct-llm/include/tokenizer/Tokenizer.hpp:226-270 | the result ends a chain that starts from the single bytes and makes the leftmost join of lowest rank at every step, and no join below the maximal rank is left |
| `TiktokenTokenizer.ExhaustedUnique` | modules/instinct-llm/include/tokenizer/Tokenizer.hpp:226-270 | there is only one such chain |
| `TiktokenTokenizer.BpeTiles` | modules/instinct-llm/include/tokenizer/Tokenizer.hpp:226-270 | the parts concatenate to the token and each is a single byte or a token of lower rank |
| `TiktokenTokenizer.RecoverRanks` | modules/instinct-llm/include/tokenizer/Tokenizer.hpp:272-288 | recovery succeeds exactly when every longer token splits into two known parts |
| `TiktokenTokenizer.SplitIsCut` | modules/instinct-llm/include/tokenizer/Tokenizer.hpp:278-285 | a recovered pair cuts its token into two tokens of lower rank |
| `TiktokenTokenizer.RecoveredIsRanked` | modules/instinct-llm/include/tokenizer/Tokenizer.hpp:272-288 | the recovered table has sources below targets and distinct targets |
| `TiktokenTokenizer.VocabIsShuffled` | modules/instinct-llm/include/tokenizer/TiktokenTokenizer.hpp:88-95 | the rebuilt vocabulary maps the rank of every token to the shuffled bytes of that token |
| `TiktokenTokenizer.RebuiltTokenizer` | modules/instinct-llm/include/tokenizer/TiktokenTokenizer.hpp:85-95 | loading an ascending rank table gives a ranked merge table and a vocabulary that spells it |
| `TiktokenTokenizer.ByteShuffle` | modules/instinct-llm/include/tokenizer/TiktokenTokenizer.hpp:98-106 | the shuffle maps every byte to its rank, and fails exactly when a single byte is missing |
| `TiktokenTokenizer.FromTiktokenConfig` | modules/instinct-llm/include/tokenizer/TiktokenTokenizer.hpp:85-108 | construction fails exactly where recovery or a byte lookup throws, otherwise gives the recovered tokenizer |
| `TiktokenTokenizer.Tokenizer.EncodeChunk` | modules/instinct-llm/include/tokenizer/TiktokenTokenizer.hpp:180-186 | bytes are shuffled, then encoded greedily |
| `TiktokenTokenizer.Tokenizer.Decode` | modules/instinct-llm/include/tokenizer/TiktokenTokenizer.hpp:167-177 | words are concatenated and every byte is mapped back through the reversed shuffle |
| `TiktokenTokenizer.Tokenizer.LosslessOn` | modules/instinct-llm/include/tokenizer/TiktokenTokenizer.hpp:167-186 | decode after encode returns every byte string |
| `TiktokenEncoding.BestIsRecovered` | modules/instinct-llm/include/tokenizer/Tokenizer.hpp:272-288 | on the way from the single bytes of any text, the best join joins exactly the two parts that recovery finds for the joined token |
| `TiktokenEncoding.EncodingIsJoining` | modules/instinct-llm/include/tokenizer/TiktokenTokenizer.hpp:85-95 | for every rank table that can be recovered and every text, greedy encoding with the recovered merges gives the ranks of the parts that joining by lowest rank leaves: the merge table loses nothing of the rank table |
| `TiktokenEncoding.TokenEncodesToRank` | modules/instinct-llm/include/tokenizer/TiktokenTokenizer.hpp:180-186 | encoding a token of the rank file gives exactly its rank |
| `TiktokenEncoding.LoadedEncodes` | modules/instinct-llm/include/tokenizer/TiktokenTokenizer.hpp:167-186 | both hold for every tokenizer loaded from a rank file |
| `UnigramTokenizer.CutCharacters` | modules/instinct-transformer/include/tokenizer.hpp:380-389 | characters are cut by the high bits of their first byte, the last one ending with the text |
| `Utf8Text.CutIsCodePoints` | modules/instinct-transformer/include/tokenizer.hpp:32-36 | for every list of code points the cut of their encoding in UTF-8 (section 3 of RFC 3629) has one end per code point, and the k-th piece is the encoding of the k-th code point |
| `UnigramTokenizer.WindowHoldsTokens` | modules/instinct-transformer/include/tokenizer.hpp:413-414 | the window counted in characters never excludes a token whose length is counted in bytes |
| `UnigramTokenizer.ScanWindow` | modules/instinct-transformer/include/tokenizer.hpp:416-437 | the scan keeps the best start seen, the leftmost on ties |
| `UnigramTokenizer.ScanSettles` | modules/instinct-transformer/include/tokenizer.hpp:412-450 | the unknown piece is taken exactly when no token ends at the position, and the new entry is locally best |
| `UnigramTokenizer.CandidateAboveLowest` | modules/instinct-transformer/include/tokenizer.hpp:416-436 | with scores in range every candidate beats the value the search starts from |
| `UnigramTokenizer.TraceBounds` | modules/instinct-transformer/include/tokenizer.hpp:394-397 | no admissible segmentation of the first pos characters scores above trace[pos] |
| `UnigramTokenizer.BackPathReaches` | modules/instinct-transformer/include/tokenizer.hpp:399-406 | the back-pointers spell a segmentation that reaches the recorded score |
| `UnigramTokenizer.BackPathOptimal` | modules/instinct-transformer/include/tokenizer.hpp:394-408 | the backtraced segmentation of the whole text has maximal score |
| `UnigramTokenizer.SolvedUnique` | modules/instinct-transformer/include/tokenizer.hpp:416-449 | scores and back-pointers are determined, the leftmost start winning ties |
| `UnigramTokenizer.SegmentsTile` | modules/instinct-transformer/include/tokenizer.hpp:420-437 | the pieces of a segmentation tile the text, token ids standing for exactly their piece |
| `UnigramTokenizer.Backtrace` | modules/instinct-transformer/include/tokenizer.hpp:399-408 | back-pointers strictly decrease, so the loop ends, and the ids come out in text order |
| `UnigramTokenizer.Tokenizer.FindBest` | modules/instinct-transformer/include/tokenizer.hpp:412-450 | each call appends one locally best entry and keeps back-pointers to the left |
| `UnigramTokenizer.Tokenizer.Tokenize` | modules/instinct-transformer/include/tokenizer.hpp:379-409 | the appended ids are those of a best segmentation, the one the back-pointers spell |
| `UnigramTokenizer.LoadVocabList` | modules/instinct-transformer/include/tokenizer.hpp:322-355 | the loop reads the records of the buffer up to a negative length and maps each word to its last id |
| `UnigramTokenizer.Processor.Load` | modules/instinct-transformer/include/tokenizer.hpp:464-480 | installs the records and their index and returns the size read; no token exceeds the recorded maximal length |
| `UnigramTokenizer.RecordsRoundTrip` | modules/instinct-transformer/include/tokenizer.hpp:322-355 | vocabulary records written as length, bytes and score are read back, with their size, wherever they stand in the buffer |
| `UnigramTokenizer.Processor.DoEncode` | modules/instinct-transformer/include/tokenizer.hpp:485-490 | with the loaded vocabulary the ids are those of a best segmentation that tiles the text |
| `SqlText.EscapeSQLText` | modules/instinct-core/include/tools/StringUtils.hpp:214-249 | only single quotes are changed, by doubling |
| `SqlText.QuotedRoundTrip` | modules/instinct-retrieval/include/store/SQLBuilder.hpp:107-111 | the quoted value lexes as a character literal (section 5.3 of ISO/IEC 9075:1992) back to itself, stopping where it ended, exactly when no quote follows |
| `Strings.JoinWith` | modules/instinct-core/include/tools/StringUtils.hpp:136-146 | parts with the separator between them |
| `SqlBuilder.BuildTermValue` | modules/instinct-retrieval/include/store/SQLBuilder.hpp:88-113 | appends the literal of a value |
| `SqlBuilder.BuildTermsQuery` | modules/instinct-retrieval/include/store/SQLBuilder.hpp:115-125 | appends the membership test with its list of values |
| `SqlBuilder.BuildRangeQuery` | modules/instinct-retrieval/include/store/SQLBuilder.hpp:20-45 | appends one comparison, or two in parentheses, or nothing |
| `SqlRows.RangeEvaluates` | modules/instinct-retrieval/include/store/SQLBuilder.hpp:20-45 | the text of a lower bound selects the rows whose value is at least (above, when exclusive) the bound, that of an upper bound those at most (below) it |
| `SqlRows.TermEvaluates` | modules/instinct-retrieval/include/store/SQLBuilder.hpp:127-132 | the text of an equality selects the rows that hold the printed value |
| `SqlRows.TermsEvaluates` | modules/instinct-retrieval/include/store/SQLBuilder.hpp:115-125 | the text of a membership test selects the rows that hold one of the values |
| `SqlBuilder.BuildSearchQuery` | modules/instinct-retrieval/include/store/SQLBuilder.hpp:74-86 | appends exactly the tokens of the query tree |
| `SqlBuilder.BuildBoolQuery` | modules/instinct-retrieval/include/store/SQLBuilder.hpp:134-181 | appends exactly the tokens of the three clauses joined by AND |
| `SqlConditions.PrintedReads` | modules/instinct-retrieval/include/store/SQLBuilder.hpp:134-181 | read with NOT over AND over OR (section 8.12 of ISO/IEC 9075:1992), the text of every well-formed tree is the conjunction of its factors |
| `SqlNesting.OrInParentheses` | modules/instinct-retrieval/include/store/SQLBuilder.hpp:153-158 | in the text of every tree more parentheses are open than closed before any OR, and all are closed at its end |
| `SqlConditions.PrintedAlike` | modules/instinct-retrieval/include/store/SQLBuilder.hpp:88-113 | two values of one kind print alike exactly when they are equal, except that all 64-bit integers print as the unset double |
| `SqlSyntax.ReadableExactly` | modules/instinct-retrieval/include/store/SQLBuilder.hpp:20-86 | the text can be read as a condition exactly when no clause and no range is empty |
| `SqlMeaning.FaithfulReads` | modules/instinct-retrieval/include/store/SQLBuilder.hpp:164-180 | a tree that passes the check reads as what it means, and behind a NOT as the opposite, under every assignment |
| `SqlMeaning.FaithfulKeepsMeaning` | modules/instinct-retrieval/include/store/SQLBuilder.hpp:74-86 | text and tree have the same truth value under every assignment to the comparisons |
| `SqlMeaning.Separate` | modules/instinct-retrieval/include/store/SQLBuilder.hpp:164-180 | a tree that fails the check has an assignment under which text and tree disagree |
| `SqlMeaning.MeaningKeptExactly` | modules/instinct-retrieval/include/store/SQLBuilder.hpp:134-181 | for every tree without a repeated comparison, meaning is kept if and only if no part is empty and no NOT (counted in pairs) stands before several clauses |
| `SqlMeaning.NotOverTwoClauses` | modules/instinct-retrieval/include/store/SQLBuilder.hpp:174-177 | a concrete tree whose text negates only the first of two clauses |
| `SqlLexer.ComparisonLexes` | modules/instinct-retrieval/include/store/SQLBuilder.hpp:115-132 | a printed comparison is one lexical unit that ends with its value or list, whatever quotes a string value holds |
| `SqlLexer.TextLexes` | modules/instinct-retrieval/include/store/SQLBuilder.hpp:74-86 | for plain names and numbers and arbitrary strings the emitted text lexes back to exactly the printed tokens |
| `SqlLexer.TextMeaningExactly` | modules/instinct-retrieval/include/store/SQLBuilder.hpp:74-181 | the emitted text, lexed and read by precedence, means what the tree means under every assignment if and only if no part is empty and no NOT (counted in pairs) stands before several clauses |
| `SqlRows.TextSelectsRows` | modules/instinct-retrieval/include/store/SQLBuilder.hpp:20-181 | the emitted text, lexed and evaluated against a row, selects exactly the rows that the tree asks for |
| `SqlRows.LongKeptExactly` | modules/instinct-retrieval/include/store/SQLBuilder.hpp:101-103 | a 64-bit integer is printed from the unset double field: its comparison selects the right rows if and only if the integer is 0 |
| `SplitWindows.ScanTiles` | modules/instinct-llm/include/document/BaseTextSplitter.hpp:109-133 | windows cover the splits in order: starts never fall, ends rise, no gap, the last ends at the last split; a window closes only when full and shares the longest tail that fits the overlap |
| `SplitWindows.ScanWithin` | modules/instinct-llm/include/document/BaseTextSplitter.hpp:112-128 | no window is longer than the chunk size plus one separator |
| `SplitWindows.ChunkSizeExactly` | modules/instinct-llm/include/document/BaseTextSplitter.hpp:98-103 | the documented chunk size, read as "at most", is kept for all non-empty splits if and only if the separator is empty, the overlap is zero or the chunk size is at most one |
| `SplitWindows.BelowChunkExactly` | modules/instinct-llm/include/document/BaseTextSplitter.hpp:98-103 | the documented "less than" is kept for all shorter splits if and only if the chunk size is at most one, or two splits and a separator never fit and the overlap is zero |
| `SplitWindows.Overruns` | modules/instinct-llm/include/document/BaseTextSplitter.hpp:121-128 | two splits whose document exceeds the chunk size by a whole separator |
| `TextSplitter.JoinDocs` | modules/instinct-llm/include/document/BaseTextSplitter.hpp:135-148 | the join of the splits; when trimmed, only blanks are cut off its ends and none is left there |
| `TextSplitter.DropSplits` | modules/instinct-llm/include/document/BaseTextSplitter.hpp:121-124 | the trimming loop keeps the running total equal to the length of the window |
| `TextSplitter.MergeSplits` | modules/instinct-llm/include/document/BaseTextSplitter.hpp:104-133 | appends the documents of the windows, leaving out empty ones |
| `TextSplitter.DocumentSizes` | modules/instinct-llm/include/document/BaseTextSplitter.hpp:104-148 | every document is at most the chunk size plus one separator, and within the chunk size when sizes allow |
| `TextSplitter.MergedConcat` | modules/instinct-llm/include/document/BaseTextSplitter.hpp:104-133 | without overlap and trimming the documents of non-empty splits concatenate to the splits |
| `TextSplitter.ChooseSeparator` | modules/instinct-llm/include/document/RecursiveCharacterTextSplitter.hpp:66-82 | the first separator that is empty or occurs in the text is chosen; the empty one uses up the list, any other only itself; when none applies the last one stands in and the list stays |
| `TextSplitter.ChosenShrinks` | modules/instinct-llm/include/document/RecursiveCharacterTextSplitter.hpp:66-82 | the list shrinks exactly when some separator applies, and the empty separator stays in it until it is used |
| `TextSplitter.SplitText` | modules/instinct-llm/include/document/RecursiveCharacterTextSplitter.hpp:65-110 | the recursion over the shared list, on a stack with room for a given number of nested calls |
| `TextSplitter.EmptySeparatorEnds` | modules/instinct-llm/include/document/RecursiveCharacterTextSplitter.hpp:65-110 | with the empty separator in the list every text is split with at most as many nested calls as separators, however the text is cut and whether or not separators are kept |
| `TextSplitter.StuckNeverEnds` | modules/instinct-llm/include/document/RecursiveCharacterTextSplitter.hpp:91-102 | a text too long that contains none of the separators makes the same call again, so that no depth is enough |
| `TextSplitter.DepthExactly` | modules/instinct-llm/include/document/RecursiveCharacterTextSplitter.hpp:65-110 | for every text the recursion ends if and only if it ends within as many nested calls as there are separators |
| `TextSplitter.EndsOnEveryText` | modules/instinct-llm/include/document/RecursiveCharacterTextSplitter.hpp:65-110 | a list that leaves some character unused splits every text in the end if and only if it contains the empty separator |
| `TextSplitter.ShortListEnds` | modules/instinct-llm/include/document/RecursiveCharacterTextSplitter.hpp:65-110 | the same for every list whose separators together have fewer than 55296 characters |
| `TextSplitter.SplitIsLossless` | modules/instinct-llm/include/document/RecursiveCharacterTextSplitter.hpp:65-110 | with kept separators, no overlap and no trimming the chunks concatenate to the text |
| `TextSplitter.ChunksOccur` | modules/instinct-llm/include/document/RecursiveCharacterTextSplitter.hpp:65-110 | with or without kept separators, overlap and trimming, every chunk is a part of the text |
| `BatchProtocol.StatusExactly` | modules/instinct-assistant/include/assistant/v2/task_handler/FileObjectTaskHandler.hpp:192-204 | for every list of files the counts lead to cancelled if any file is, else failed if any is, else completed if all are, else no status |
| `BatchProtocol.VerdictOfCounts` | modules/instinct-assistant/include/assistant/v2/task_handler/FileObjectTaskHandler.hpp:192-204 | once all files are done the counts lead to failed if any file failed, otherwise completed |
| `BatchProtocol.CountZero` | modules/instinct-assistant/include/assistant/v2/data_mapper/VectorStoreFileDataMapper.hpp:179-183 | a status counts zero exactly when no file has it |
| `BatchProtocol.StepKeepsInv` | modules/instinct-assistant/include/assistant/v2/task_handler/FileObjectTaskHandler.hpp:73-211 | every step of every handler keeps the protocol invariant |
| `BatchProtocol.WritesAgree` | modules/instinct-assistant/include/assistant/v2/task_handler/FileObjectTaskHandler.hpp:187-210 | in every interleaving all writes to the batch carry the final verdict and happen only when all files are done |
| `BatchProtocol.BatchIsClosed` | modules/instinct-assistant/include/assistant/v2/task_handler/FileObjectTaskHandler.hpp:187-210 | when all handlers have returned at least one has closed the batch, with the verdict of the final counts |
| `BatchProtocol.OutcomesDecide` | modules/instinct-assistant/include/assistant/v2/task_handler/FileObjectTaskHandler.hpp:120-204 | in every finished run a file is completed exactly when its work succeeded, and the batch is failed exactly when some work failed |
| `BatchProtocol.StepsRunOut` | modules/instinct-assistant/include/assistant/v2/task_handler/FileObjectTaskHandler.hpp:73-211 | in every interleaving the handlers together take at most seven steps per file, and all have returned exactly when they have taken that many |
| `BatchProtocol.RunCompletes` | modules/instinct-assistant/include/assistant/v2/task_handler/FileObjectTaskHandler.hpp:73-211 | every run can go on until all handlers have returned |
| `TaskScheduler.HandleTask` | modules/instinct-data/include/task_scheduler/ThreadPoolTaskScheduler.hpp:88-123 | the handler loop makes exactly the reports of the handlers' behaviours |
| `TaskScheduler.ReportsExact` | modules/instinct-data/include/task_scheduler/ThreadPoolTaskScheduler.hpp:88-123 | one handled or failed report per handler that accepted or threw, none for the others, an unhandled report exactly when all rejected |
| `TaskScheduler.StepConserves` | modules/instinct-data/include/task_scheduler/ThreadPoolTaskScheduler.hpp:38-85 | no step loses or duplicates a task, whichever calls of Start, Terminate and Drain are under way |
| `TaskScheduler.TaskInOnePlace` | modules/instinct-data/include/task_scheduler/ThreadPoolTaskScheduler.hpp:38-85 | in every run, with any number of Start, Terminate and Drain calls in any order, each task is in exactly one of queued, in flight, processed, drained |
| `TaskScheduler.NothingInFlight` | modules/instinct-data/include/task_scheduler/ThreadPoolTaskScheduler.hpp:73-85 | after a Terminate has joined the consumers and until Start is called again, nothing is in flight, processed or reported |
| `TaskScheduler.ProcessedIsReported` | modules/instinct-data/include/task_scheduler/ThreadPoolTaskScheduler.hpp:88-123 | in every run the callbacks have seen of a processed task one report per handler that accepted or threw, counted against what the handlers did, and an unhandled one exactly when all handlers rejected; every registered handler was asked |
| `TaskScheduler.UntouchedIsUnreported` | modules/instinct-data/include/task_scheduler/ThreadPoolTaskScheduler.hpp:38-51 | nothing is reported on a task that waits or was drained |
| `TaskScheduler.TerminateAccountsForAll` | modules/instinct-data/include/task_scheduler/InProcessTaskQueue.hpp:30-41 | when a Terminate returns, every task enqueued so far was processed or handed back by a draining call, exactly once |
| `TaskScheduler.NoneExitsEarly` | modules/instinct-data/include/task_scheduler/ThreadPoolTaskScheduler.hpp:38-51 | in every run no consumer exits before a Terminate has lowered the flag |
| `TaskScheduler.QueuedCanBeProcessed` | modules/instinct-data/include/task_scheduler/ThreadPoolTaskScheduler.hpp:38-51 | while the scheduler runs with a consumer left, every queued task can still be processed |
| `TaskScheduler.TerminateCanReturn` | modules/instinct-data/include/task_scheduler/ThreadPoolTaskScheduler.hpp:73-85 | however a run has gone, a Terminate that was called can return |
| `LineFraming.Find` | modules/instinct-core/include/tools/http/CURLHttpClient.hpp:127 | the leftmost occurrence of the breaker |
| `LineFraming.StreamBuffer.Write` | modules/instinct-core/include/tools/http/CURLHttpClient.hpp:123-136 | the callback emits the complete lines of buffer and chunk and keeps the rest |
| `LineFraming.StreamBuffer.Finish` | modules/instinct-core/include/tools/http/CURLHttpClient.hpp:152-155 | a rest that is not blank is emitted as a last line |
| `LineFraming.FrameExtends` | modules/instinct-core/include/tools/http/CURLHttpClient.hpp:125-134 | framing a part and then its rest with the following part is framing the whole |
| `LineFraming.Receive` | modules/instinct-core/include/tools/http/CURLHttpClient.hpp:123-136 | however the bytes are cut into chunks, lines and rest are those of the whole stream |
| `LineFraming.FramesAreClean` | modules/instinct-core/include/tools/http/CURLHttpClient.hpp:126-133 | no line and no rest contains the breaker |
| `LineFraming.FrameRejoins` | modules/instinct-core/include/tools/http/CURLHttpClient.hpp:126-133 | lines, breakers and rest give back the data |
| `SummaryChain.Collect` | modules/instinct-retrieval/include/chain/SummaryChain.hpp:103-117 | the subscriber emits exactly the batches |
| `SummaryChain.BatchesPartition` | modules/instinct-retrieval/include/chain/SummaryChain.hpp:103-117 | batches are non-empty, in order, complete, and below the limit when they hold several texts |
| `SummaryChain.BatchesFilled` | modules/instinct-retrieval/include/chain/SummaryChain.hpp:104-107 | a batch is closed only when the next text would reach the limit |
| `SummaryChain.RoundShrinks` | modules/instinct-retrieval/include/chain/SummaryChain.hpp:97-123 | with summaries of which two fit below the limit, the number of summaries falls from any count above one |
| `SummaryChain.RoundCountExactly` | modules/instinct-retrieval/include/chain/SummaryChain.hpp:97-123 | for every chain a round never has more summaries than texts, and as many exactly when no two neighbouring mapped texts fit below the limit |
| `SummaryChain.CreateSummary` | modules/instinct-retrieval/include/chain/SummaryChain.hpp:90-134 | the recursion over rounds, with room for a given number of nested calls |
| `SummaryChain.SummaryIsAnswer` | modules/instinct-retrieval/include/chain/SummaryChain.hpp:118-126 | the summary is what the chain answers to the mapped texts of the last round, all in one batch, and no earlier round ended with one summary |
| `SummaryChain.OneText` | modules/instinct-retrieval/include/chain/SummaryChain.hpp:97-126 | one text is summarised twice: alone, and as the only batch |
| `SummaryChain.BoundedEnds` | modules/instinct-retrieval/include/chain/SummaryChain.hpp:122-131 | with summaries of which two fit below the limit the recursion ends, and fails exactly on an empty source |
| `SummaryChain.EndlessExactly` | modules/instinct-retrieval/include/chain/SummaryChain.hpp:122-131 | for every chain and source the recursion goes on forever if and only if from some round on there are several summaries of which no two neighbours fit below the limit |
| `SummaryChain.EndsExactly` | modules/instinct-retrieval/include/chain/SummaryChain.hpp:122-131 | for summaries of one size the recursion ends if and only if there is at most one text or two summaries fit below the limit |
| `SnowflakeIds.PackIsSum` | modules/instinct-core/include/tools/SnowflakeIDGenerator.hpp:101-104 | the shifted fields share no bit, so or-ing them adds them, and the id stays below 2^63 |
| `SnowflakeIds.PackDecodes` | modules/instinct-core/include/tools/SnowflakeIDGenerator.hpp:101-104 | the fields can be read back from the id |
| `SnowflakeIds.PackInjective` | modules/instinct-core/include/tools/SnowflakeIDGenerator.hpp:101-104 | equal ids have equal fields |
| `SnowflakeIds.IdsDistinct` | modules/instinct-core/include/tools/SnowflakeIDGenerator.hpp:81-105 | all ids of a run are distinct, even when worker and datacenter change in between |
| `SnowflakeIds.IdsIncrease` | modules/instinct-core/include/tools/SnowflakeIDGenerator.hpp:81-105 | ids strictly increase while worker and datacenter are fixed |
| `SnowflakeIds.GeneratorsApart` | modules/instinct-core/include/tools/SnowflakeIDGenerator.hpp:101-104 | generators that differ in worker or datacenter never issue the same id |
| `SnowflakeIds.Generator.Init` | modules/instinct-core/include/tools/SnowflakeIDGenerator.hpp:67-79 | out-of-range ids are rejected and change nothing |
| `SnowflakeIds.NextSequence` | modules/instinct-core/include/tools/SnowflakeIDGenerator.hpp:88 | the masked increment counts to 4095 and wraps to 0 |
| `SnowflakeIds.Generator.NextId` | modules/instinct-core/include/tools/SnowflakeIDGenerator.hpp:81-105 | each call issues a stamp later than all before it: the first reading with sequence 0, the next sequence number of the same millisecond, or the first later reading when the numbers are used up |
| `SnowflakeIds.Generator.WaitNextMillis` | modules/instinct-core/include/tools/SnowflakeIDGenerator.hpp:114-122 | returns the first reading after the given time |
| `TensorFile.WrittenIsSection` | modules/instinct-transformer/include/model.hpp:165-251 | tensors written byte by byte, with their padding and data, form a well-formed section |
| `TensorFile.SectionScans` | modules/instinct-transformer/include/model.hpp:212-251 | scanning a well-formed section finds exactly its records and ends at the file size |
| `TensorFile.IndexIsFirst` | modules/instinct-transformer/include/model.hpp:226 | each name is indexed at its first record, and no other name is |
| `TensorFile.IndexFindsTensor` | modules/instinct-transformer/include/model.hpp:165-210 | a lookup through the index finds the shape, type and data offset of the sequential scan |
| `TensorFile.FitsExactly` | modules/instinct-transformer/include/model.hpp:183-203 | a stored shape fits a tensor exactly when type and sizes are the same and the number of dimensions is the reported one |
| `TensorFile.ModelLoader.PlacedExactly` | modules/instinct-transformer/include/model.hpp:165-210 | in a loaded section a tensor is placed on the data of the first record of its name exactly when its type and sizes are the written ones |
| `TensorFile.EntryInFile` | modules/instinct-transformer/include/model.hpp:240-249 | data regions are 16-aligned and inside the file |
| `TensorFile.RegionsDisjoint` | modules/instinct-transformer/include/model.hpp:244-249 | no two data regions share a byte |
| `TensorFile.ModelLoader.LoadAllTensors` | modules/instinct-transformer/include/model.hpp:212-251 | builds the index of the sequential scan and leaves the cursor at its end |
| `TensorFile.ModelLoader.ReadTensor` | modules/instinct-transformer/include/model.hpp:165-210 | places the tensor on its data exactly when the stored name, shape and type match |

## Left out

- RegexTokenizer.Tokenizer.Train: counts are unbounded integers, so the wrap-around of a pair count at 2^31 is not modelled.
- UnigramTokenizer.Processor.Load: the four bytes of a score become a number through a parameter, because rounding is not modelled.
- SqlBuilder.BuildTermValue: a number other than a 64-bit integer is its printed text; how a digit sequence comes about is not modelled.
- SqlBuilder.BuildTermsQuery: a membership test over an empty list is one comparison like any other, although databases reject it.
- TextSplitter.SplitText: gives no size bound for its chunks, because a piece that comes after the separators are used up is kept whole.
- TextSplitter.EndsOnEveryText: leaves open the lists of separators that use every character there is.
- SummaryChain.CreateSummary: takes the chain as a function, so a model that answers the same texts differently is not covered.
- SnowflakeIds.Generator.NextId: models sequential calls with the clock readings as input; the default lock of the source does nothing.
- Special tokens in the encoder: the option that selects some of them always throws.
- Rounding of scores, cost of the algorithms, and 64-bit wrap-around of lengths; negative chunk sizes, which the source turns into huge unsigned numbers.
- Cancellation of a batch and the background scan for stale batches: their check and their update are separate calls, and no agreement between writes holds.
- Order of tasks in the queue: the queue gives out any task it holds.
- Two threads that join the same consumer, or change the lists of consumers or handlers while they are read: undefined in C++; here both callers wait until all consumers have exited, and a pass over the handlers covers those registered when the task was taken up.
- SqlRows.TextSelectsRows: has two truth values: rows hold no NULL, and a comparison with NULL holds for no row.
- ORDER BY, LIMIT and OFFSET clauses, table and column names, which are printed as they are.
- HTTP, database stores, prompts, model clients, document ingestion and tensor arithmetic: plumbing or foreign code.
- Toolkits, lifecycle ordering, connection pools and JSON contexts: they would only add easy members.
