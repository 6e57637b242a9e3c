# Streamed chat messages: a Dafny model

This project models the part of llama-server that turns model output into streamed chat
messages, and the self-contained text algorithms beside it, and proves what they promise.

- `JsonText`, `QuoteNormalizer`, `NormalizerLaws`: JSON escaping, the brace counter, and the
  rewriting of Python literals to JSON. On every input, words, brackets and strings survive the
  rewriting, and the literals get their JSON spelling. It is idempotent. It only extends its
  output when the input grows, except in two families of inputs that are described exactly.
- `ChatDiff`, `ChatDiffLaws`: the differences between two versions of a message, the client that
  applies them, and what both do when the new message does not extend the old one.
- `PegMapper`, `MapperPrinting`, `Streaming`: the tool-call mapper as a class that consumes
  tagged nodes, proved equal to a step function, to a plain printer on whole messages, and
  growing under every cut of the node stream.
- `ServerRun`, `ServerIds`: the server's state over a run of partial parses. `StreamDelivers` and
  `EndToEnd` join the mapper, the id cache, the differences and the client.
- `Delivery`: runs in which the arguments of the last call may be printed anew. They throw
  exactly on a contradiction, and they reach the client exactly when nothing is taken back.
- `JsonValues`: JSON values and their plain printed form.
- `AstTree`, `TreeVisitor`, `GemmaPrinter`, `MinimaxPrinter`, `MinimaxUnions`: the mappers that
  print whole trees. A later parse extends the tree along its rightmost spine; it may replace
  the empty rule that stands for a value not yet begun, drop rules begun inside what might have
  been a delimiter, and, under a union schema, give up the last unfinished value.
- `Permute`: the memoised permutation of parsers under ordered choice.
- `Segments`, `DiffSplit`, `DiffSplitLaws`, `DiffSplitShared`: marker lexing, and the two-ended
  difference with the exact condition under which it conserves its inputs and with what it must
  take out of them.
- `MsgSpans`, `ToolResultOrder`, `ToolResultOrderLaws`, `GemmaTurns`: splitting tokens into role
  spans, reordering tool results, and folding calls, results and answers into turns.
- `Base64`, `Base64Laws`, `CsvRow`, `LineBreaker`: encoding against the bit streams of section 4 of
  RFC 4648, reading rows written by the rules of section 2 of RFC 4180 and all others, and greedy
  line filling.

Code that the source writes as loops over mutable state is a method or a class here, and its
`ensures` ties it to a function or a predicate. The lemmas then prove what that function or
predicate promises.

## What does not hold

Some properties one would expect are false of the code. The code is modelled as it is, each
property with an input that breaks it and the exact condition under which it holds.

- **Growing values.** A Python-style value that grows may make the normaliser take back what it
  emitted. An apostrophe may follow a cut-off backslash in a single-quoted string (`'\` then
  `'\'`), or a word may stop being a literal (`T` then `Tx`). `string_diff` then throws.
  `NormalizerLaws.MonotoneIff` gives the exact condition and `ServerRun.StreamDelivers` carries
  it to whole runs: the server throws if and only if two successive cuts meet it.
- **Two-ended difference.** `calculate_diff_split` may use one segment twice, as in `<a><b>`
  against `<a><b><b>`. `DiffSplitLaws.ConservesIff` describes all such pairs.
- **Union schemas.** For a minimax-m3 argument that may be an object or a number, the text
  right after its tag is parsed as an object and printed as `{`, and the first digit of a number
  makes the server throw (`MinimaxUnions.UnionThrows`). `MinimaxUnions.StepIff` gives the exact
  condition on the two trees: what is printed of the value given up must start what is printed of
  the value that stands in its place, and of what follows it. An object, an array and a string
  never replace one another (`MinimaxUnions.KindsClash`).
- **Late tool results.** A tool message may directly follow a built gemma4 turn.
  `GemmaTurns.ToolAfterTurnIff` says for which inputs, and `GemmaTurns.LateResult` is an instance.
- **Overlapping skip regions.** When a skip region starts inside the one before it, the iterator
  of `split` never passes it, and it and all later regions are ignored. All regions act exactly
  when none starts inside the one before it (`MsgSpans.AllActIff`), and spans keep out of every region
  exactly when the regions that act cover the ignored ones (`MsgSpans.KeptOutIff`).
  `MsgSpans.IgnoredSkip` is a span that starts in an ignored region.
- **Escapes in double quotes.** The two characters `\'` inside a double-quoted Python string are
  copied, and JSON has no such escape (`NormalizerLaws.EscapeWitness`). The output has only JSON
  escapes exactly when the input has, apart from apostrophes escaped in single-quoted strings
  (`NormalizerLaws.EscapesIff`).
- **Ids cut off from their names.** A parse that ends between the name and the id of a call makes
  the server generate an id, and the id that the model then writes is lost.
  `ServerRun.ParsedIdIff` gives the exact condition and `ServerRun.LostId` is an instance.

The code and its comment disagree in one place. The comment in `from_ast` says that a call that
was started but never named is flushed, yet the branch asks for a non-empty name. A named call is
never pending, as every step keeps `PegMapper.Valid`, so the branch is dead.

## Model

| member | source | states |
|---|---|---|
| JsonText.JsonBraceDepth | llama-server/common/chat-peg-parser.cpp:42-68 | the loop over flags returns the depth of the string/escape automaton that all closing and structure lemmas use |
| JsonText.UnescapeEscape | llama-server/common/chat-peg-parser.cpp:71-77 | reading back an escaped text, by section 7 of RFC 8259, gives the text, for every text |
| JsonText.EscapeStaysInside | llama-server/common/chat-peg-parser.cpp:71-77 | escaped text inside an open string never closes it, leaves no escape pending and does not move the depth |
| JsonText.DumpIsNeutral | llama-server/common/chat-peg-parser.cpp:394 | a dumped key leaves depth, string and escape state as they were |
| JsonText.PlainIsKept | llama-server/common/chat-peg-parser.cpp:71-77 | text without quotes, backslashes and control characters is not escaped at all |
| JsonText.EscapesAre | llama-server/common/chat-peg-parser.cpp:71-77 | the short escapes of section 7 of RFC 8259 are used where they exist, and four lower-case digits otherwise |
| QuoteNormalizer.NormalizeQuotesToJson | llama-server/common/chat-peg-parser.cpp:84-186 | the loop with its two quote flags, escapes and literal lookahead computes `NormalizeText`, the function the laws below are about |
| NormalizerLaws.KeepsStructure | llama-server/common/chat-peg-parser.cpp:84-186 | on every input, a JSON reader of the output sees the words, brackets, string borders and string contents that a Python reader of the input sees, with `True`, `False`, `None` and their beginnings spelled as the same number of characters of `true`, `false`, `null` and every other word unchanged, and ends at the same brace depth and in the same string and escape state |
| NormalizerLaws.WordSpelling | llama-server/common/chat-peg-parser.cpp:157-179 | a text of word characters normalises to its JSON spelling, given as a relation on the words and their first characters |
| NormalizerLaws.Literals | llama-server/common/chat-peg-parser.cpp:157-179 | the first n characters of `True`, `False` and `None` normalise to the first n of `true`, `false` and `null` |
| NormalizerLaws.EscapesIff | llama-server/common/chat-peg-parser.cpp:96-135 | the output has only escapes of section 7 of RFC 8259 if and only if the input has only such escapes and apostrophes escaped in single-quoted strings |
| NormalizerLaws.EscapeWitness | llama-server/common/chat-peg-parser.cpp:121-127 | a double-quoted `\'` is copied into the output, which is then no JSON |
| NormalizerLaws.DepthIsBraces | llama-server/common/chat-peg-parser.cpp:42-68 | the brace counter counts exactly the braces outside strings |
| NormalizerLaws.Idempotent | llama-server/common/chat-peg-parser.cpp:84-186 | normalising twice is normalising once, dangling quotes and backslashes included |
| NormalizerLaws.MonotoneIff | llama-server/common/chat-peg-parser.cpp:97-179 | the output of `t` is a prefix of the output of `t + u` if and only if no apostrophe follows a backslash pending in a single-quoted string and a pending literal stays a prefix of `True`, `False` or `None`; otherwise the two outputs contradict each other |
| NormalizerLaws.GrowthWitnesses | llama-server/common/chat-peg-parser.cpp:97-179 | both conditions are needed: `'\` then `'\'`, and `T` then `Tx` |
| ChatDiff.StringDiffText | llama-server/common/chat.cpp:56-69 | the added text, nothing when the new text is a prefix of the old or empty, and an error when they contradict |
| ChatDiff.ComputeMsgDiffs | llama-server/common/chat.cpp:266-332 | the vector built from reasoning, content, last known call and new calls, and the cases that throw |
| ChatDiff.DiffsExistIff | llama-server/common/chat.cpp:266-332 | nothing is thrown if and only if the texts are comparable, no call vanished, and the last known call has a compatible name and comparable arguments |
| ChatDiff.PatchIff | llama-server/common/chat.cpp:266-332 | the differences exist and rebuild the new message on the client if and only if the new message extends the old one |
| ChatDiff.RunRebuilds | llama-server/common/chat.cpp:266-332 | over any run of extending messages nothing is thrown and all deltas together give the last message |
| ChatDiffLaws.ClientKeepsLonger | llama-server/common/chat.cpp:56-69 | for any two messages whose differences exist, the client ends with the longer content, the longer reasoning and the longer arguments of the last known call: what got shorter is neither sent again nor taken back |
| ChatDiffLaws.DeltasOfCall | llama-server/common/chat.cpp:292-329 | all that is sent of one call: a new call whole and once, of the last known one the added arguments, with name and id exactly when one of them changed, and nothing of earlier ones |
| ChatDiffLaws.DiffsAreOrdered | llama-server/common/chat.cpp:275-329 | the reasoning comes before the content and the content before the calls, which come by ascending index; each difference says one thing |
| ChatDiffLaws.ErrorIs | llama-server/common/chat.cpp:56-69 | which error is thrown in each case, with the texts checked before the calls and names before arguments |
| PegMapper.Mapper.MapName | llama-server/common/chat-peg-parser.cpp:358-373 | naming moves the pending call to the results with its buffered arguments, and later nodes then write to it there |
| PegMapper.Mapper.MapKey | llama-server/common/chat-peg-parser.cpp:388-401 | the key is appended to the argument target after an opening brace or a comma |
| PegMapper.Mapper.MapValue | llama-server/common/chat-peg-parser.cpp:403-424 | string values are escaped behind one opening quote, other values are normalised |
| PegMapper.Mapper.MapClose | llama-server/common/chat-peg-parser.cpp:433-455 | closing adds the pending quote and one brace per open level, and drops a nameless call |
| PegMapper.Mapper.Map | llama-server/common/chat-peg-parser.cpp:315-456 | one node takes the object's whole state to `Step` of its old state, and the invariant is kept |
| PegMapper.Mapper.FromAst | llama-server/common/chat-peg-parser.cpp:284-313 | a whole node list gives the message of the run, with blank reasoning dropped; the flush branch is unreachable |
| PegMapper.TrimIs | llama-server/common/chat-peg-parser.cpp:12-38 | trimming takes all spaces from the end and at most one from the start, which it takes exactly when there is one |
| PegMapper.SpacesAre | llama-server/common/chat-peg-parser.cpp:12-34 | the six space characters of the C locale |
| PegMapper.UnquoteIs | llama-server/common/chat-peg-parser.cpp:350-356 | an id loses its quotes if and only if it has one at each end |
| PegMapper.FinishIs | llama-server/common/chat-peg-parser.cpp:300-312 | reasoning is dropped if and only if it is blank, and nothing else changes |
| MapperPrinting.MapperRefinesPrinter | llama-server/common/chat-peg-parser.cpp:315-456 | for every well-formed message the mapper's result is that of a plain printer: content, reasoning, and `{"key":value,...}` for each call, whether its name, id and arguments come in one order or another |
| MapperPrinting.MapperPrintsLiterally | llama-server/common/chat-peg-parser.cpp:315-456 | when keys, names and ids have no spaces or quotes at their borders, they appear in the message exactly as they were written, with the contents and the reasoning concatenated in order |
| MapperPrinting.NamelessIsDropped | llama-server/common/chat-peg-parser.cpp:433-455 | a call that is closed without a name leaves no trace in the message |
| MapperPrinting.PiecesJoin | llama-server/common/chat-peg-parser.cpp:406-417 | a string value reported in two pieces gives the state of one reported at once |
| MapperPrinting.PrintedIsClosed | llama-server/common/chat-peg-parser.cpp:433-447 | printed arguments end with depth 0, no open string and no pending escape |
| Streaming.StepGrows | llama-server/common/chat-peg-parser.cpp:315-456 | one more node never changes what the message already has, it only extends it |
| Streaming.CutsGrow | llama-server/common/chat-peg-parser.cpp:315-456 | for any two cuts of a node stream, the later message extends the earlier one when the cut is safe and contradicts it otherwise |
| Streaming.WellFormedIsDisciplined | llama-server/common/chat-peg-parser.cpp:315-456 | the node streams of well-formed messages, with the parts of a call in any order, meet the conditions of the streaming lemmas |
| ServerRun.TaskState.SetToolCallIds | llama-server/common/chat.h:107-119 | the cache is filled from the parsed or generated ids, and every call gets the id cached for its index |
| ServerRun.TaskState.UpdateChatMsg | llama-server/tools/server/server-task.cpp:162-181 | one partial parse takes the server's whole state and the deltas to `Update` of the old state; an empty message changes nothing |
| ServerRun.IdsAreStable | llama-server/common/chat.h:107-119 | over any run, thrown or not, an id once cached for an index stays, and the last message carries the cached ids |
| ServerRun.IdIsFirstSeen | llama-server/common/chat.h:107-119 | the id a call ends with is settled by the first parse that has the call: its own id, or a generated one when it has none yet |
| ServerRun.ParsedIdIff | llama-server/common/chat.h:107-119 | a call ends with the parsed id if and only if the first parse that has the call has the id |
| ServerRun.LostId | llama-server/common/chat.h:107-119 | a parse with the name alone, then one with the id, ends with the generated id |
| ServerIds.GeneratedInOrder | llama-server/common/chat.h:107-119 | over any run, a call without an id when first seen ends with the generated id whose number is the count of such calls before it |
| ServerIds.GeneratedOnce | llama-server/common/chat.h:107-119 | with a generator that never repeats itself, no two calls share a generated id |
| ServerIds.EmptyParsesAreIdle | llama-server/tools/server/server-task.cpp:174-177 | leaving the empty parses out of a run changes neither the server nor what is sent |
| Delivery.RunIff | llama-server/tools/server/server-task.cpp:162-181 | when the last call's arguments may change freely from parse to parse, the server throws if and only if some two successive ones contradict each other, and the client ends with the server's message if and only if each only extends the one before |
| ServerRun.StreamDelivers | llama-server/tools/server/server-task.cpp:162-181 | over the parses at any successive cuts of any disciplined stream, each with any nodes that change nothing, the server throws if and only if some cut is unsafe, and otherwise the client holds the server's message, which is the last parse with the cached ids |
| ServerRun.EndToEnd | llama-server/tools/server/server-chat.cpp:607-635 | over any safe stream of a well-formed message that reaches its end, cut anywhere on the way, nothing is thrown and the client holds exactly the plainly printed message, also when its tagged arguments are inside a node whose text grows |
| ServerRun.WrapperIsIdle | llama-server/common/chat-peg-parser.cpp:375-382 | argument text that does not start an object changes nothing, however much of it there is |
| PegMapper.BusyRun | llama-server/common/chat-peg-parser.cpp:315-456 | leaving out all nodes that change nothing gives the same state |
| AstTree.FindInCut | llama-server/common/peg-parser.cpp:137-151 | what the depth-limited search finds in a cut tree it finds in the full tree, at the same place |
| AstTree.FindIsFirst | llama-server/common/peg-parser.cpp:137-151 | the search finds the first node in reading order, no deeper than the limit, that has the tag, and nothing if and only if there is none |
| TreeVisitor.VisitForest | llama-server/common/chat-peg-parser.cpp:1057-1093 | a later parse gives a message that extends the earlier one's, for any call printer that respects cuts, also when rules begun in a possible delimiter went away |
| TreeVisitor.MappedIs | llama-server/common/chat-peg-parser.cpp:1057-1093 | for every forest the content is the concatenation in order of the texts of the content nodes under no reasoning, content or tool node, the reasoning likewise, and the calls are the printed ones of the outermost tool nodes in order |
| TreeVisitor.DelimiterIsDropped | llama-server/common/peg-parser.cpp:661-708 | content that stopped at a possible delimiter and then went on is such a later parse |
| AstTree.PlaceholderIsCut | llama-server/common/peg-parser.cpp:328-361 | before a value that is not a string, the empty string rule is a cut of the value |
| TreeVisitor.TreesDeliver | llama-server/common/chat-peg-parser.cpp:956-960 | over any stream of growing forests nothing is thrown and the client holds the server's message |
| GemmaPrinter.JsonPrefix | llama-server/common/chat-peg-parser.cpp:962-1055 | the JSON of a tree cut along its rightmost spine, empty placeholders included, is a prefix of the JSON of the full tree |
| GemmaPrinter.JsonNeutral | llama-server/common/chat-peg-parser.cpp:962-1055 | a complete tree prints with depth 0 and no open string |
| GemmaPrinter.JsonPrintsMeaning | llama-server/common/chat-peg-parser.cpp:962-1055 | a complete tree prints as the plain JSON form of the value it stands for, with every bracket, colon and comma |
| GemmaPrinter.CallGrowsWithCut | llama-server/common/chat-peg-parser.cpp:1057-1093 | a call printed early has the final name and a prefix of the final arguments |
| GemmaPrinter.CallIs | llama-server/common/chat-peg-parser.cpp:1069-1092 | a tool node with a name and a value gives a call with that name and the printed value, or no call while the name is partial |
| GemmaPrinter.PartialLacksCloser | llama-server/common/chat-peg-parser.cpp:962-1055 | a partial node prints what the complete one prints, but for its own closing quote, bracket, brace or colon |
| GemmaPrinter.StreamDelivers | llama-server/common/chat-peg-parser.cpp:956-1093 | gemma4 streams never throw and reach the client whole |
| MinimaxPrinter.ContainerNeutral | llama-server/common/chat-peg-parser.cpp:1135-1173 | a complete container prints with depth 0 and no open string |
| MinimaxPrinter.ArgumentsPrintMeaning | llama-server/common/chat-peg-parser.cpp:1123-1196 | complete arguments print as the plain JSON form of the object they stand for |
| MinimaxPrinter.CallIs | llama-server/common/chat-peg-parser.cpp:1198-1233 | a tool node gives a call with the name in its opening and its arguments, closed when it is complete |
| MinimaxPrinter.PartialLacksCloser | llama-server/common/chat-peg-parser.cpp:1123-1173 | an unfinished argument or item prints what the finished one prints, but for the closer of its value |
| MinimaxUnions.EntriesReplaced | llama-server/common/chat-peg-parser.cpp:1135-1196 | the entries printed of the earlier tree are those of what is kept, then the value given up; those of the later tree are the same, then the value found in that place, then what follows it there, with the same comma before both values |
| MinimaxUnions.StepIff | llama-server/common/chat-peg-parser.cpp:1096-1233 | from one parse to the next the message only grows if and only if what is printed of the value given up starts what is printed of the value in its place and after it, and clashes if and only if neither starts the other; place and values are read off the two trees |
| MinimaxUnions.ValuesDecide | llama-server/common/chat-peg-parser.cpp:1175-1196 | when one of the two values prints the beginning of the other, or contradicts it, that decides; when nothing follows the later value, the two values alone decide |
| MinimaxUnions.KindsClash | llama-server/common/chat-peg-parser.cpp:1175-1192 | a parse in whose place of an object, an array or a string the next one has another of these three clashes with it |
| MinimaxUnions.StreamDelivers | llama-server/common/chat-peg-parser.cpp:1198-1233 | over any stream, with or without unions, the server throws if and only if some value given up contradicts the value in its place, and the client ends with the server's message if and only if each was only continued |
| MinimaxUnions.NoUnionsDeliver | llama-server/common/chat-peg-parser.cpp:1198-1233 | streams in which no value is given up never throw and reach the client whole |
| MinimaxUnions.UnionThrows | llama-server/common/chat.cpp:2828-2842 | an argument that may be an object or a number: the two parses around its first digit are a stream in the sense above, and the server throws |
| Permute.Builder.RemainingOf | llama-server/common/chat-peg-parser.cpp:250-271 | the memo table is sound: whatever is cached for a mask is what the recursion without it builds |
| Permute.PermuteParsers | llama-server/common/chat-peg-parser.cpp:239-274 | the builder's parser is the unmemoised one, in the empty, single, permuted and too-many cases |
| Permute.PermuteIsFirstOrdering | llama-server/common/peg-parser.cpp:328-361 | under ordered choice the parser has the outcome of the first ordering, in dictionary order, that does not fail |
| Permute.PermuteAcceptsIff | llama-server/common/chat-peg-parser.cpp:239-274 | for 2 to 6 parsers it fails exactly when every ordering fails, and without short input it succeeds exactly when some ordering succeeds |
| Permute.OtherSizesRunInOrder | llama-server/common/chat-peg-parser.cpp:239-247 | other numbers of parsers are run in the given order |
| Permute.NothingPermuted | llama-server/common/chat-peg-parser.cpp:239-247 | fewer than two parsers or more than six have the outcome of running them in the given order |
| Segments.SegmentizeMarkers | llama-server/common/chat-auto-parser-helpers.cpp:266-296 | the loop over `in_marker` and `last_border` computes `Segmentize` |
| Segments.LexingIff | llama-server/common/chat-auto-parser-helpers.cpp:266-296 | a segment list is the output if and only if it concatenates to the text and is a proper lexing: markers run from an opener to its first closer, only the last text may hold an unclosed opener, no segment is empty and no two opener-free texts are adjacent |
| Segments.PlainCases | llama-server/common/chat-auto-parser-helpers.cpp:271-272 | `<...>` and `[...]` are one marker each whatever is inside, unclosed ones are text, and so is text without `<` and `[` |
| DiffSplit.CommonPrefixLen | llama-server/common/chat-auto-parser-helpers.cpp:66-73 | the number of characters found is that of the longest common prefix: the texts agree on it and differ right after it |
| DiffSplit.CommonSuffixLen | llama-server/common/chat-auto-parser-helpers.cpp:75-82 | the same from the end |
| DiffSplit.MatchEnds | llama-server/common/chat-auto-parser-helpers.cpp:99-136 | the loop over four iterators and two flags, with every dereference in range |
| DiffSplitLaws.LastMatchIff | llama-server/common/chat-auto-parser-helpers.cpp:138-162 | the matches after the loop keep both texts whole if and only if they take no segment that the loop had taken already |
| DiffSplit.CalculateDiffSplit | llama-server/common/chat-auto-parser-helpers.cpp:84-204 | the whole function computes `DiffOf`, special cases included |
| DiffSplitLaws.ConservesIff | llama-server/common/chat-auto-parser-helpers.cpp:84-204 | both inputs can be rebuilt from the parts if and only if the segmentations are not two matched halves around extra segments with the segment after the first half repeated at the border |
| DiffSplitLaws.DistinctSegmentsConserve | llama-server/common/chat-auto-parser-helpers.cpp:84-204 | both inputs are conserved whenever neither segmentation repeats a segment |
| DiffSplitShared.SharedEndsAreTaken | llama-server/common/chat-auto-parser-helpers.cpp:164-201 | for all inputs, the two rests begin with the same character only if it is `<` or `[`, and end with the same one only if it is `>` or `]` |
| DiffSplitShared.PlainTexts | llama-server/common/chat-auto-parser-helpers.cpp:164-201 | texts without markers, unless the left one starts the right one, lose their longest common suffix and then the longest common prefix of the rests |
| DiffSplitShared.LeftIsPrefix | llama-server/common/chat-auto-parser-helpers.cpp:182-201 | a left text with no rest that starts the right one is the prefix |
| DiffSplitShared.SuffixComesFirst | llama-server/common/chat-auto-parser-helpers.cpp:138-162 | a single right segment that both starts and ends the left text is taken as suffix |
| DiffSplitLaws.EqualTextsHaveNoDiff | llama-server/common/chat-auto-parser-helpers.cpp:182-187 | equal texts give the text as prefix and nothing else |
| DiffSplitLaws.MiscountWitness | llama-server/common/chat-auto-parser-helpers.cpp:138-162 | `<a><b>` against `<a><b><b>` is not conserved |
| MsgSpans.Split | llama-server/common/chat.cpp:152-184 | the spans start exactly where a delimiter matches outside an acting skip region, carry the role of the first matching delimiter, and are contiguous up to the end of the tokens |
| MsgSpans.SplitIsUnique | llama-server/common/chat.cpp:152-184 | that description determines the spans |
| MsgSpans.RoleAtIs | llama-server/common/chat.cpp:152-184 | the role is that of the first delimiter in the list whose tokens stand at the position |
| MsgSpans.NonOverlappingStarts | llama-server/common/chat.cpp:152-184 | without overlaps a span starts at a position if and only if some delimiter matches there and no skip region covers it |
| MsgSpans.AllActIff | llama-server/common/chat.cpp:152-164 | all skip regions act if and only if none starts inside the one before it |
| MsgSpans.KeptOutIff | llama-server/common/chat.cpp:152-164 | no span starts in any region, whatever the tokens and delimiters, if and only if the acting regions cover the ignored ones |
| MsgSpans.IgnoredSkip | llama-server/common/chat.cpp:152-164 | an empty region inside another one switches off a third, in which a span then starts |
| ToolResultOrder.BuildCallOrder | llama-server/common/chat.cpp:2105-2117 | an id is mapped if and only if it is not empty and among the calls, and it is mapped to its last index |
| ToolResultOrder.ScanRun | llama-server/common/chat.cpp:2124-2134 | the run is maximal and the positions are those of its tool messages |
| ToolResultOrder.WriteBack | llama-server/common/chat.cpp:2149-2151 | the results land at the tool positions in order, and nothing else is touched |
| ToolResultOrder.SortToolResults | llama-server/common/chat.cpp:2097-2158 | the whole pass computes `SortResults` |
| ToolResultOrder.SortIsStable | llama-server/common/chat.cpp:2136-2148 | the sort is a permutation, ordered by rank (an unknown id ranks 0), and keeps equals in order |
| ToolResultOrder.StableSortIsUnique | llama-server/common/chat.cpp:2136-2148 | a stably sorted rearrangement is unique, so any stable sort gives this result |
| ToolResultOrderLaws.RunsAreSeparate | llama-server/common/chat.cpp:2097-2158 | each maximal run of the result is that run sorted by the calls of the latest tool-calling assistant, independent of all other runs |
| ToolResultOrderLaws.NothingElseMoves | llama-server/common/chat.cpp:2097-2158 | the role at every index and every message that is not a tool result stay |
| ToolResultOrderLaws.ResultsAreSorted | llama-server/common/chat.cpp:2097-2158 | length, roles and other messages stay, and in every maximal run the tool results are stably sorted |
| ToolResultOrderLaws.RankIs | llama-server/common/chat.cpp:2142-2148 | a result ranks as the last call with its id, and as the first call when it has no id or none of the calls has it |
| ToolResultOrderLaws.ResultsFollowCalls | llama-server/common/chat.cpp:2097-2158 | in a whole stretch of user and tool messages, the results come out in the order of the calls they answer, by the calls of the latest assistant that made any; a result that answers none is never behind a later call than the first |
| ToolResultOrderLaws.NoCallsNoChange | llama-server/common/chat.cpp:2136-2152 | before any message with calls nothing is reordered |
| ToolResultOrderLaws.Idempotent | llama-server/common/chat.cpp:2097-2158 | doing it twice changes nothing |
| GemmaTurns.TurnBuilder.CollectResult | llama-server/common/chat.cpp:3048-3081 | the k-th response is named after the k-th call, or by its call id, and holds the parsed or raw content |
| GemmaTurns.ResponseIs | llama-server/common/chat.cpp:3048-3081 | each case of the name and of the value of a response, spelled out |
| GemmaTurns.TurnBuilder.Build | llama-server/common/chat.cpp:3019-3100 | a turn takes all tool messages after its calls, in order, then the answer if one follows, and stops there |
| GemmaTurns.KeptIs | llama-server/common/chat.cpp:3125-3133 | every message that is not an assistant's with calls, and that no turn takes, is kept as it is |
| GemmaTurns.TurnIs | llama-server/common/chat.cpp:3019-3100 | the calls and reasoning of a turn, where its results end, and which message closes it, in terms of roles and fields alone |
| GemmaTurns.ConvertToolResponses | llama-server/common/chat.cpp:3121-3141 | the input is cut into consecutive non-empty parts, each a kept message or a built turn, with nothing left over |
| GemmaTurns.FoldingIsUnique | llama-server/common/chat.cpp:3121-3141 | that description determines the output and the cuts |
| GemmaTurns.ResultsAreConserved | llama-server/common/chat.cpp:3009-3141 | the tool results of the output, left as messages or collected into turns, are those of the input in the same order |
| GemmaTurns.ToolAfterTurnIff | llama-server/common/chat.cpp:3038-3045 | some turn of the output is directly followed by a tool message if and only if the input has calls, then only tool messages, then an answer, then a tool message |
| GemmaTurns.LateResult | llama-server/common/chat.cpp:3038-3045 | call, answer, tool result is such an input |
| Base64.Base64Value | llama-server/common/base64.hpp:344-389 | the value of a character, an error outside the alphabet, and the alphabet settled by the first of `+ / - _` |
| Base64.Encode | llama-server/common/base64.hpp:80-144 | the output carries the bits of the input filled with zeros to whole symbols, in the asked alphabet, padded to the required size (section 4 of RFC 4648) |
| Base64.EncodingIsUnique | llama-server/common/base64.hpp:80-144 | that description determines the output |
| Base64.Decode | llama-server/common/base64.hpp:200-244 | the result is the whole bytes in the bits of the longest accepted prefix; an error for a bad character and, unless loose, for anything but padding after padding |
| Base64.DecodeInPlace | llama-server/common/base64.hpp:294-312 | decoding over its own buffer gives the result of decoding elsewhere, errors included; the rest of the buffer is untouched |
| Base64.DecodedLength | llama-server/common/base64.hpp:324-327 | k symbols give floor(3k/4) bytes, within `max_decode_size` and never more than the input |
| Base64Laws.SpareCount | llama-server/common/base64.hpp:338-341 | the required size is a multiple of four, and the padding has as many characters as the last symbol has spare bit pairs, at most two |
| Base64Laws.DecodeEncoded | llama-server/common/base64.hpp:200-244 | decoding an encoding with its alphabet, or detecting it, gives back every byte string |
| Base64Laws.CanonicalIff | llama-server/common/base64.hpp:80-144 | the texts an encoder can produce are exactly the padded ones over one alphabet whose spare bits are zero (section 3.5 of RFC 4648) |
| Base64Laws.EncodeDecoded | llama-server/common/base64.hpp:80-244 | when a text decodes, encoding the result gives the text back if and only if the text is canonical |
| Base64Laws.AcceptsIff | llama-server/common/base64.hpp:344-389 | an alphabet accepts its 64 symbols and no other character, and the detecting decoder those of both |
| Base64Laws.CapitalLetters | llama-server/common/base64.hpp:83-86 | the symbols for 0 to 25 are `A` to `Z` |
| Base64Laws.SmallLetters | llama-server/common/base64.hpp:83-86 | the symbols for 26 to 51 are `a` to `z` |
| Base64Laws.Digits | llama-server/common/base64.hpp:83-86 | the symbols for 52 to 61 are `0` to `9` |
| Base64Laws.LastSymbols | llama-server/common/base64.hpp:82-86 | the last two symbols are `+ /` or `- _`, and padding is `=` |
| Base64Laws.RefusedIff | llama-server/common/base64.hpp:229-241 | a text is refused if and only if something other than `=` follows the accepted symbols: right after them for a loose decoder, anywhere for the moderate one |
| Base64Laws.MaxDecodeSizeIs | llama-server/common/base64.hpp:324-327 | three bytes for every four characters begun |
| CsvRow.ParseCsvRow | llama-server/common/arg.cpp:1347-1389 | the loop over `field` and `in_quotes`, skipping the second of two quotes, computes `Row` |
| CsvRow.RowOfWritten | llama-server/common/arg.cpp:1347-1389 | every non-empty field list reads back from its written row, whichever optional quotes the writer adds |
| CsvRow.RowOfWrittenMinimal | llama-server/common/arg.cpp:1347-1389 | in particular from the row with the fewest quotes |
| CsvRow.RawFieldIff | llama-server/common/arg.cpp:1347-1389 | an unquoted field reads as itself if and only if it has no comma and does not start with a quote |
| CsvRow.RowIff | llama-server/common/arg.cpp:1347-1389 | every text is a row of pieces (plain, quoted with text after it, or a quote never closed), and its fields are exactly theirs, malformed rows included |
| LineBreaker.AddLine | llama-server/common/arg.cpp:161-177 | a short line is kept as it is, a longer one is filled word by word |
| LineBreaker.BreakStrIntoLines | llama-server/common/arg.cpp:157-182 | the lines of the input are broken one after the other |
| LineBreaker.FillIsLayout | llama-server/common/arg.cpp:165-176 | filling keeps the words in order on non-empty lines that fit, or hold one word too long for any line |
| LineBreaker.FewestLines | llama-server/common/arg.cpp:165-176 | no layout of the words has fewer lines |
| LineBreaker.WordsAreKept | llama-server/common/arg.cpp:157-182 | reading the output's words gives the input's words, in order |
| LineBreaker.WidthIsKept | llama-server/common/arg.cpp:157-182 | a line wider than allowed is a single word |
| LineBreaker.LinesAre | llama-server/common/arg.cpp:157-182 | the lines have no newline in them, and joined again they are the input, but for its last newline |
| LineBreaker.LineBecomes | llama-server/common/arg.cpp:161-177 | wherever it stands, a line within the width stays as it is, spaces included, and another becomes its words on lines |
| LineBreaker.LinesAreFull | llama-server/common/arg.cpp:165-176 | the first word of a line would not have fitted on the line before |

## Left out

- The parsing engine, its grammars, Jinja templates and the JSON library: nodes, trees and template output are inputs here; JSON escaping is defined in `JsonText`.
- `current_tool` after a nameless call was closed: the source keeps a pointer to the reset call; the model has no current tool then.
- Container and atomic nodes that carry no text of their own are `OtherTag` and do nothing, as in the source.
- UTF-8: texts are sequences of characters, and the escaping of invalid bytes is not modelled.
- ServerRun.TaskState.UpdateChatMsg: `filter_tool_calls`, which holds names back until their arguments begin, is not modelled.
- The role, content parts and tool name of a message, and the initial message of a continued generation.
- Random tool-call ids: `gen` is any function from a counter to ids, not necessarily injective.
- The span queries of `common_chat_msg_spans` and the string form of roles.
- Debug output of the parsers, and error messages: errors are values without text.
- Permute.Builder.RemainingOf: masks are eight bits wide rather than 32, as at most six bits are used.
- ToolResultOrder.SortToolResults: `std::stable_sort` is a stable insertion sort here; `StableSortIsUnique` says that any stable sort agrees.
- GemmaTurns.ConvertToolResponses: reading a tool result as JSON is a parameter that may refuse; messages keep the fields the conversion looks at, and a tool call its name and arguments.
- Base64.Encode: the symbol tables are written as character ranges and spelled out in `Base64Laws`; iterators other than over sequences and arrays are not modelled.
- LineBreaker.BreakStrIntoLines: reading lines and words from a stream are functions of the text, with the space characters of the C locale.
- Integer widths: positions and sizes are unbounded, so overflow of `size_t` and of the `int` brace depth is not modelled.
