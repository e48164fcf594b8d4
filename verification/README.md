# Verified model of llama.cpp's conversion and chat-text algorithms

This project models, in Dafny, seven groups of algorithms of the repository and proves what
they are for. `dafny verify dfyconfig.toml` checks everything.

| files | what they model |
|---|---|
| Tensor, TensorLaws, Lora, LoraIndexing, LoraEllipsis, LoraShape, LoraCat, LoraCatExact, LoraPipeline | `LoraTorchTensor`: a weight kept as two low-rank factors, on which slicing, reshape, permute, transpose, split, cat, stack and scaling are re-implemented. Each is compared with the plain tensor operation on the product of the factors, and TensorLaws says which positions the plain operations read. |
| Chars, Json, Quotes, QuotesMeaning | Python literals to JSON text, one of the two text translators of the tool-call pipeline |
| Gemma4, Gemma4Parse, Gemma4Meaning, Gemma4Written, Gemma4Stream, Gemma4Texts | the other one: the parser of Gemma 4 arguments run on text that still grows, the printing of its trees as JSON, written values coming back, and the streamed call |
| Diffs, DiffsMeaning, Mapper, MapperMeaning, Stream, ToolCalls, ToolCallsRead, CallOrder, ChatSession, ChatIds | streaming tool calls: the event-driven mapper, message differencing, the client that folds the deltas, and a whole server session |
| Segments, SegmentsMeaning, DiffSplit, DiffSplitMeaning, DiffSplitTexts | marker-aware differencing of two template renderings |
| Bits, Base64, Base64Laws, Base64Texts | the Base64 codec, against the bit strings of RFC 4648 |
| Spans, SpansLaws, Glob, Lcs, Escapes, Csv | splitting a conversation into message spans, glob matching, longest common substring, unescaping in one buffer, CSV rows |

The objects and loops of the C++ code are classes and methods here, each proved against a
function or a predicate on values; the lemmas are about those. The LoRA class, which only
builds new objects, is modelled by functions. Exceptions are `Option` or `Result` values.
A parse is a sequence of tagged events; a streamed output is a sequence of traces, each a
truncation of the next: some events are missing at the end, and the last one kept may have
lost the end of its text unless its tag is atomic. The nodes around a cut value may
be shortened with it.

## Where the code falls short

Each point is proved, where it makes sense with the exact condition under which the code is right.

- `normalize_quotes_to_json` says that matching prefixes of True, False and None keeps
  streamed text monotonic (common/chat-peg-parser.cpp:158). It does not when an ordinary word
  begins like one of them: `Tru` is written as `tru`, `Trump` as `Trump`, and the next
  difference throws (Quotes.NormalizeCut, Stream.StreamStep, Stream.BadCutExists).
- The same function copies an escaped slash. In Python it is a backslash and a slash, in the
  JSON text a slash alone (QuotesMeaning.PythonValueKept, QuotesMeaning.SlashIsLost).
- The name of a call may come anywhere among its other events, except when its argument
  text begins with a bare value: naming first puts a brace in front of it, naming last does
  not (CallOrder.NameOrder, CallOrder.BareValueMatters). No grammar in the repository emits
  a bare value first.
- A second id that is empty takes back the first; a client that has seen the first keeps it
  (Stream.EmptyIdBreaks). Of the grammars, only the one with function names as keys can
  emit two ids (common/chat-peg-parser.cpp:612-626).
- `calculate_diff_split` can count a segment twice when it repeats next to the place where
  the two ends meet; one side is then not rebuilt (DiffSplitMeaning.RebuildsExactly). A
  later correction repairs some of these cases, and the condition accounts for it.
- The flush of a named pending call at the end of `from_ast` is dead code
  (Stream.PendingIsUnnamed).
- `LoraTorchTensor.__getitem__` expands an ellipsis to as many full slices as there are
  other indices, which is right only for some ranks, and raises on an ellipsis alone
  (LoraEllipsis.ItemsExactly, LoraEllipsis.FirstColumnFails, LoraEllipsis.LoneEllipsis). It
  drops the slice of a leading axis on A (LoraIndexing.GetTupleCorrect).
- `reshape` fills in several sizes of -1 (LoraShape.ReshapeCorrect, LoraShape.TwoOpenSizes),
  `permute` reads an axis number that is too large as another axis (LoraShape.PermuteCorrect),
  and `split` accepts axes below minus the rank (LoraCat.SplitCorrect, LoraCat.SplitTooFar).
- `cat` of higher-rank pieces whose factors disagree on the first size gives factors that do
  not multiply to the advertised shape, or multiply to the wrong entries
  (LoraCatExact.CatExactly, LoraCat.BalancedButWrong). Pieces of a split that share A are
  such, so concatenating them does not undo the split (LoraCat.CatUndoesSplit,
  LoraCat.SharedSplitFails).
- `glob_class_match` means to take a bracket after the exclamation mark literally; the
  search for the end of the class stops at that bracket first, so `[!]` is a class of its
  own that accepts every character (Glob.BracketAfterNegation).
- A skip region that starts inside the one before it is never reached, and neither is any
  later one (Spans.EffectiveExactly).

## Model

| member | source | states |
|---|---|---|
| Lora.WfIsMatmul | convert_lora_to_gguf.py:121-124 | the shape the class reports is the shape of the matrix product of its factors exactly when A's leading sizes are each 1 or equal to B's |
| Lora.ProductEntry | convert_lora_to_gguf.py:40-53 | an entry of the dense tensor is the sum over the rank of B's row times A's column, A's leading axes being broadcast |
| TensorLaws.ProductReads | convert_lora_to_gguf.py:40-53 | said with dot products: the entry at a leading position, row i and column j is the dot product of row i of B and column j of A, each in the matrix at that leading position, where A reads its only position on axes of size 1 |
| Lora.SelectCommutes | convert_lora_to_gguf.py:58-112 | selecting compatible positions in the two factors and then forming the product gives the same tensor as selecting in the product |
| LoraIndexing.GetTupleCorrect | convert_lora_to_gguf.py:95-112 | an index tuple that is accepted means the same on the factors as on the product if and only if the last index is a slice and every sliced leading axis has size 1 in A or is sliced in full; the product always accepts it too |
| LoraIndexing.GetOneCorrect | convert_lora_to_gguf.py:66-76 | an accepted integer or slice means the same on the factors as on the product if and only if both factors have the same first size, or exactly one position of A is selected, or none of B |
| TensorLaws.AxisPositions | convert_lora_to_gguf.py:70-76 | on one axis an integer takes the position it names, counted from the end when negative; a slice takes, in ascending order, exactly the positions between its bounds that are whole steps from the first, where a bound is counted from the end when negative and moved to the nearer end; an integer outside the axis and a slice without a positive step raise |
| TensorLaws.IndexRefused | convert_lora_to_gguf.py:95-112 | a tuple is refused if and only if it is longer than the rank or one of its indices is refused on its axis |
| TensorLaws.IndexReads | convert_lora_to_gguf.py:95-112 | an indexed tensor has one axis for every slice, as long as its list of positions, and every element is the one at the positions that the indices take |
| TensorLaws.HalvesJoin | conversion/openelm.py:79-80 | the first n rows and the others, concatenated, are the tensor again |
| LoraEllipsis.ItemsExactly | convert_lora_to_gguf.py:77-112 | an accepted tuple, with or without ellipses, means the same on the factors as on the product, for all pairs of these shapes, if and only if the code's expansion and the usual one select the same positions of the product and the tuple's slices are covered as in the previous rows |
| LoraEllipsis.EllipsisExpansion | convert_lora_to_gguf.py:78-96 | with one ellipsis among at least one other index, the code's list of indices is the usual one if and only if nothing follows the ellipsis, or the other indices number half the rank, or only full slices follow and there is room for them |
| LoraEllipsis.SameIndicesMeant | convert_lora_to_gguf.py:77-112 | and then the tuple is meant if and only if the tuple written out without the ellipsis is covered |
| LoraEllipsis.LoneEllipsis | convert_lora_to_gguf.py:78-80 | for every pair, an ellipsis alone raises, although it selects the whole product |
| LoraEllipsis.FirstColumnFails | convert_lora_to_gguf.py:81-96 | for every pair of rank 3 with more than one row, the slice 0:1 after an ellipsis is accepted on factors and product and they part: the code takes the first row, not the first column |
| LoraShape.ReshapeCorrect | convert_lora_to_gguf.py:136-160 | when a reshape of the factors is accepted, the product accepts it if and only if at most one size is -1 and, at rank 0, the sizes multiply to the right number; and then the reshaped factors denote the reshaped product |
| LoraShape.TwoOpenSizes | convert_lora_to_gguf.py:145-150 | two sizes of -1 are filled in on the factors of any row of positive rank, where the row itself cannot be reshaped |
| TensorLaws.ReshapeKeeps | convert_lora_to_gguf.py:145-160 | a reshaped tensor has the same elements in the same row-major order, keeps the sizes that are given, and has as many elements as before |
| TensorLaws.RowMajor | convert_lora_to_gguf.py:157-160 | in that order the elements of one position of the first axis stand together, position after position |
| LoraShape.PermuteCorrect | convert_lora_to_gguf.py:168-179 | every accepted permutation of the factors gives the permuted product, and the product rejects the axes if and only if one of them is not below the rank |
| LoraShape.TransposeCorrect | convert_lora_to_gguf.py:181-188 | every accepted exchange of two axes gives the product with those axes exchanged, for matrices by exchanging the factors |
| TensorLaws.PermuteReads | convert_lora_to_gguf.py:168-172 | output axis i is axis dims[i] of the tensor, negative axes counted from the end |
| TensorLaws.TransposeReads | convert_lora_to_gguf.py:181-185 | exchanging two axes exchanges the two coordinates of every element, and an axis may be counted from the end |
| LoraShape.MulCorrect | convert_lora_to_gguf.py:211-219 | for every multiplier that is accepted, scaling B scales the product |
| TensorLaws.MulReads | convert_lora_to_gguf.py:211-216 | every entry is the product of the entries of the two operands at its coordinates, the last axes standing over each other and axes of size 1 being read at their only position |
| LoraCat.SplitCorrect | convert_lora_to_gguf.py:190-206 | the product accepts a split, by one size or by a list, if and only if the factors do and the axis is not below minus the rank; and then the pieces denote the pieces of the product, in order |
| LoraCat.SplitTooFar | convert_lora_to_gguf.py:193-206 | axis -4 of any matrix of rank 1 is split on the factors like axis 0, where the product raises |
| TensorLaws.ChunksExactly | convert_lora_to_gguf.py:190-206 | pieces of one size, the last with what is left over, and for an empty axis one empty piece |
| TensorLaws.PartsExactly | convert_lora_to_gguf.py:190-206 | a list of sizes is accepted if and only if none is negative and they add up to the axis, and is used as it is |
| TensorLaws.SplitReads | convert_lora_to_gguf.py:196-205 | piece k has the k-th size on the axis and holds the positions behind those of the earlier pieces |
| LoraCat.CatCorrect | convert_lora_to_gguf.py:243-259 | concatenated factors denote the concatenated products for matrices with one A, for pieces whose factors agree on the first size, for one piece, and when A has one first position in all; at higher rank the result multiplies to its advertised shape if and only if the first sizes of the A's add up to those of the B's or to 1, which for several non-empty pieces means that the factors of each agree |
| LoraCatExact.CatExactly | convert_lora_to_gguf.py:248-252 | accepted pieces of higher rank are concatenated correctly, for all entries, if and only if the factors of each agree on the first size, or A has one first position in all, or the first sizes balance and there is no inner position or no entry |
| LoraCat.BalancedButWrong | convert_lora_to_gguf.py:248-252 | an empty piece and a piece that shares its A, whose first sizes balance: the result multiplies to the right shape and is wrong |
| TensorLaws.CatReads | convert_lora_to_gguf.py:243-252 | in a concatenation the k-th tensor stands behind all of the earlier ones |
| LoraCat.StackCorrect | convert_lora_to_gguf.py:234-242 | stacking the factors denotes the stacked products, without further conditions |
| TensorLaws.StackReads | convert_lora_to_gguf.py:234-242 | the first coordinate of a stack says which tensor, the others where in it |
| LoraCat.CatUndoesSplit | convert_lora_to_gguf.py:190-206 | concatenating the pieces of any accepted split along the first axis gives back the same two factors if and only if they are matrices, or A's first size is not 1, or there is one piece; it denotes the same tensor if and only if one of these holds or there are as many pieces as first positions |
| LoraCat.SharedSplitFails | convert_lora_to_gguf.py:202-203 | for every pair of higher rank whose first sizes are 1, splitting into sizes 1 and 0 and concatenating gives factors that do not denote the tensor |
| LoraPipeline.StepCorrect | convert_lora_to_gguf.py:58-219 | an accepted operation that is meant denotes the plain tensor operation; without an ellipsis, only then; a tuple with an ellipsis is meant if and only if it does so for all pairs of the same shapes |
| LoraPipeline.PipelineCorrect | convert_lora_to_gguf.py:58-219 | any accepted pipeline of operations whose every step is meant, such as reshape, swapaxes, reshape, denotes on the factors the same pipeline run on the product |
| LoraPipeline.PipelineExactly | convert_lora_to_gguf.py:58-219 | without an ellipsis, every step of an accepted pipeline is meant if and only if the factors denote the product after every step |
| Json.QuoteReads | common/chat-peg-parser.cpp:70-76 | an escaped and quoted text is read back as one JSON string with that value, whatever follows |
| Json.EscapePrefix | common/chat-peg-parser.cpp:70-76 | escaping keeps the prefix order, so escaped text only grows when the text does |
| Json.EscapeTable | common/chat-peg-parser.cpp:70-76 | the two-character escapes are exactly those of section 7 of RFC 8259, character by character, and all of them but the one of the slash are written |
| Quotes.NormalizeQuotes | common/chat-peg-parser.cpp:83-185 | the scanning loop with its two flags and look-ahead computes the rewriting that the next rows are about |
| Quotes.Advance | common/chat-peg-parser.cpp:92-181 | one round of the loop: what it appends and the position and flags it leaves, in every branch |
| Quotes.NormalizeCut | common/chat-peg-parser.cpp:156-178 | a truncated value is rewritten to a prefix of the full rewriting if and only if the cut is not bad; at a bad cut, inside an escaped quote or inside a word that only looked like True, False or None, the two texts contradict each other |
| QuotesMeaning.NormalizeKeepsValue | common/chat-peg-parser.cpp:78-185 | every text of Python literals, with the escapes that the string parsers accept, is rewritten to JSON text with the same tokens and string values, escapes being read as JSON reads them |
| QuotesMeaning.PythonValueKept | common/chat-peg-parser.cpp:78-185 | the string values are also those that Python itself reads if and only if no string escapes a slash |
| QuotesMeaning.SlashIsLost | common/chat-peg-parser.cpp:78-185 | a string of one escaped slash: two characters in Python, one in the JSON text |
| QuotesMeaning.NormalizeFixesJson | common/chat-peg-parser.cpp:78-185 | JSON text, with any four digits after an escaped u, is left unchanged, so rewriting twice is rewriting once |
| QuotesMeaning.WordRewritten | common/chat-peg-parser.cpp:156-178 | a word outside strings is copied unless it is True, False or None or begins one of them, which becomes the same beginning of true, false or null; what follows is rewritten on its own |
| Diffs.ComputeDiffs | common/chat.cpp:264-330 | the appending loop returns the deltas of two messages, or the exception it throws |
| DiffsMeaning.DeltasExactly | common/chat.cpp:264-330 | the deltas, in order: one with the added text for the reasoning and one for the content if it changed; one for the last earlier call if its arguments grew or its name or id changed, with the new name and id if one of them changed and with empty ones otherwise; one with everything for each new call |
| Diffs.StringDiffOk | common/chat.cpp:54-67 | the text difference is defined exactly when one text is a prefix of the other, and appending it restores the new text exactly when the old one is the prefix |
| Diffs.DeltasOk | common/chat.cpp:264-330 | no exception is thrown if and only if texts and the last call's arguments are prefix-comparable, its name is the same, empty on one side or has grown, and no call has disappeared |
| Diffs.ClientFollows | tests/test-chat.cpp:1081-1106 | a client that had the previous message has the next one after folding the deltas if and only if the next extends the previous |
| Diffs.StreamDelivered | tests/test-chat.cpp:1081-1106 | over a growing chain of messages nothing throws and the client ends with exactly the last message |
| Mapper.JsonBraceDepth | common/chat-peg-parser.cpp:41-67 | the counting loop returns the depth of the scan that BraceTokens characterises |
| Mapper.CloseBraces | common/chat-peg-parser.cpp:406-409 | one closing brace is appended for every brace the scan leaves open |
| Mapper.PegMapper.constructor | common/chat-peg-parser.h:18-36 | a new mapper is in the start state |
| Mapper.PegMapper.ArgsTarget | common/chat-peg-parser.cpp:238-240 | argument text goes to the current call once it has a name and to the buffer before |
| Mapper.PegMapper.OpenTool | common/chat-peg-parser.cpp:304-310 | opening a call replaces the pending call and resets count, buffer and quote flag |
| Mapper.PegMapper.NameTool | common/chat-peg-parser.cpp:320-335 | naming a call moves the buffered arguments into it and shows it in the result |
| Mapper.PegMapper.AddArgName | common/chat-peg-parser.cpp:350-363 | an argument name appends separator, quoted key and colon, opening the object first if nothing was written |
| Mapper.PegMapper.AddValue | common/chat-peg-parser.cpp:365-386 | a value appends its JSON text, with the opening quote of a string only once |
| Mapper.PegMapper.CloseTool | common/chat-peg-parser.cpp:395-417 | closing a call flushes the buffer, the quote and the missing braces, and drops an unnamed call |
| Mapper.PegMapper.Map | common/chat-peg-parser.cpp:277-418 | one event changes all fields of the mapper as the transition function says |
| Mapper.PegMapper.FromAst | common/chat-peg-parser.cpp:246-275 | a whole parse leaves the message that the run of the transition function denotes, with blank reasoning dropped |
| MapperMeaning.RunTexts | common/chat-peg-parser.cpp:277-290 | any trace adds the texts of its reasoning events, in order, to the reasoning, and those of its content events to the content |
| MapperMeaning.MessageTexts | common/chat-peg-parser.cpp:246-290 | the message has the content of the trace, and its reasoning unless that is white space only |
| MapperMeaning.TrimIs | common/chat-peg-parser.cpp:11-21 | trailing white space is removed, and nothing else |
| MapperMeaning.TrimKey | common/chat-peg-parser.cpp:23-37 | an argument name loses trailing white space and one leading white-space character at most |
| MapperMeaning.QuotedId | common/chat-peg-parser.cpp:312-318 | an id in quotes loses them and trailing white space |
| MapperMeaning.BareId | common/chat-peg-parser.cpp:312-318 | any other id loses trailing white space only |
| MapperMeaning.JsonCall | common/chat-peg-parser.cpp:304-348 | a call with name, id and arguments as one JSON text, in any state, is shown with exactly these, its braces closed if they are open |
| Stream.StepKeepsInvariant | common/chat-peg-parser.cpp:304-348 | every event keeps the invariant: a pending call has no name and no arguments and is the current call |
| Stream.PendingIsUnnamed | common/chat-peg-parser.cpp:246-260 | in every reachable state a pending call is unnamed, so the flush at the end of a parse never does anything |
| Stream.StepAgrees | common/chat-peg-parser.cpp:277-418 | the mapper's state follows the phase of a well-formed trace, event by event |
| Stream.StepExtends | common/chat-peg-parser.cpp:277-418 | every event of a well-formed trace extends the message: texts and the last call grow, earlier calls stay |
| Stream.TruncationExtends | common/chat-peg-parser.h:77-93 | the message of a trace extends the message of any truncation of it whose cut is not visibly bad, including the blank-reasoning rule; a cut may also shorten the nodes that enclose the value |
| Stream.BadTruncationThrows | common/chat.cpp:264-330 | a visibly bad truncation always makes the next difference throw |
| Stream.StreamStep | common/chat.cpp:264-330 | for every well-formed trace and every truncation of it, enclosing nodes included, differencing succeeds if and only if the cut is not visibly bad, and exactly then the full message extends the truncated one |
| Stream.MessagesGrow | common/chat-peg-parser.h:77-93 | the messages of successive parses of one growing output form a growing chain |
| Stream.StreamedMessageArrives | tests/test-chat.cpp:1081-1106 | a client folding the deltas of successive parses ends with exactly the message of the last parse |
| Stream.BadCutExists | common/chat-peg-parser.cpp:156-178 | a concrete trace and cut, the value Trump cut after Tru, on which the next difference throws |
| Stream.PartIsNoObject | common/chat-peg-parser.cpp:337-348 | a start of argument text that is no JSON object is not one either, so what a cut leaves of an enclosing arguments node changes nothing |
| Stream.EmptyIdBreaks | common/chat-peg-parser.cpp:312-318 | a second, empty id after one that is not empty takes the id back: the message is not extended and the client keeps the old id |
| ToolCalls.BraceTokens | common/chat-peg-parser.cpp:41-67 | on JSON text the brace scan counts exactly the brace tokens, ignores braces in strings and ends outside a string |
| ToolCalls.DepthAtClose | common/chat-peg-parser.cpp:406-409 | if the written values end outside strings, the scan at the close of a tagged call reports one more than the surplus of braces in the values |
| ToolCalls.TaggedCall | common/chat-peg-parser.cpp:277-418 | a tagged call, with any enclosing nodes around its events, adds one call, and its arguments are the printed object if and only if one brace is open at the end; if the written values end outside strings, if and only if their braces balance; and if they are JSON text too, the object has their tokens, key by key and value by value |
| ToolCalls.TextSettled | common/chat-peg-parser.cpp:365-386 | a written string value ends outside strings, and the braces in it do not count |
| ToolCalls.RawSettled | common/chat-peg-parser.cpp:462-469 | raw text between the markers of a parameter ends outside strings if it holds no quotation mark |
| ToolCalls.LiteralReadable | common/chat-peg-parser.cpp:365-386 | values that are JSON text or Python literals are written as JSON text with their own tokens |
| ToolCallsRead.TaggedCallReads | common/chat-peg-parser.cpp:277-418 | if every literal is written as the JSON text of one value, whether it came as JSON or as Python, the arguments of the added call are the printed object and read back as the object of these values |
| CallOrder.StepSimulates | common/chat-peg-parser.cpp:238-240 | writes to the buffer before the name simulate direct writes after it, event by event |
| CallOrder.NameOrder | common/chat-peg-parser.cpp:320-335 | moving the name anywhere between open and close leaves the final message unchanged if and only if the argument text does not begin with a bare value that nothing replaces later |
| CallOrder.LooseOutcome | common/chat-peg-parser.cpp:322-328 | when it does begin with a bare value, naming the call first and naming it last give different messages |
| CallOrder.BareValueMatters | common/chat-peg-parser.cpp:365-386 | from every state, a call f whose body is the bare value 1 ends differently when it is named first and when it is named last |
| ChatSession.SetToolCallIds | common/chat.h:108-120 | in place, every call gets the id of its position in the cache, which first grows to cover all calls |
| ChatIds.CoverExactly | common/chat.h:108-120 | a call that is covered for the first time keeps its id if it has one; otherwise it gets the generated id whose number is that of the ids generated before, counting the calls without an id in front of it; the counter grows by the new calls without an id |
| ChatIds.SessionIds | common/chat.h:108-120 | over a whole session every position has the id its call had when it was first seen, or a generated one if that was empty, and with a generator that never repeats itself no two positions have the same generated id |
| ChatSession.UpdateFollows | tools/server/server-task.cpp:158-177 | a parse that extends the one before is accepted, and the deltas turn the message shown so far into the new one with ids |
| ChatSession.SessionDelivered | tools/server/server-task.cpp:158-177 | over a whole answer nothing throws and the client ends with the last parse under the ids handed out |
| ChatSession.IdsStay | common/chat.h:108-120 | the id a call is first shown with is its id in every later state of the session |
| ChatSession.AnswerArrives | tools/server/server-task.cpp:158-177 | parses of a growing output, each a not visibly bad truncation of the next, are served without exception and arrive complete at the client |
| ChatIds.ShownCalls | tools/server/server-task.cpp:158-177 | the client of a growing answer ends with the texts, names and arguments of the last parse; each call has the id it had when first seen, or a generated one, and no two calls share a generated id |
| Gemma4.CutPrintsPrefix | common/chat-peg-parser.cpp:926-1019 | a value tree cut along its right spine prints a prefix of what the whole tree prints; a node on the cut is partial if it prints a closing, and a node that has read nothing may be of any rule |
| Gemma4Parse.ArgumentsGrow | common/chat.cpp:1342-1374 | for any text of arguments and any longer one: failing is final, a complete parse stays, and otherwise the tree of the shorter text is a cut of the longer one's and its JSON text a prefix |
| Gemma4Written.CutInsideKey | common/chat.cpp:1349-1349 | text that stops inside its first key: the name's node is not partial, and the brace, the quote and the part of the key are printed |
| Gemma4Stream.ToolGrows | common/chat.cpp:1378-1388 | while the text of a call grows, for function names without a brace, failing is final and the call extends what was shown before |
| Gemma4Stream.BraceInName | common/chat.cpp:1378-1388 | with the names a and a{b, the second takes over a text that was shown as a call of the first |
| Gemma4Stream.GemmaCallArrives | common/chat-peg-parser.cpp:1034-1052 | a client folding the differences over the successive parses of one growing call ends with exactly the last message |
| Gemma4Texts.ToolIs | common/chat.cpp:1378-1388 | a call bears the name of one of the tools, the text begins with that name and a brace, and the arguments are the parse of what stands behind the name |
| Gemma4Texts.OneTextArgument | common/chat.cpp:1342-1349 | the text of a call with one text argument, character by character, gives the call with the JSON object of the key and the text |
| Gemma4Texts.CutInsideString | common/chat-peg-parser.cpp:926-1019 | text that stops inside a string value: everything up to there is printed, and nothing is closed |
| Gemma4Texts.BlanksInside | common/chat.cpp:1350-1368 | white space behind a comma and in front of a closing bracket is only passed over |
| Gemma4Texts.BlanksInFront | common/chat.cpp:1351-1368 | white space behind an opening bracket does not change what is read inside |
| Gemma4Texts.BlanksInMember | common/chat.cpp:1349-1350 | white space behind the colon of a member does not change its value, and the key is printed quoted with its colon |
| Gemma4Meaning.NumberIff | common/peg-parser.cpp:1327-1340 | in front of a character that goes on no number, the number parser reads a text whole if and only if it is a number of section 6 of RFC 8259 |
| Gemma4Meaning.ArgumentsRead | common/chat.cpp:1342-1374 | every complete parse of arguments prints JSON text that reads back as an object |
| Gemma4Written.WrittenArrives | common/chat.cpp:1342-1374 | an object written in the Gemma 4 syntax, whatever follows, is parsed whole, and the JSON text printed for it reads back as the same object |
| Gemma4Written.MeaningsAreWritable | common/chat.cpp:1342-1374 | an object is what some complete arguments read back as if and only if its numbers are numbers, its strings do not hold the delimiter, and its keys are not empty, hold no colon and no closing brace and do not start with white space |
| Gemma4.TreeReads | common/chat-peg-parser.cpp:926-1019 | a complete value tree prints text that lexes to exactly the tokens of its value |
| Gemma4.ParseTokens | common/chat-peg-parser.cpp:926-1019 | the tokens of a value, followed by anything, parse back to that value |
| Gemma4.TreeReadsBack | common/chat-peg-parser.cpp:926-1019 | the JSON text printed for a complete value tree reads back as the value of the tree |
| Segments.SegmentizeMarkers | common/chat-auto-parser-helpers.cpp:269-300 | the loop over opener and border returns the segments of the text |
| Segments.SegmentsTile | common/chat-auto-parser-helpers.cpp:269-300 | the segments put together are the text, and none of them is empty |
| SegmentsMeaning.SquareFirst | common/chat-auto-parser-helpers.cpp:269-300 | a name in square brackets in front of any text is one marker, and the segments of the text follow |
| SegmentsMeaning.AngleFirst | common/chat-auto-parser-helpers.cpp:269-300 | the same for angle brackets |
| SegmentsMeaning.TextFirst | common/chat-auto-parser-helpers.cpp:269-300 | characters that open no marker, in front of one that does, are one text |
| SegmentsMeaning.TextOnly | common/chat-auto-parser-helpers.cpp:269-300 | a text without the two opening brackets is one text segment |
| SegmentsMeaning.UnclosedIsText | common/chat-auto-parser-helpers.cpp:294-298 | an opening bracket that nothing closes is text up to the end |
| SegmentsMeaning.MarkersExactly | common/chat-auto-parser-helpers.cpp:269-300 | a segment is a marker if and only if it starts with an opening bracket and ends at the first bracket that closes it |
| DiffSplit.CommonPrefixLen | common/chat-auto-parser-helpers.cpp:69-76 | the loop returns the length of the longest common prefix |
| DiffSplit.CommonSuffixLen | common/chat-auto-parser-helpers.cpp:78-85 | the loop returns the length of the longest common suffix |
| DiffSplit.CommonSuffixShared | common/chat-auto-parser-helpers.cpp:78-85 | that many characters agree from the end and, if both texts go on, the next ones differ |
| DiffSplit.MatchLastSegment | common/chat-auto-parser-helpers.cpp:141-165 | the branches after the loop settle what the function Settle says, for every position of the four indices |
| DiffSplit.SplitRemainders | common/chat-auto-parser-helpers.cpp:167-206 | the text-level split of the remainders and the two corrections after it |
| DiffSplit.CalculateDiffSplit | common/chat-auto-parser-helpers.cpp:87-207 | the four moving indices and two flags compute the split that the next rows are about |
| DiffSplitTexts.TextsSplit | common/chat-auto-parser-helpers.cpp:87-207 | two texts without markers: if the left one starts the right one, the rest of the right one is the difference; otherwise the suffix is the longest one shared, and the prefix the longest one shared in front of it |
| DiffSplitTexts.MarkersSplit | common/chat-auto-parser-helpers.cpp:87-207 | two different markers share nothing, not even their brackets |
| DiffSplitTexts.RepeatGoesBehind | common/chat-auto-parser-helpers.cpp:87-207 | a marker that the right side repeats around a text is matched behind the text |
| DiffSplitMeaning.MeetExactly | common/chat-auto-parser-helpers.cpp:101-139 | the loop uses up the shorter side if and only if that side has an even number of segments whose first half starts and whose second half ends the longer side |
| DiffSplitMeaning.RebuildsExactly | common/chat-auto-parser-helpers.cpp:87-207 | prefix, difference and suffix put both inputs back together if and only if no segment is counted twice, a condition on the two segmentations alone |
| DiffSplitMeaning.DistinctRebuilds | common/chat-auto-parser-helpers.cpp:87-207 | inputs whose segmentations repeat no segment are always rebuilt |
| DiffSplitMeaning.SelfSplit | common/chat-auto-parser-helpers.cpp:184-190 | any text compared with itself is all prefix |
| DiffSplitMeaning.PrefixIsFull | common/chat-auto-parser-helpers.cpp:101-182 | when text is left on both sides, the prefix holds every run of segments both inputs start with, and where text meets text what is left starts with different characters |
| DiffSplitMeaning.SuffixIsFull | common/chat-auto-parser-helpers.cpp:101-182 | the same for the suffix, from behind |
| DiffSplitMeaning.RepeatIsLost | common/chat-auto-parser-helpers.cpp:141-165 | <a><b> against <a><b><b> is not rebuilt: one segment is counted twice |
| Bits.BitsSplit | common/base64.hpp:98-135 | the bits of a number made of a high and a low part are the bits of the parts |
| Base64.Encode | common/base64.hpp:79-144 | the loop returns the encoded text, for every length and alphabet |
| Base64.SymbolIs | common/base64.hpp:79-96 | the character of every value in the two alphabets of RFC 4648 |
| Base64Texts.ThreeWritten | common/base64.hpp:98-135 | three bytes are written as the four characters of their upper six bits, the next six, the next six and the last six, in front of the text for the other bytes |
| Base64Texts.RestWritten | common/base64.hpp:98-135 | one byte left over is written as two characters and two pads, two bytes as three characters and one pad |
| Base64.Base64Value | common/base64.hpp:344-389 | the value of a character and the alphabet as detected so far, or an error |
| Base64.Decode | common/base64.hpp:199-244 | the bit-accumulating loop returns the decoded bytes, or an error for a bad character or bad padding |
| Base64.DecodeInPlace | common/base64.hpp:294-324 | decoding in one buffer leaves the same bytes at its front and does not touch the rest, because the write position never passes the read position |
| Base64Laws.EncodedSize | common/base64.hpp:338-341 | an encoding has exactly the required size |
| Base64Laws.DecodedSize | common/base64.hpp:324-327 | a decoding has three quarters of the characters before the first pad, rounded down, and at most the maximal size |
| Base64Laws.RoundTrip | common/base64.hpp:79-244 | decoding undoes encoding for every byte string in the same alphabet or with detection, and in the other alphabet if and only if no special character occurs |
| Base64Laws.SextetsOfOctets | common/base64.hpp:199-244 | the six-bit groups of the bytes read are the groups read if and only if their number is not one more than a multiple of four and the bits dropped are zero |
| Base64Laws.CanonicalExactly | common/base64.hpp:79-244 | encoding undoes decoding if and only if the text is canonical in the sense of section 3.5 of RFC 4648 |
| Base64Laws.DetectionAgrees | common/base64.hpp:344-389 | with detection a text decodes as in the standard alphabet, else as in the URL-safe one |
| Base64Laws.DetectionRejects | common/base64.hpp:344-389 | detection rejects bad padding, characters of neither alphabet and texts mixing the special characters of both, and nothing else |
| Spans.MsgSpans.constructor | common/chat.h:167-168 | a new list of spans is empty |
| Spans.MsgSpans.Add | common/chat.h:170-172 | a span is appended and nothing else changes |
| Spans.MsgSpans.IsUserStart | common/chat.h:174-181 | a position is a user start if and only if some user span begins there, compared as 32-bit numbers |
| Spans.MsgSpans.LastUserMessagePos | common/chat.h:183-190 | the start of the last user span, or -1 |
| Spans.Split | common/chat.cpp:150-182 | the scan with its skip iterator returns a new list with the spans that the next rows are about |
| Spans.EffectiveExactly | common/chat.cpp:155-159 | the skips that take effect are disjoint, and the first that does not starts inside the last one that does |
| SpansLaws.SplitExactly | common/chat.cpp:150-182 | the result is the one list of non-empty spans without gaps up to the end that starts exactly at the unskipped positions where a delimiter matches, with the role of the first match |
| SpansLaws.DisjointStarts | common/chat.cpp:155-182 | with skip regions that do not overlap, these are the positions outside all of them where a delimiter matches |
| SpansLaws.UserMessages | common/chat.h:174-190 | after a split, user starts are exactly the unskipped positions where a user delimiter matches first, and the last user position is the greatest of them |
| SpansLaws.MatchesExactly | common/chat.cpp:160-165 | a delimiter matches where its tokens follow each other |
| SpansLaws.ToInt32Exactly | common/chat.h:174-190 | positions are compared as the signed 32-bit numbers they are congruent to |
| Glob.GlobClassMatch | common/common.cpp:727-765 | the class scan accepts a byte if and only if it lies in one of the ranges of the class, or in none when negated, bytes being compared as the platform's char, signed or not |
| Glob.GlobMatch | common/common.cpp:768-812 | the recursive matcher ends and accepts a string if and only if the tokens of the pattern accept it |
| Glob.MatchesIs | common/common.cpp:767-812 | accepting token by token is the same as being cut into consecutive pieces, one per token |
| Glob.GlobMatchStrings | common/common.cpp:814-816 | a string matches if and only if it can be cut into consecutive pieces, one for every token of the pattern |
| Glob.LiteralMatches | common/common.cpp:808-811 | a pattern without special characters matches itself only |
| Glob.StarsTake | common/common.cpp:772-784 | two stars take any piece of the string and one star any piece without a slash, and the rest of the pattern takes the rest |
| Glob.OneTakes | common/common.cpp:785-811 | a question mark takes one character that is no slash, an ordinary character takes itself |
| Glob.RangeTakes | common/common.cpp:727-765 | a class with a range of ASCII characters takes one character of the range, with an exclamation mark any other one |
| Glob.ListTakes | common/common.cpp:727-765 | a class with a list of characters takes one of the list, with an exclamation mark any other one |
| Glob.LeadTakes | common/common.cpp:736-742 | a bracket or a dash in front of a class belongs to it and does not close it |
| Glob.BracketAfterNegation | common/common.cpp:736-742 | a bracket right after the exclamation mark closes the class, which then takes every character |
| Lcs.StringLcs | common/common.cpp:469-488 | the result occurs in both strings, no common substring is longer, and it is the one that ends first in the left string |
| Lcs.SuffixExactly | common/common.cpp:476-486 | a table cell is the length of the longest common suffix of the two prefixes |
| Escapes.ProcessEscapes | common/common.cpp:644-679 | the buffer is rewritten in place to the unescaped text, and what lies behind it is untouched |
| Escapes.NeverLonger | common/common.cpp:678-678 | unescaping never lengthens a text |
| Escapes.UnescapeWritten | common/common.cpp:644-679 | unescaping undoes writing a text with any mixture of plain characters, letter escapes, two-digit escapes, unknown escapes, an x without its two digits among them, and a backslash at the end |
| Escapes.UnitsOf | common/common.cpp:644-679 | every text is written from such units, so its unescaped form is what they mean |
| Escapes.UnescapeDoubled | common/common.cpp:657-657 | a text whose backslashes were doubled comes back unchanged |
| Escapes.HexReads | common/common.cpp:660-668 | a byte written as two digits in base 16 reads as that byte |
| Escapes.UnescapeLetter | common/common.cpp:651-656 | each of the six letters behind a backslash stands for its character, given by its code |
| Escapes.UnescapeHex | common/common.cpp:657-668 | two digits behind a backslash and an x stand for the character with that number |
| Escapes.UnescapeSigned | common/common.cpp:660-668 | strtol also takes one digit behind white space or a sign, and a minus sign counts down from 256 |
| Escapes.UnescapeUnknown | common/common.cpp:670-671 | any other character keeps its backslash |
| Csv.ParseCsvRow | common/arg.cpp:1122-1164 | the index loop returns the fields of the row |
| Csv.RowReads | common/arg.cpp:1118-1164 | reading undoes writing for every non-empty list of fields, each quoted with doubled quotes or bare where that is possible |
| Csv.MinimalQuoting | common/arg.cpp:1118-1164 | quoting just the fields that hold a comma or start with a quote is enough |
| Csv.FieldCount | common/arg.cpp:1145-1159 | a row has one more field than commas outside quotes, where only the quote state and whether the field has begun are tracked |
| Csv.BareExactly | common/arg.cpp:1129-1153 | a field written bare is read back as one field if and only if it holds no comma and does not start with a quote |
| Csv.QuoteAndComma | common/arg.cpp:1129-1153 | the comma separates fields, and doubled quotes inside quotes are one quote |

## Left out

- The PEG engine, the grammars and JSON-schema conversion, apart from the grammar of Gemma 4 arguments and tools, which Gemma4Parse follows combinator by combinator in the lenient mode that the chat parser always uses: other parses are given as event traces. Which traces a grammar can produce is stated by the automaton Next in Stream.dfy, and truncation by Truncate.
- The Jinja runtime and the template handlers and analyser heuristics built on it.
- torch dtypes, lazy tensors and devices: entries are mathematical integers. Indices that are tensors, and steps below 1, are not modelled.
- Floating-point rounding in the low-rank algebra: sums and products are exact.
- Base64, tool-call text and patterns are sequences of characters standing for bytes; UTF-8 and the handling of invalid UTF-8 in JSON dumping are not modelled, and surrogates in `\u` escapes are each read as the replacement character.
- Duplicate keys of a JSON object: reading gives the list of members, not a map.
- `current_tool` is an index in disguise: nowhere, the pending call or the last call. After an unnamed call has been closed it points nowhere here, where the C++ pointer dangles.
- Of a Gemma 4 answer, the markers around the calls, several calls, and reasoning and content beside them.
- Gemma4Stream.ToolGrows: only for function names without a brace; with one it is false (Gemma4Stream.BraceInName).
- Json.QuoteReads: the escaping done by the JSON library is modelled as the per-character map of section 7 of RFC 8259; the library's other functions are not modelled.
- Integer widths: sizes and counters are unbounded, except the positions compared as 32-bit numbers in Spans.
- `filter_tool_calls` in the server's update, and message fields that parsing never sets.
- ChatSession.SetToolCallIds: generated ids are values of a function of how many were generated before, instead of random.
- `convert_llama_ggml_to_gguf.py`, command-line options, downloads, logging, model loading and sampling.
