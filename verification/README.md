# Verification models of the AI gateway

This project models five parts of the gateway and proves properties of them over all inputs, all runs and
all reachable states. Check everything with `dafny verify dfyconfig.toml` (Dafny 4.11).

A Go string or byte slice is a Dafny `string` with one character per byte. Code that works by updating
state is a class or a method with loops; each is proved to compute a specification function, and the
theorems are about those functions.

1. **Responses streaming projector** (`Stream*.dfy`). `StreamModel` gives one function per method of
   `ResponsesStream` over its fields; `StreamClass` is the class itself, proved to do exactly that, for any
   id source and any emit callback that may fail at any event. `StreamInvariant` holds what every call keeps,
   `StreamTrace` the event grammar (a client that replays the log), `StreamFold` the refinement of the
   non-streaming projection in `StreamProject`, `StreamRechunk` the independence of how deltas are cut,
   `StreamCuts` which cuts are harmless, and `StreamOutcome` how a run of the handler ends.
2. **CHECK-clause canonicalizers** (`Check*.dfy`, `Safety*.dfy`, `PlatformCoherence.dfy`,
   `Response{Grammar,Meaning,Complete,Spelling,Clauses,Parser}.dfy`). Two tokenizers, two recursive-descent
   parsers and two printers. A clause has a meaning of its own (three-valued SQL truth on a row); equal
   canonical strings are proved to mean equal truth values, exactly the layouts of clauses are proved to be
   read, no string is printed by both canonicalizers, and the two grammars agree on every clause both accept. `ResponseSpelling` proves which
   spellings are not told apart, `ResponseClauses` that the repository's own clauses are accepted.
3. **Strict JSON scanners** (`Json*.dfy`, `TrimSpace.dfy`). A grammar of JSON texts with every space kept, the
   skippers and the exact-object scanners proved against it, the string decoder against a writer of code points
   (`JsonWriter`), and the render job's stack machine against the recursive duplicate-key validator on token streams.
4. **Canonical intent encoding** (`Intent*.dfy`). The tag/type/length format with readers, exact length
   arithmetic in 64-bit words, sorting and removal of repeats in place, the proof that the encodings are
   canonical and injective, and which intents are accepted (`IntentAcceptance`).
5. **Conversation protocol and resumable migrations** (`Conversation.dfy`, `ResponsesInput.dfy`,
   `ChatDecoding.dfy`, `UpstreamRoundTrip.dfy`, `ResponseIntegrity.dfy`, `CatalogSteps.dfy`,
   `CatalogResume.dfy`).

Where a property one would expect is false of the code, the code is kept, a concrete input shows it, and the
exact condition is proved:

- `JsonAgreement.ScannersAgreeIff`: the two exact-object scanners differ on an empty key list and on a list
  that repeats a key; with keys that can be written in a text they agree on every text exactly otherwise.
- `ResponsesInput.FoldingIsLosslessIff`: a message item that claims the role `tool` folds to the same message
  as a call output without an id; folding loses nothing exactly when there is no such item.
- `StreamCuts.CutSucceedsIff`: the arguments of each tool delta are validated as UTF-8 on their own, the text
  deltas are not. Cutting one delta of a run that succeeds leaves it succeeding exactly when the cut splits no
  character of a tool's arguments; `CuttingACharacterIsRefused` gives a run that does not survive its cut.
- `JsonShape.MachineAgreesIff`: on streams of several values, or of one scalar, the stack machine and the
  recursive validator differ; the lemma says exactly where.
- `UpstreamRoundTrip.EncodeDecodeInversionIff`: validation alone does not bound contents, so an accepted
  conversation comes back from the upstream encoding exactly when every content is one the decoders let
  through. `InvalidTextIsAltered` and `OversizedTextIsRefused` give conversations that do not come back, and
  every conversation the chat or the Responses decoder produces does.
- `ResponseIntegrity.EveryFailureHasACodeIff`: the outcome check is UNKNOWN, not FALSE, on a failed row whose
  code is NULL, and MySQL lets it pass. After a finished migration every row satisfies the check exactly when
  the operation of every failed row held a code; `FailedRowWithoutCodePasses` gives a row that does not.
- `ResponseSpelling.IntroducerIsDropped`: a character set before a string makes no difference exactly when none
  stands there already; `ResponseClauses.SecondCharsetIsRefused` gives a clause that takes one and not two.

A comment in the response tokenizer says the contract has no quote inside a literal; the code reads
doubled quotes as one quote, and the model follows the code.

## Model

| member | source | states |
|---|---|---|
| StreamInvariant.EveryRunKeepsInvariant | internal/openaicompat/responses_stream.go:64-252 | any sequence of Accept, Complete and Failed calls, failed ones included, keeps the invariant: owned slots, call-id map consistent with the tools, buffer limits, gap-free sequence numbers |
| StreamInvariant.EveryRunMatchesSlotsAndOwners | internal/openaicompat/responses_stream.go:164-252 | after any calls on a new stream the output slots correspond one to one to the text item and the started tools |
| StreamInvariant.SlotsAreABijection | internal/openaicompat/responses_stream.go:195-252 | in a state with the invariant two tools never share a call id and no two items own the same slot |
| StreamInvariant.SlotsCountOwners | internal/openaicompat/responses_stream.go:164-252 | there are exactly as many output slots as started tools plus the text item |
| StreamInvariant.IdentitiesAreStable | internal/openaicompat/responses_stream.go:195-216 | across any further calls ids, names and slots once set never change, buffers and the event log only grow, terminal stays terminal |
| StreamInvariant.NewStreamInvariant | internal/openaicompat/responses_stream.go:57-62 | the constructor establishes the invariant |
| StreamInvariant.ToolLimitUnreachable | internal/openaicompat/responses_stream.go:195-200 | by counting indexes, the "too many streamed tool calls" guard never fires on a validated index |
| StreamInvariant.AcceptKeeps | internal/openaicompat/responses_stream.go:64-91 | one Accept keeps the invariant and extends the state, whether it succeeds or fails midway |
| StreamInvariant.CompleteKeeps | internal/openaicompat/responses_stream.go:93-136 | one Complete keeps the invariant and extends the state, even when an emit fails between items |
| StreamInvariant.FailKeeps | internal/openaicompat/responses_stream.go:138-146 | one Failed keeps the invariant and extends the state |
| StreamTrace.EveryRunFollowsGrammar | internal/openaicompat/responses_stream.go:64-162 | on every run of the handler the log replays on a client that accepts only grammatical event sequences, or nothing was emitted; which of the two ends a run has is the matter of StreamOutcome |
| StreamTrace.EveryRunObeysRules | internal/openaicompat/responses_stream.go:93-162 | the p-th event has number p+1, the first two are created and in_progress, an item event follows the one added event of its index, added indexes count up, and a terminal event is last and unique; which one it is, StreamOutcome says |
| StreamTrace.AcceptedTraceRules | internal/openaicompat/responses_stream.go:290-294 | any log a client accepts obeys those rules at every position |
| StreamTrace.ReplayCounts | internal/openaicompat/responses_stream.go:164-252 | in an accepted log the client holds one slot per added event, per-slot delta concatenations and done counts |
| StreamTrace.SuccessfulRunFinishesEveryItem | internal/openaicompat/responses_stream.go:93-136 | after a successful Complete the last event carries the snapshot, every added item is completed and has exactly one output_item.done |
| StreamTrace.DeltaConservation | internal/openaicompat/responses_stream.go:164-252 | the deltas emitted for an item concatenate to its full text or arguments, and a tool that has not started has emitted nothing |
| StreamTrace.AcceptedRunIsInStep | internal/openaicompat/responses_stream.go:64-91 | after accepted chunks a client that replays the log has the state the stream has |
| StreamOutcome.CompletedMeansWhole | internal/handler/gateway_tokens.go:250-292 | on any run of the handler a completed event is sent only when the upstream ended well and every chunk with every delta in it was taken, and then its response holds all the chunks said |
| StreamOutcome.CutShortRunFails | internal/handler/gateway_tokens.go:278-285 | when the upstream breaks off, or a chunk is refused or cannot be delivered, a started stream sends exactly one more event: the failure gateway_upstream_unavailable with the items and usage so far, after progress events only; a stream that had not started sends nothing |
| StreamOutcome.FailureSaysUnavailable | internal/handler/gateway_tokens.go:278-291 | every failed event of a run carries that code, no matter when it is sent, and the output and usage the stream ended in |
| StreamOutcome.ReliableRunEnds | internal/handler/gateway_tokens.go:250-292 | with working callbacks a run ends in completed exactly when the upstream ended well, something was sent, all of it is acceptable and every tool was identified; any other log that is not empty ends in the failure |
| StreamOutcome.RunOpens | internal/openaicompat/responses_stream.go:150-162 | a log that is not empty begins with created and goes on with in_progress or the failure; both openings carry the first chunk's time and no items, error or usage |
| StreamOutcome.ChunksProgress | internal/openaicompat/responses_stream.go:64-91 | before its end a stream sends only events that finish nothing, never empty arguments, and it sends nothing before it has started |
| StreamClass.HandleStream | internal/handler/gateway_tokens.go:250-292 | the handler on an object of the class: feeds the chunks until one is refused, fails or completes the stream, and leaves it in the state of the specified run |
| StreamFold.RunKnows | internal/openaicompat/responses_stream.go:64-91 | after accepted chunks the state is the fold of the deltas: text and arguments concatenated, tools in start order, first chunk's time, last usage |
| StreamFold.CompletedResponseMeaning | internal/openaicompat/responses_stream.go:93-136 | the completed response lists the text message and the calls in start order with the folded contents, in terms of the chunks alone |
| StreamFold.StreamRefinesProjection | internal/openaicompat/responses_response.go:71-106 | the completed snapshot equals ProjectResponse of the folded completion up to item ids and the place of the text item, and the projection fails only for an empty model, an empty output or an id source that leaves one of its draws unanswered |
| StreamFold.ProjectionMeans | internal/openaicompat/responses_response.go:71-106 | a response with the completion's text first and its calls after it has the same meaning as the projected one |
| StreamProject.ProjectFailsIff | internal/openaicompat/responses_response.go:71-106 | the projection fails as malformed, for want of an id, or as empty in exactly the stated cases: the drawn ids are named, the order of the checks fixed |
| StreamProject.ProjectResponse | internal/openaicompat/responses_response.go:71-106 | the loop over the tool calls builds the specified response, ids drawn in order, and reports the first failing draw |
| StreamProject.PartsAreOneText | internal/openaicompat/responses_response.go:108-123 | a content in parts is projected as the text its parts make in order |
| StreamProject.ProjectedFields | internal/openaicompat/responses_response.go:79-106 | place by place, what a projected response holds: the completion's own fields, a completed message when there is text, the calls in order, and the drawn ids in their places |
| StreamRechunk.ChunksAcceptedIff | internal/openaicompat/responses_stream.go:64-91 | with working callbacks a chunk list is accepted exactly when each chunk is valid and the deltas respect the identity and size rules, stated without the state machine |
| StreamRechunk.SucceedsIff | internal/openaicompat/responses_stream.go:93-136 | a whole run succeeds exactly when it is not empty, is accepted and every mentioned tool got an id and a name |
| StreamRechunk.CompletedResponseDetermined | internal/openaicompat/responses_stream.go:93-136 | the completed response, ids included, is a function of the concatenated deltas, the id source, the first time and the last usage |
| StreamRechunk.RechunkingDoesNotMatter | internal/openaicompat/responses_stream.go:64-280 | of two runs whose deltas differ only in how they are cut, across calls or chunks, before or after a tool starts: when one succeeds the other does exactly if its own chunks validate, and the completed responses are equal |
| StreamCuts.ValidRunIff | internal/openaicompat/responses_stream.go:254-280 | all chunks of a run validate exactly when every envelope and every single delta does, however the deltas are grouped |
| StreamCuts.ToolDeltaParts | internal/openaicompat/responses_stream.go:265-277 | a tool delta validates exactly when its index is 0 to 63, its type is absent or function, its arguments are UTF-8 of at most 262144 bytes, and its id and name are valid |
| Limits.CallIDIff | internal/openaicompat/validate.go:82-92 | a call id is valid exactly when it is 1 to 128 visible ASCII characters; the UTF-8 check decides nothing |
| Limits.FunctionNameIff | internal/openaicompat/decode.go:15 | a function name is valid exactly when it is 1 to 64 letters, digits, underscores and hyphens |
| StreamCuts.PiecesValidIff | internal/openaicompat/responses_stream.go:265-277 | the two pieces of a validated delta validate exactly when the cut falls between two characters of its arguments; a text delta may be cut anywhere |
| StreamCuts.CutSucceedsIff | internal/openaicompat/responses_stream.go:64-280 | after one cut, and any regrouping into well-formed chunks, a run that succeeded still does, with the same response, exactly when the cut splits no character of a tool's arguments |
| StreamCuts.JoinSucceeds | internal/openaicompat/responses_stream.go:64-280 | undoing a cut never makes a run fail and never changes its response |
| StreamCuts.CuttingACharacterIsRefused | internal/openaicompat/responses_stream.go:265-277 | a run of one call whose argument is one two-byte character succeeds whole and fails when the character is cut |
| Utf8.ValidCut | internal/openaicompat/responses_stream.go:276 | the two parts of a valid text are both valid exactly when the cut splits no character |
| StreamClass.ResponsesStream.constructor | internal/openaicompat/responses_stream.go:57-62 | the new object is the model's new stream |
| StreamClass.ResponsesStream.Emit | internal/openaicompat/responses_stream.go:290-294 | numbers and logs the event and reports the callback's verdict, changing nothing else |
| StreamClass.ResponsesStream.Snapshot | internal/openaicompat/responses_stream.go:282-288 | the response of the current fields |
| StreamClass.ResponsesStream.Start | internal/openaicompat/responses_stream.go:150-162 | draws the response id once and announces it with the first two events |
| StreamClass.ResponsesStream.AcceptText | internal/openaicompat/responses_stream.go:164-193 | opens the text item on the first delta, bounds the text, emits the delta |
| StreamClass.ResponsesStream.RecordID | internal/openaicompat/responses_stream.go:204-216 | binds a call id late, refusing a change or an id another tool has |
| StreamClass.ResponsesStream.RecordFunction | internal/openaicompat/responses_stream.go:217-231 | binds the name late and buffers arguments within the limit |
| StreamClass.ResponsesStream.AcceptTool | internal/openaicompat/responses_stream.go:195-252 | records, starts the tool once id and name are known, emits the buffered arguments, then the deltas |
| StreamClass.ResponsesStream.Accept | internal/openaicompat/responses_stream.go:64-91 | validates the chunk, starts once, then text and tool deltas in order, stopping at the first failure; without a callback nothing changes |
| StreamClass.ResponsesStream.Complete | internal/openaicompat/responses_stream.go:93-136 | finishes text and tools by output index and emits the terminal event; without a callback nothing changes |
| StreamClass.ResponsesStream.Failed | internal/openaicompat/responses_stream.go:138-146 | emits one failed event on a started, not terminal stream |
| StreamClass.ResponsesStream.CollectTools | internal/openaicompat/responses_stream.go:113-119 | whatever the map's iteration order, all tools are listed once when all have started, and the call fails otherwise |
| StreamClass.SortByOutputIndex | internal/openaicompat/responses_stream.go:120 | the list ordered by output index with the same elements |
| StreamClass.SortedToolsAreBySlot | internal/openaicompat/responses_stream.go:113-120 | any order of collecting, once sorted, is the order of the output slots |
| CheckTokenizer.TokenizeResponse | internal/migration/admin_operation_response.go:166-278 | the loop reads exactly the tokens of the unescaped clause, or fails where the specification does |
| CheckTokenizer.TokenizeBare | internal/migration/admin_operation_safety.go:374-432 | the loop reads exactly the bare tokens of the clause, or fails where the specification does |
| CheckTokenizer.QuoteEnd | internal/migration/admin_operation_response.go:188-216 | the loop over a literal ends at its closing quote with doubled quotes read as one |
| CheckLayout.LexReadsLayout | internal/migration/admin_operation_response.go:166-278 | any spacing, letter case, backticks and hexadecimal spelling of a token list is tokenized back to it |
| CheckLayout.LexBareReadsLayout | internal/migration/admin_operation_safety.go:374-432 | the same for the safety tokenizer's tokens |
| CheckLayoutSound.LexIffLaid | internal/migration/admin_operation_response.go:166-278 | the response tokenizer takes exactly the layouts of tokens, as these tokens |
| CheckLayoutSound.LexBareIffLaid | internal/migration/admin_operation_safety.go:374-432 | the safety tokenizer takes exactly the layouts of its tokens, as their texts |
| CheckLayout.UnescapeUndoes | internal/migration/admin_operation_response.go:167-169 | a backslash before every quote is undone, and a text without backslashes is left alone |
| CheckCharacters.NothingIff | internal/migration/admin_operation_safety.go:611-613 | a text is read as no token exactly when it is spaces, tabs, line feeds, carriage returns and form feeds |
| CheckCharacters.WordIff | internal/migration/admin_operation_response.go:244-252 | a text is one word exactly when it starts with a letter or underscore and goes on with these and digits, and its token has every capital letter made small |
| CheckCharacters.NumberIff | internal/migration/admin_operation_response.go:253-261 | a text is one number exactly when it is decimal digits |
| CheckCharacters.OperatorIff | internal/migration/admin_operation_response.go:262-274 | a text is one operator exactly when it is one of the five |
| CheckCharacters.HexIff | internal/migration/admin_operation_response.go:220-231 | a literal is hexadecimal exactly when it has an even number of the sixteen digits, at least two |
| CheckMeaning.PlainNumberValue | internal/migration/admin_operation_response.go:390-394 | dropping leading zeros keeps the number, zero included |
| CheckMeaning.EvalAllConcat | internal/migration/admin_operation_response.go:445-458 | conjunction over a joined list is the conjunction of the parts, NULLs included |
| CheckMeaning.EvalAnyConcat | internal/migration/admin_operation_response.go:445-458 | disjunction over a joined list is the disjunction of the parts, NULLs included |
| CheckMeaning.PlainNumberIff | internal/migration/admin_operation_response.go:388-394 | two numerals are printed alike exactly when they are the same number |
| CheckMeaning.TruthTables | internal/migration/admin_operation_response.go:445-458 | AND is the lesser, OR the greater of two truth values in the order false, unknown, true, and NOT turns the order round |
| CheckPrint.PrintInjective | internal/migration/admin_operation_response.go:464-473 | two trees with the same canonical string are the same tree |
| CheckPrint.PrintUnique | internal/migration/admin_operation_response.go:464-473 | a printed tree followed by any text can be read in one way only |
| CheckPrintBinary.PrintBinaryInjective | internal/migration/admin_operation_safety.go:439-533 | the nested strings of the safety parser determine the tree |
| CheckPrintBinary.PrintersDisjoint | internal/migration/platform_generation_receipts.go:207-212 | no text starts with both a safety string and a response string |
| ResponseGrammar.ParseIffWritten | internal/migration/admin_operation_response.go:285-427 | a token list parses to a syntax tree exactly when it is what that tree is written with, under the grammar's demands |
| ResponseMeaning.MergeMeaning | internal/migration/admin_operation_response.go:445-458 | flattening one AND or OR chain into another keeps the three-valued truth on every row |
| ResponseMeaning.OrMeaning | internal/migration/admin_operation_response.go:285-427 | the tree the parser builds has the truth value of the clause as written, on every row |
| ResponseMeaning.LexPlain | internal/migration/admin_operation_response.go:166-278 | the names, digits and operators of tokens contain no bracket and no comma, so printed atoms cannot be confused |
| ResponseMeaning.CanonicalIsSound | internal/migration/admin_operation_response.go:151-164 | equal canonical strings exactly for equal trees, and then the clauses agree on every row |
| ResponseComplete.EveryLayoutIsRead | internal/migration/admin_operation_response.go:153-427 | every layout of a clause, with or without escaped quotes, parses to the clause |
| ResponseComplete.ParsesIffLaid | internal/migration/admin_operation_response.go:153-427 | a clause parses to a tree exactly when, its quotes unescaped, it is a layout of the tokens of that tree |
| ResponseComplete.RegroupingAnd | internal/migration/admin_operation_response.go:300-313 | any bracketing of one AND chain makes the same tree |
| ResponseComplete.RegroupingOr | internal/migration/admin_operation_response.go:285-298 | any bracketing of one OR chain makes the same tree |
| ResponseComplete.AndBracketsDropped | internal/migration/admin_operation_response.go:326-334 | brackets around a conjunction used as an operand change neither its tree nor whether it is allowed |
| ResponseComplete.OrBracketsDropped | internal/migration/admin_operation_response.go:326-334 | nor do brackets around a disjunction |
| ResponseComplete.ParseUndoesUnparse | internal/migration/admin_operation_response.go:153-473 | every flattened tree is the tree of some clause: printing it as a clause and parsing gives it back |
| ResponseSpelling.LengthNamesAreOne | internal/migration/admin_operation_response.go:411-425 | for all clauses, exchanging length and octet_length in any call, whatever the letter case, changes neither acceptance nor the canonical string |
| ResponseSpelling.IntroducerIsDropped | internal/migration/admin_operation_response.go:400-408 | for all clauses, putting _utf8mb4 or _ascii before a string, or dropping it, changes neither, unless a character set already stands there: the clause with two is refused |
| ResponseClauses.SecondCharsetIsRefused | internal/migration/admin_operation_response.go:400-408 | a clause that is accepted with one character set before its string and refused with two |
| ResponseSpelling.SameIsCanonical | internal/migration/admin_operation_response.go:372-427 | the same for any number of such differences at once |
| ResponseSpelling.StrayIntroducerIsRefused | internal/migration/admin_operation_response.go:400-408 | a clause with a character set before anything but a string or a closing bracket is refused |
| ResponseClauses.WrittenIsParsed | internal/migration/admin_operation_response.go:153-427 | every clause of the grammar, written as the repository writes them, with keywords and functions in capitals, parses to that clause |
| ResponseClauses.HttpIsAccepted | internal/migration/admin_operation_response.go:44 | the contract's clause on status and media type is accepted |
| ResponseClauses.BodyIsAccepted | internal/migration/admin_operation_response.go:45 | the contract's clause on the two lengths is accepted, and its canonical string is the one written out |
| ResponseClauses.LifecycleIsAccepted | internal/migration/admin_operation_response.go:46 | the contract's clause on the two states of a snapshot is accepted |
| ResponseParser.Merge | internal/migration/admin_operation_response.go:445-458 | a node of the kind whose children are both operands' with chains of that kind opened up |
| ResponseParser.CanonicalText | internal/migration/admin_operation_response.go:464-473 | the node's own string, children joined in order |
| ResponseParser.TextIsPrint | internal/migration/admin_operation_response.go:464-473 | the string of a tree's node is the tree's print |
| ResponseParser.CheckParser.ParseOr | internal/migration/admin_operation_response.go:285-298 | reads what the grammar reads, moves the position there, and builds the node of that syntax |
| ResponseParser.CheckParser.ParseAnd | internal/migration/admin_operation_response.go:300-313 | the same for AND chains |
| ResponseParser.CheckParser.ParseNot | internal/migration/admin_operation_response.go:315-324 | the same for negations |
| ResponseParser.CheckParser.ParsePrimary | internal/migration/admin_operation_response.go:326-370 | the same for brackets and predicates |
| ResponseParser.CheckParser.ParseTail | internal/migration/admin_operation_response.go:337-369 | the same for a predicate after its left operand |
| ResponseParser.CheckParser.ParseScalar | internal/migration/admin_operation_response.go:372-427 | the same for operands, whose text is the operand's print; which names it takes for functions and character sets, ResponseSpelling says |
| ResponseParser.CheckParser.MatchWord | internal/migration/admin_operation_response.go:429-435 | advances by one exactly on that word |
| ResponseParser.CheckParser.MatchKind | internal/migration/admin_operation_response.go:437-443 | advances by one exactly on that token |
| ResponseParser.Canonicalize | internal/migration/admin_operation_response.go:153-164 | tokenizer, parser and printer together compute the specified canonical string or fail |
| SafetyGrammar.ParseIffWritten | internal/migration/admin_operation_safety.go:439-573 | a bare token list parses to a syntax tree exactly when it is what that tree is written with |
| SafetyMeaning.ListMeaning | internal/migration/admin_operation_safety.go:492-511 | an IN list means equality with one of its numbers, NULLs included |
| SafetyMeaning.OrMeaning | internal/migration/admin_operation_safety.go:439-533 | the tree has the truth value of the clause as written, on every row |
| SafetyMeaning.CanonicalIsSound | internal/migration/admin_operation_safety.go:364-372 | equal canonical strings exactly for equal trees, and then the clauses agree on every row |
| SafetyMeaning.EveryLayoutIsRead | internal/migration/admin_operation_safety.go:374-573 | every layout of a clause, with any brackets its syntax has, parses to the clause |
| SafetyMeaning.ParsesIffLaid | internal/migration/admin_operation_safety.go:374-573 | a clause parses to a tree exactly when it is a layout of the tokens of that tree |
| SafetyComplete.ParseUndoesUnparse | internal/migration/admin_operation_safety.go:364-573 | every binary tree over lower-case names and numbers without leading zeros is read back from the clause written for it |
| SafetyComplete.TreesAreWritten | internal/migration/admin_operation_safety.go:364-573 | the trees of safety clauses are exactly those |
| SafetyMeaning.ImagesAreDisjoint | internal/migration/platform_generation_receipts.go:207-212 | the two canonicalizers never produce the same string |
| SafetyMeaning.PlatformCanonicalIsSound | internal/migration/platform_generation_receipts.go:195-212 | the two-parser fallback is sound: equal strings come from the same parser and mean the same on every row under it |
| PlatformCoherence.GrammarsAgree | internal/migration/platform_generation_receipts.go:207-212 | a clause that both parsers accept has the same truth value on every row under both, though they tokenize, nest and read the word NOT differently |
| PlatformCoherence.LexAgrees | internal/migration/platform_generation_receipts.go:207-212 | on a text the safety parser accepts the two tokenizers read the same tokens |
| PlatformCoherence.EqualStringsMeanTheSame | internal/migration/platform_generation_receipts.go:195-212 | clauses with one platform string have one truth value on every row, whichever accepting parser is asked |
| SafetyParser.ClauseParser.ParseOr | internal/migration/admin_operation_safety.go:439-452 | reads what the grammar reads and returns the printed tree, chains nested to the left |
| SafetyParser.ClauseParser.ParseAnd | internal/migration/admin_operation_safety.go:454-467 | the same for AND chains |
| SafetyParser.ClauseParser.ParsePrimary | internal/migration/admin_operation_safety.go:469-533 | the same for brackets and predicates |
| SafetyParser.ClauseParser.ParseIn | internal/migration/admin_operation_safety.go:492-511 | the same for IN lists |
| SafetyParser.ClauseParser.ParseComparisonValue | internal/migration/admin_operation_safety.go:535-544 | a column in its wrapper or a number |
| SafetyParser.ClauseParser.ParseNumber | internal/migration/admin_operation_safety.go:546-565 | counting brackets first and closing as many reads exactly the nested grammar |
| SafetyParser.ClauseParser.Match | internal/migration/admin_operation_safety.go:567-573 | advances by one exactly on that token |
| SafetyParser.Canonicalize | internal/migration/admin_operation_safety.go:364-372 | tokenizer and parser together compute the specified canonical string or fail |
| SafetyParser.CanonicalizePlatform | internal/migration/platform_generation_receipts.go:207-212 | the fallback computes the safety string when there is one, else the response string |
| JsonString.BodyIsInner | internal/dto/admin_user_action.go:387-435 | a text between quotes is a whole token for the skipper exactly when the decoder's reading succeeds, with the same characters |
| JsonString.BodySound | internal/dto/admin_user_action.go:387-435 | what the skipper spans is a string of RFC 8259, section 7, with paired surrogates |
| JsonString.BodyComplete | internal/dto/admin_user_action.go:387-435 | every such string is spanned exactly, whatever follows it |
| JsonDecode.EncodeDecodes | internal/dto/admin_user_action.go:555 | every scalar value is encoded as one well-formed character that decodes to it (RFC 3629, section 3) |
| JsonDecode.DecodeEncodes | internal/dto/admin_user_action.go:562-569 | every well-formed character is the encoding of its code point |
| JsonDecode.PairsAreUnique | internal/dto/admin_user_action.go:539-550 | each code point above 0xFFFF has exactly one surrogate pair |
| JsonDecode.DecodedIsUtf8 | internal/dto/admin_user_action.go:500-573 | the decoded bytes are the UTF-8 encoding of the code points the string denotes, and so well formed |
| JsonWriter.ReadIffWritten | internal/dto/admin_user_action.go:500-573 | the decoder takes exactly the texts that may be written for some code points under section 7 of RFC 8259 (as themselves, by the eight short escapes with their values, by four hexadecimal digits, by a surrogate pair), and its result is the UTF-8 of those code points |
| JsonWriter.UnitIff | internal/dto/admin_user_action.go:613-632 | four characters have a value exactly when they are its hexadecimal digits in either case |
| TrimSpace.SpaceIff | internal/dto/admin_user_action.go:501 | of the code points exactly the 25 that are space in Unicode are trimmed |
| TrimSpace.SpaceIsEncoded | internal/dto/admin_user_action.go:501 | and nothing but the encoding of such a code point is |
| JsonStringScan.ParseHex4 | internal/dto/admin_user_action.go:613-632 | four hexadecimal digits as a 16-bit number, nothing else |
| JsonStringScan.SkipString | internal/dto/admin_user_action.go:387-435 | the offset just after the string token, or failure exactly when there is none |
| JsonStringScan.Decode | internal/dto/admin_user_action.go:500-573 | after trimming Unicode space, succeeds exactly on a quoted text that may be written for some code points, and returns the UTF-8 encoding of those code points |
| JsonStringScan.PaddingDoesNotMatter | internal/dto/admin_user_action.go:501 | a quoted token with any Unicode space around it is trimmed to the token itself |
| JsonStringScan.ReadableIsValid | internal/dto/admin_user_action.go:502-504 | the UTF-8 check before the decoder's loop rejects nothing the loop would accept |
| JsonStringScan.SkipperAgreesWithDecoder | internal/dto/admin_user_action.go:387-573 | on a quoted text the skipper spans all of it exactly when the decoder succeeds |
| JsonStringScan.ValidStringTokens | internal/dto/admin_user_edit.go:131-190 | true exactly when every quote met outside a token starts a string the skipper accepts |
| JsonTokens.DocumentsPass | internal/dto/admin_user_edit.go:131-190 | the token check passes every document the skippers accept |
| JsonNumber.NumberComplete | internal/dto/admin_user_action.go:449-490 | every number of RFC 8259, section 6, is spanned exactly before a space, comma, bracket or the end |
| JsonNumber.NumberSound | internal/dto/admin_user_action.go:449-490 | what the number skipper spans is such a number |
| JsonGrammar.ReadIffWritten | internal/dto/admin_user_action.go:302-490 | a text reads as a document exactly when it is what that document, spaces included, is written as |
| JsonGrammar.SpaceAroundIff | internal/dto/admin_user_action.go:290-300 | the space around a value is spaces, tabs, line feeds and carriage returns and nothing else |
| JsonGrammar.WholeNumberIff | internal/dto/admin_user_action.go:457-465 | a text is a whole number exactly when it is one digit, or several that do not begin with 0 |
| JsonSkip.SkipSpace | internal/dto/admin_user_action.go:290-300 | the first offset that is not a space |
| JsonSkip.SkipValue | internal/dto/admin_user_action.go:302-322 | ends just after the value, strictly further and never past the end, exactly when there is one |
| JsonSkip.SkipObject | internal/dto/admin_user_action.go:324-358 | the same for objects |
| JsonSkip.SkipArray | internal/dto/admin_user_action.go:360-385 | the same for arrays |
| JsonSkip.SkipLiteral | internal/dto/admin_user_action.go:437-447 | the same for the three words |
| JsonSkip.SkipNumber | internal/dto/admin_user_action.go:449-490 | the same for numbers |
| JsonObject.ScanExactAccepts | internal/dto/admin_user_action.go:195-269 | accepts exactly the documents that are one object holding each key once, unescaped, and nothing else; the UTF-8 check before it decides nothing |
| JsonObject.ScanCreateAccepts | internal/dto/admin_user_create.go:235-306 | accepts exactly the non-empty objects with allowed keys, none twice, the required ones included |
| JsonObjectMeaning.ScanExactMeans | internal/dto/admin_user_action.go:195-269 | the first scanner answers with some values exactly when the text is an object with as many members as keys, their keys written without a backslash, one for each key, whose value texts are the values in the order of the keys |
| JsonObjectMeaning.ScanCreateMeans | internal/dto/admin_user_create.go:235-306 | the second answers exactly when the text is an object with some member, none named twice, all plainly written and allowed, the required ones there; each place tells whether its key is there and with what text |
| JsonObject.DocumentIsUtf8 | internal/dto/admin_user_action.go:196-198 | every accepted document is well-formed UTF-8 |
| JsonObject.OrderAndSpacingDoNotMatter | internal/dto/admin_user_action.go:195-269 | objects with the same keys and value texts get the same answer in any member order and with any spacing |
| JsonAgreement.UnescapedKeyDenotesItself | internal/dto/admin_user_action.go:230-235 | a key without a backslash denotes the very bytes it is written with |
| JsonAgreement.ScannersAgreeIff | internal/dto/admin_user_create.go:246-306 | with required = allowed the two scanners agree on every text exactly when the key list is not empty and repeats no key |
| JsonAgreement.RepeatedKeyTellsApart | internal/dto/admin_user_create.go:246-306 | with a repeated key the second scanner accepts an object the first refuses |
| JsonAgreement.NoKeysTellApart | internal/dto/admin_user_action.go:215-221 | with no keys the first scanner accepts the empty object the second refuses |
| JsonObjectScan.FindKey | internal/dto/admin_user_action.go:271-288 | the first position of the key in the list, or -1 when it is not there |
| JsonObjectScan.ScanExactAt | internal/dto/admin_user_action.go:206-269 | the loop with its seen marks and value slices computes the scanner function and stops just after the object |
| JsonObjectScan.ScanExactObject | internal/dto/admin_user_action.go:195-204 | the whole scan computes the scanner function |
| JsonObjectScan.ScanCreateAt | internal/dto/admin_user_create.go:246-306 | the second loop computes the second scanner function |
| JsonObjectScan.ScanCreateObject | internal/dto/admin_user_create.go:235-244 | the whole second scan computes it |
| JsonShape.ShapeAcceptsIff | cmd/public-render-job/main.go:236-295 | on the tokens of any values: accepted exactly when one of them is an object or array and no object repeats a key or nests deeper than 8 |
| JsonShape.ValidatesIff | internal/dto/strict_json.go:13-77 | accepted exactly when there is one value and it repeats no key and nests no deeper than the limit |
| JsonShape.MachineRefinesValidator | cmd/public-render-job/main.go:236-295 | on one object or array the stack machine and the recursive validator with depth 8 agree |
| JsonShape.MachineAgreesIff | cmd/public-render-job/main.go:236-295 | on any stream they agree except for a lone scalar and for one fitting container among scalars |
| JsonShape.ErrorsAreRefused | cmd/public-render-job/main.go:243-251 | a stream in which the decoder reports an error, wherever it comes, is accepted by neither check |
| JsonShapeScan.InvalidShape | cmd/public-render-job/main.go:236-295 | the loop over depth, roots, stack and expectKey, with its return on a decoder error, returns false exactly for accepted streams |
| JsonShapeScan.Decoder.Check | internal/dto/strict_json.go:19-67 | the recursive closure consumes one value or fails, as specified |
| JsonShapeScan.ValidateNoDuplicates | internal/dto/strict_json.go:13-77 | succeeds exactly for validated streams |
| IntentBytes.ItemLengthIsExact | internal/actionsecurity/encode.go:42-51 | in wrapping 64-bit arithmetic the sum never wraps, and it succeeds exactly when the true total fits in 32 bits |
| IntentBytes.FieldsAreRead | internal/actionsecurity/encode.go:55-73 | fields written one after the other are taken apart again, tags, types and payloads |
| IntentBytes.ArrayIsRead | internal/actionsecurity/encode.go:105-136 | an array payload is taken apart into its items |
| IntentBytes.ArrayLengthIsExact | internal/actionsecurity/encode.go:105-136 | the length in an array's header is the number of bytes that follow |
| IntentBytes.BigEndianIsRead | internal/actionsecurity/encode.go:60-62 | a number that fits is recovered from its big-endian bytes |
| IntentEncoder.ArrayPayloadLength | internal/actionsecurity/encode.go:149-162 | the running total is the true size of the encoded array, or failure exactly when it exceeds 32 bits |
| IntentEncoder.CheckedArrayPayloadLength | internal/actionsecurity/encode.go:27-40 | the true payload length, or failure exactly for a wrong count or a length over 32 bits |
| IntentEncoder.CheckOverrides | internal/actionsecurity/intent_users.go:190-203 | passes exactly when the encoded overrides fit in 32 bits |
| IntentEncoder.IntentWriter.FieldHeader | internal/actionsecurity/encode.go:55-65 | appends a header, or leaves the buffer alone when the length does not fit |
| IntentEncoder.IntentWriter.WriteOne | internal/actionsecurity/encode.go:67-73 | appends one field, or leaves the buffer alone |
| IntentEncoder.IntentWriter.FieldNullableString | internal/actionsecurity/encode.go:82-87 | nil and every string get different fields |
| IntentEncoder.IntentWriter.FieldInt64 | internal/actionsecurity/encode.go:89-93 | appends the two's complement bytes |
| IntentEncoder.IntentWriter.FieldArray | internal/actionsecurity/encode.go:105-136 | appends a header whose length is exact, the count and every item, or leaves the buffer alone |
| IntentUsers.PrecheckIsExact | internal/actionsecurity/intent_users.go:141-150 | capability length + 16 per override is, byte for byte, the size of the encoded array |
| IntentUsers.PrechecksAreComplete | internal/actionsecurity/intent_users.go:90-128 | once the prechecks pass only the role can still be too long for its field |
| IntentUsers.UniqueFits | internal/actionsecurity/intent_users.go:101-123 | removing repeated models never makes the array longer than the one that was checked |
| IntentUsers.ModelsAgreeIff | internal/actionsecurity/intent_users.go:105-123 | the encoded models are equal exactly for equal sets of models |
| IntentUsers.SortedOverridesAgreeIff | internal/actionsecurity/intent_users.go:129-153 | the encoded overrides are equal exactly for equal sets of overrides |
| IntentUsers.CreateEncodingIsCanonicalAndInjective | internal/actionsecurity/intent_users.go:85-188 | two accepted account intents encode alike exactly when they agree on every field, on the set of models and on the set of overrides |
| IntentUsers.PermissionsEncodingIsCanonicalAndInjective | internal/actionsecurity/intent_users.go:230-259 | accepted promotion or permission intents encode alike exactly when they agree on everything up to override order and space around the reason |
| IntentAcceptance.PermissionsAcceptedIff | internal/actionsecurity/intent_users.go:230-363 | a promotion (least version 0) or a permission write (1) is encoded exactly when the target is positive, both versions fit, the trimmed reason is 1 to 200 characters of UTF-8, the overrides fit in 32 bits, none is named twice, and each denies a capability in use or grants one that is grantable and not root-only; otherwise which of the two errors, in the order of the checks |
| IntentAcceptance.AcceptedGrants | internal/actionsecurity/intent_users.go:336-341 | an accepted intent grants nothing that is root-only or not grantable and names nothing unknown or out of use |
| IntentAcceptance.DenialIsNeverRefused | internal/actionsecurity/intent_users.go:336-341 | adding the denial of a capability in use to an accepted intent leaves it accepted, unless it is named twice or the whole grows too large |
| IntentAcceptance.AccountAcceptedIff | internal/actionsecurity/intent_users.go:85-188 | an account intent is encoded exactly when its role is the action's, its plan is 1 to 3, its limit is 0 to 2147483647, its texts are UTF-8 and not empty, the group is positive, sizes fit and no capability is named twice; otherwise which error |
| IntentReader.PermissionsAreRead | internal/actionsecurity/intent_users.go:230-313 | a reader written from the tags and type bytes alone gives an accepted intent back, overrides by capability, reason trimmed |
| IntentReader.AccountIsRead | internal/actionsecurity/intent_users.go:155-187 | and an account intent, models in order and none twice |
| IntentReader.LessIff | internal/actionsecurity/intent_users.go:111 | the order is the byte order: a proper beginning, or smaller where they first differ |
| IntentReader.ExampleBytes | internal/actionsecurity/intent_users_test.go:24-105 | the two byte strings the repository's tests expect of a promotion and of a permission write |
| IntentText.ReasonOkIff | internal/actionsecurity/intent_users.go:390-394 | a reason passes exactly when it is the UTF-8 encoding of 1 to 200 code points |
| IntentOrder.StrictIsUnique | internal/actionsecurity/intent_users.go:111-117 | a strictly ordered list is determined by its elements |
| IntentOrder.AnySortIsSortBy | internal/actionsecurity/intent_users.go:136-139 | an unstable sort makes no difference when no two capabilities are equal |
| IntentOrder.RepeatsAreNeighbours | internal/actionsecurity/intent_users.go:136-140 | after sorting, comparing neighbours finds every repeated capability |
| IntentOrder.InsertionSort | internal/dto/admin_user_create.go:357-361 | the swap loop leaves an ordered permutation |
| IntentOrder.CompactInPlace | internal/actionsecurity/intent_users.go:112-117 | the repeats are removed into the front of the same slice |
| IntentOrder.SortUniqueInPlace | internal/actionsecurity/intent_users.go:111-117 | sorting and compacting in place leave the models' set in order |
| IntentEncoder.EncodeCreateAccount | internal/actionsecurity/intent_users.go:85-188 | the result is the specified encoding or error on every path, and the caller's password buffer is all zeros afterwards |
| IntentEncoder.EncodePermissionOverrides | internal/actionsecurity/intent_users.go:315-363 | the specified items or the first error in the order of the checks; which overrides pass, IntentAcceptance says |
| IntentEncoder.EncodePermissionsIntent | internal/actionsecurity/intent_users.go:230-313 | the specified encoding or error for both permission intents; which are accepted, IntentAcceptance says |
| Conversation.Validate | internal/openaicompat/validate.go:36-79 | the one pass over declared and open ids decides as specified |
| Conversation.DeclareCalls | internal/openaicompat/validate.go:56-66 | an assistant's calls are declared exactly when all are valid, distinct and new |
| Conversation.AcceptsIffGrammatical | internal/openaicompat/validate.go:36-79 | accepted exactly when the messages are fine on their own and form blocks: a message without calls, or calls followed at once by one answer each in some order, all call ids distinct |
| Conversation.AloneIff | internal/openaicompat/validate.go:36-55 | one message without calls is a valid conversation exactly when it is of a known role but a tool's, has a content, answers nothing, and holds reasoning only as the assistant's, of at most 1048576 bytes |
| Conversation.OneCallIff | internal/openaicompat/validate.go:56-72 | one call and one answer are valid exactly when the answer names the call and id, name and arguments obey their limits, given in numbers |
| ResponsesInput.DecodeInput | internal/openaicompat/responses_request.go:138-212 | the loop that appends and edits the last message computes the fold, or the first item's error |
| ResponsesInput.DecodeErrorIff | internal/openaicompat/responses_request.go:138-212 | an item list is refused with an error exactly when it is empty or that is the error of its first bad item; too large is only a call's arguments over 262144 bytes or an output over 1048576 |
| ResponsesInput.FoldingIsLosslessIff | internal/openaicompat/responses_request.go:138-212 | unfolding gives back the items in order, without ids and statuses, exactly when no message item claims the tool role |
| ResponsesInput.ToolMessageLooksLikeOutput | internal/openaicompat/responses_request.go:154-171 | such an item folds to what an output without a call id folds to |
| ResponsesInput.CallsAreGathered | internal/openaicompat/responses_request.go:172-193 | no two adjacent messages are call-only |
| ResponsesInput.FoldedIsValidIff | internal/openaicompat/responses_request.go:138-212 | the folded list validates exactly when the items are messages of known roles and runs of valid calls, each followed at once by one output per call, all call ids distinct |
| UpstreamRoundTrip.EncodeUpstreamMessages | internal/openaicompat/upstream.go:75-90 | the two loops build the specified message list for a valid conversation and fail otherwise |
| UpstreamRoundTrip.DecodeCallsLoop | internal/openaicompat/chat_request.go:195-203 | the calls in order, or the first error |
| UpstreamRoundTrip.DecodeMessagesLoop | internal/openaicompat/chat_request.go:120-127 | the messages in order, or the first error |
| ChatDecoding.MessageIff | internal/openaicompat/chat_request.go:158-218 | a chat message is decoded to a message exactly as described for its role: null reads as the empty text, for the assistant as no content; only a user sends parts; the assistant's valid reasoning details are dropped, bad or foreign ones refused; calls in order with at most 262144 bytes of arguments |
| ChatDecoding.TooLargeIff | internal/openaicompat/chat_request.go:199-214 | refused as too large exactly when it is a tool's text over 1048576 bytes, or the first bad call of an otherwise good assistant message is over its limit; every other refusal is an invalid request |
| UpstreamRoundTrip.DecodedContentIsOk | internal/openaicompat/chat_request.go:158-218 | every decoded message has a content that survives encoding, the way and decoding |
| UpstreamRoundTrip.MessageComesBackIff | internal/openaicompat/chat_request.go:158-218 | a valid message comes back, developer read as system and raw JSON compacted, exactly when its content survives and its answered id is valid UTF-8 |
| UpstreamRoundTrip.EncodeDecodeInversionIff | internal/openaicompat/upstream.go:75-117 | for every accepted conversation: decoding what is sent gives instructions then messages exactly when every content survives; the result is accepted again and sends the same messages again |
| UpstreamRoundTrip.UnchangedIff | internal/openaicompat/upstream.go:85 | and they come back without any change of their contents exactly when their raw JSON was compact |
| UpstreamRoundTrip.ChatConversationComesBack | internal/openaicompat/chat_request.go:120-127 | every accepted conversation decoded from a chat request comes back |
| UpstreamRoundTrip.ResponsesConversationComesBack | internal/openaicompat/responses_request.go:110-136 | every accepted conversation decoded from a Responses request, instructions included, comes back unchanged |
| UpstreamRoundTrip.InvalidTextIsAltered | internal/openaicompat/upstream.go:85 | an accepted system text that is not UTF-8 comes back as another text |
| UpstreamRoundTrip.OversizedTextIsRefused | internal/openaicompat/upstream.go:85 | an accepted system text over the limit is refused when decoded |
| ResponseIntegrity.RunKeepsPrefix | internal/migration/admin_response_integrity.go:11-57 | a run cut or failing at any call leaves a recognised stage: DDL committed at most once and in order, backfills after their column, the check after a backfill |
| ResponseIntegrity.RunsKeepPrefix | internal/migration/admin_response_integrity.go:11-57 | so does any number of interrupted runs from a fresh schema |
| ResponseIntegrity.ResumeAlwaysFinishes | internal/migration/admin_response_integrity.go:11-57 | then one run without faults succeeds exactly when every original row succeeded with a result or failed without one under a public or NULL error code, has every DDL statement committed exactly once over the whole history, and the rows filled once |
| ResponseIntegrity.SuccessMakesEveryCall | internal/migration/admin_response_integrity.go:11-57 | a run that succeeds started at a recognised stage, executed exactly the statements left from there, the backfill always among them, probed the stage at the start and after each DDL statement, and none of these calls failed |
| ResponseIntegrity.OutcomeOkIff | internal/migration/sql/0009_admin_response_integrity.up.sql:19-23 | which rows the check lets pass under three-valued logic, and on which it is UNKNOWN |
| ResponseIntegrity.EveryFailureHasACodeIff | internal/migration/sql/0009_admin_response_integrity.up.sql:14-23 | after a finished migration the check is TRUE of every row exactly when the operation of every failed row held an error code |
| ResponseIntegrity.FailedRowWithoutCodePasses | internal/migration/sql/0009_admin_response_integrity.up.sql:15-23 | a failed row whose operation lost its code migrates with a NULL failure code |
| ResponseIntegrity.UnrecognisedExecutesNothing | internal/migration/admin_response_integrity.go:61-93 | a schema that is no stage, or a failed first probe, leaves the database alone |
| ResponseIntegrity.FillingTwice | internal/migration/admin_response_integrity.go:38-43 | the backfill is idempotent |
| ResponseIntegrity.EachDdlOnce | internal/migration/admin_response_integrity.go:20-54 | at the final stage each DDL statement occurs once in the history |
| ResponseIntegrity.Connection.Execute | internal/migration/admin_response_integrity.go:21-48 | a statement may be lost, commit with its answer lost, or work |
| ResponseIntegrity.ApplyMigration | internal/migration/admin_response_integrity.go:11-57 | the migration as written, statement by statement and probe by probe, is the specified run |
| CatalogSteps.ApplySteps | internal/migration/public_pricing_catalog_metadata.go:43-70 | the loop over the steps produces the specified trace and verdict |
| CatalogSteps.StepsAreSafe | internal/migration/public_pricing_catalog_metadata.go:43-70 | whatever the callbacks answer: no table is touched before all earlier ones verified, a statement runs at most once, every event is followed by what its answer demands (a count of 0 by the statement, a count of all columns or a statement that went through at once by the verification, a passed verification by the next table), a run stops only on a refusal, and success means every table verified |
| CatalogSteps.VerdictIff | internal/migration/public_pricing_catalog_metadata.go:43-70 | a run succeeds exactly when every table has verified |
| CatalogResume.ResumeAlwaysFinishes | internal/migration/public_pricing_catalog_metadata.go:12-70 | over a database whose calls may be lost before or after they take effect: after any number of runs from tables with none or all of their columns, one undisturbed run succeeds and completes every table |
| CatalogResume.UndisturbedRunSucceedsIff | internal/migration/public_pricing_catalog_metadata.go:43-70 | from any tables an undisturbed run succeeds exactly when each has none of its columns, or all of them as defined |
| CatalogResume.RunsKeepReady | internal/migration/public_pricing_catalog_metadata.go:43-70 | no run makes a table worse, and a complete table stays complete |
| CatalogResume.EachStatementOnce | internal/migration/public_pricing_catalog_metadata.go:43-70 | over any number of runs each statement takes effect at most once, and then its table is complete |

## Left out

- A Responses input that is a single string, which decodes like one user message item, and the joining of text parts into one text.
- Random identifiers: the id source is an uninterpreted sequence that may fail; ids are compared, not generated.
- HTTP handlers, SSE writing and routing; only the order in which the handler calls Accept, Complete and Failed is modelled.
- JSON marshalling of events and responses, and `encoding/json` decoding of requests: decoded values and token streams are datatypes, and decode errors on unknown or mistyped fields are not modelled.
- The other checks of `validateConversation` (model, tools, tool choice, reasoning switches), tool and tool-choice decoding, and sampling parameters: independent local checks.
- In the upstream round trip an array of parts is raw JSON: whether it is acceptable and its compact form are parameters, and json.Marshal followed by json.Unmarshal changes a text only by replacing bytes that are no UTF-8.
- In the meaning of clauses LENGTH and OCTET_LENGTH are one function, charset introducers do not change a literal, and column types, collations and comparison results are parameters of the row. A backticked keyword is read as the keyword, as in the code.
- Body size limits and readers of request bodies, secret clearing of intermediate buffers, constant-time comparison.
- Reset-password, demote and delete-user intents use the same fields as the modelled ones and would add only easy members; HMAC and key derivation stop at the encoded bytes.
- `strings.TrimSpace` on reasons and the permission catalog are parameters of the permission encoders; `sort.Strings` and `sort.Slice` appear as an insertion sort of which only "ordered permutation" is used.
- IntentEncoder.EncodePermissionsIntent: one method for both permission intents, which differ in the least permissions version they accept.
- The other migrations, table contracts and information_schema queries: a migration statement is an atomic step on the probed counts and the outbox rows; rows do not change between runs.
- CatalogResume.ResumeAlwaysFinishes: a catalog statement is one step that makes exactly its table's new columns, as defined; the SQL text is not modelled.
