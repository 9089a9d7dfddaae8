# Streaming chat turn: a Dafny model

This project models the parts of a retrieval-augmented chat service that
process one streamed answer. The service asks a vendor workflow application
(Bailian, through the DashScope SDK) for a streamed answer. It turns the
vendor's frames into JSON events, forwards them to the browser as
server-sent events, and saves a log of the turn. The browser escapes,
accumulates and de-duplicates what it receives.

The model covers, as Dafny:

- **The producer's retry rule** (`Producer`). At most three calls are made.
  A failure is retried only when the call yielded nothing and it was not the
  last attempt. The queue then holds the frames in order, followed by one
  sentinel or one exception.
- **The consumer's frame loop** (`StreamTurn`, with the pieces it uses in
  `PartialJson`, `ServiceSources`, `TokenUsage` and `Smoothing`). The class
  `StreamTurn.Turn` holds the four turn counters: `last_text_len`,
  `finished_emitted`, the accumulated workflow content and the workflow
  sequence-id watermark. Its methods update them frame by frame. Each frame
  goes through these steps:
  - the sequence-id watermark on workflow messages;
  - finish detection;
  - the full JSON decode, or the tolerant `llm_result` scanner on a truncated
    prefix with its three-escape fallback, then the plain-text fallback;
  - the balanced-bracket extractor for `rag_result` and `web_result`;
  - the cumulative-to-delta cut;
  - source normalisation over the three knowledge-base shapes and the web
    results;
  - token usage, with the per-model sum;
  - smoothing of large deltas into sub-chunks;
  - the rule that a turn emits its finish exactly once.

  `TurnProperties` proves what the whole turn promises. At most one emitted
  event is finishing, and usage, latency and evidence ride only on that
  event. While each recovered text extends the previous one, the emitted
  texts concatenate to the last recovered text.
- **`ChatLog.sources`** (`ChatLogSources`): the tagged source list rebuilt
  from a stored log's metadata.
- **The `/ask` endpoint** (`ChatRouter`):
  - the empty-question check;
  - the fold of the event stream into what is saved (text concatenated, other
    fields last-truthy-wins, the request id never `"init"`);
  - the SSE framing;
  - the save condition.
- **The browser** (`Frontend`). This covers:
  - `escapeHtml`, proved equal to a per-character entity map and undone by
    an unescaper;
  - the de-duplicating merge of sources, proved to keep the list's prefix and
    its freedom from duplicates;
  - the splitting of a network chunk into `data:` lines, with `[DONE]`
    stopping it;
  - a round trip stating that the router's framing, read back by the chunk
    loop, handles each forwarded event once and in order;
  - the token total.
- **`assemble_cors_origins`** (`CorsConfig`): the comma-separated,
  JSON-list, list and error cases.

JSON values are the datatype `Json.JsonValue`, with Python's `None` and
JavaScript's `null` both `JNull`. Python's and JavaScript's truthiness are
`Json.Truthy` and `Json.JsTruthy`. `json.loads` and `JSON.parse` are an
input, `Json.Codec`, that returns nothing when the text does not decode. The
clock is an input: `clock(k)` is the elapsed time read while queue item `k`
is handled. Each vendor call is given as its outcome, so a call either
completes with its frames or raises after some of them.

Where the code checks something other than what one would expect, the model
follows the code:

- A frame whose status is not OK yields an error event, and the loop goes
  on. It does not end the turn.
- The `llm_result` scanner takes the first quote after the key, wherever it
  is. It does not look for a colon.
- A mismatched closing bracket is skipped.
- A `web_result` that is not a list is rebound to a one-element list, and
  the finishing event carries that list.
- `last_text_len` is overwritten, so it can shrink.
- The router reads `final_request_id` even when no event bound it. The model
  gives that case its own outcome, `UnboundRequestId`.

## Model

| member | source | states |
|---|---|---|
| Json.Get | backend/app/models/chat_log.py:25 | `d.get(key)`: a missing key reads as `None`, a present key as its value |
| Json.Or | backend/app/models/chat_log.py:44-45 | Python's `a or b` is `a` when `a` is truthy and `b` otherwise; it is truthy exactly when either operand is |
| Json.DictCandidates | backend/app/models/chat_log.py:38-39 | iterating a list visits its items; iterating a string or dict visits nothing that can be a dict |
| PyText.Find | backend/app/services/bailian_service.py:201-204 | `str.find`: -1 or an index at or after `start` where the pattern matches, with no match between `start` and that index |
| PyText.ContainsIff | backend/app/services/bailian_service.py:232 | `pat in s` holds exactly when the pattern matches at some index |
| PyText.TrimStart | backend/app/api/routers/chat.py:47 | the leading-whitespace strip is a suffix of the input, starts with no space, and drops only spaces |
| PyText.TrimEnd | backend/app/api/routers/chat.py:47 | the trailing-whitespace strip is a prefix of the input, ends with no space, and drops only spaces |
| PyText.StripEmptyIff | backend/app/api/routers/chat.py:47 | `s.strip()` is empty exactly when every character of `s` is whitespace |
| PyText.ConcatAppend | backend/app/services/bailian_service.py:225 | `"".join` of a list with one more piece is the old join followed by that piece |
| PyText.ConcatSplit | backend/app/services/bailian_service.py:225 | `"".join` splits over list concatenation |
| PyText.Split | backend/app/core/config.py:22 | `str.split(sep)` always yields at least one piece |
| PyText.JoinSplit | backend/app/core/config.py:22 | joining the pieces of `s.split(sep)` with `sep` gives `s` back |
| PyText.SplitPiecesFree | backend/app/core/config.py:22 | no piece of `s.split(sep)` contains `sep` |
| PyText.ReplaceCharConcat | frontend/script.js:481-485 | a global one-character replacement distributes over concatenation |
| PyText.ReplaceCharAbsent | frontend/script.js:481-485 | a replacement of a character the text lacks changes nothing |
| PyText.ReplacePairNoLead | backend/app/services/bailian_service.py:229 | replacing a two-character escape changes nothing in a text without its first character |
| PartialJson.ScanQuoted | backend/app/services/bailian_service.py:208-223 | the scan of the `llm_result` value never moves its index past the end of the buffer |
| PartialJson.ScanQuotedText | backend/app/services/bailian_service.py:208-223 | the collected pieces concatenate to exactly the text between the opening quote and where the scan stopped |
| PartialJson.ScanQuotedPieces | backend/app/services/bailian_service.py:208-223 | every piece is one ordinary character or a backslash with the character after it; the scan stops only at the end of the buffer, at an unescaped quote, or at a lone trailing backslash |
| PartialJson.ScanQuotedCopies | backend/app/services/bailian_service.py:208-223 | the two facts above together |
| PartialJson.ScanLlmValue | backend/app/services/bailian_service.py:208-223 | the `while curr < len(...)` loop over the `chars` list computes the scan, and its index ends within the buffer |
| PartialJson.ReplaceUndoesOneEscape | backend/app/services/bailian_service.py:229 | on backslash-free text, one `.replace` of an escape undoes the escaping of that one character and leaves the others escaped |
| PartialJson.EscapeWithNothing | backend/app/services/bailian_service.py:229 | escaping with no escapes is the identity |
| PartialJson.UnescapeInvertsEscape | backend/app/services/bailian_service.py:229 | the fallback's three replacements undo the escaping of newline, tab and quote in backslash-free text |
| PartialJson.FallbackMisreadsEscapedBackslash | backend/app/services/bailian_service.py:229 | an escaped backslash followed by `n` becomes a backslash and a newline, because `\n` is replaced before anything else |
| PartialJson.ExtractLlmResult | backend/app/services/bailian_service.py:197-229 | the manual extraction gives the empty string without the key or a following quote, otherwise the strict decode of the scanned text or its fallback unescaping |
| PartialJson.TruncatedBufferOffsets | backend/app/services/bailian_service.py:201-204 | in `{"llm_result": "Hel` the key is at index 1 and the value's quote at index 15 |
| PartialJson.TruncatedBufferScan | backend/app/services/bailian_service.py:208-223 | scanning that buffer from index 16 copies `Hel` and stops at its end |
| PartialJson.UnescapePlain | backend/app/services/bailian_service.py:229 | the fallback leaves backslash-free text alone |
| PartialJson.TruncatedBufferYieldsPartialText | backend/app/services/bailian_service.py:197-229 | the truncated buffer `{"llm_result": "Hel` yields `Hel` without error, whether the strict decode succeeds or not |
| PartialJson.SkipSpaces | backend/app/services/bailian_service.py:247 | `\s*` skips exactly the whitespace run from `i` and stops within the text |
| PartialJson.SearchKey | backend/app/services/bailian_service.py:247-250 | `re.search(f'"{key}"\s*:\s*')`: the leftmost position where the pattern matches, with no match before it |
| PartialJson.KeyPatternEnd | backend/app/services/bailian_service.py:252-253 | the end of a match is within the text |
| PartialJson.BracketStep | backend/app/services/bailian_service.py:268-289 | one character of the bracket scan: inside a quoted string the stack is untouched, and it grows by at most one |
| PartialJson.BalanceFrom | backend/app/services/bailian_service.py:267-291 | the `while curr < len(text) and stack` loop stops within the text |
| PartialJson.BalanceFromEnds | backend/app/services/bailian_service.py:267-295 | the scan ends with an empty stack just after the closer that matches the opening bracket, or at the end of the text with the opener still on the stack |
| PartialJson.BalanceFromIgnoresTail | backend/app/services/bailian_service.py:267-295 | once the stack empties, the text after that point does not change the result |
| PartialJson.BalanceFromInsideQuote | backend/app/services/bailian_service.py:282-289 | inside a quote, a string body without an unescaped quote is consumed with the stack untouched |
| PartialJson.QuotedRunIsSkipped | backend/app/services/bailian_service.py:270-289 | a string literal `"` + body + `"` met outside quotes leaves the bracket stack as it was and the scan outside quotes again, whatever brackets and escaped quotes the body holds |
| PartialJson.BalancedEnd | backend/app/services/bailian_service.py:262-295 | a closed span ends with the closer that matches its opening bracket |
| PartialJson.BalancedEndStableUnderExtension | backend/app/services/bailian_service.py:267-295 | a span that has closed stays the same when more text arrives |
| PartialJson.BalancedEndAbsentInPrefix | backend/app/services/bailian_service.py:293-300 | a span that has not closed has not closed in any shorter prefix either |
| PartialJson.ScanBalanced | backend/app/services/bailian_service.py:262-291 | the loop over the quote flag, the escape flag and the bracket stack computes the bracket scan |
| PartialJson.ExtractBalancedDecodesSpan | backend/app/services/bailian_service.py:244-300 | a present result is the decode of the span from the bracket right after `"key"\s*:\s*` to its matching closer |
| PartialJson.ExampleKeyFound | backend/app/services/bailian_service.py:246-252 | in `"rag_result": {"a":"}\"]"}, "x":1}` the key pattern ends at the opening brace, index 14 |
| PartialJson.ExampleInnerKey | backend/app/services/bailian_service.py:267-289 | in that text, the inner key `"a"` and its colon leave the stack as it was |
| PartialJson.ExampleInnerValue | backend/app/services/bailian_service.py:267-289 | in that text, the value `"}\"]"` is skipped and the next `}` empties the stack at index 26 |
| PartialJson.ExampleSpanCloses | backend/app/services/bailian_service.py:267-295 | in that text, the span opened at index 14 closes at index 26 |
| PartialJson.BracketInStringExample | backend/app/services/bailian_service.py:244-300 | on `"rag_result": {"a":"}\"]"}, "x":1}` the extractor decodes the whole object `{"a":"}\"]"}`, not the text up to the first `}` |
| PartialJson.ExtractBalancedJson | backend/app/services/bailian_service.py:244-300 | `extract_balanced_json` is absent without a match, when the value does not start with `{` or `[`, when the span never closes, or when the span does not decode |
| PartialJson.RecoverFields | backend/app/services/bailian_service.py:174-308 | the text recovery of one frame does these steps in order: the full decode, the manual scan, the plain-text fallback, then the balanced extraction of any missing evidence |
| PartialJson.FullDecodeWins | backend/app/services/bailian_service.py:174-193 | a parse source that decodes to a dict with a non-empty string `llm_result` gives that text and that dict's `rag_result` and `web_result` |
| PartialJson.PlainTextIsTheAnswer | backend/app/services/bailian_service.py:231-235 | text that neither decodes nor looks like a workflow document is the answer itself |
| PartialJson.RecoverFailsOnlyOnNonString | backend/app/services/bailian_service.py:189-190 | recovery raises exactly when the document decodes to a dict whose `llm_result` is truthy and not a string |
| ServiceSources.WrapWeb | backend/app/services/bailian_service.py:392 | a truthy `web_res` that is not a list becomes a one-element list; a list or a falsy value is kept |
| ServiceSources.AppendChunkRecords | backend/app/services/bailian_service.py:366-376 | the `chunkList` loop appends one record per entry |
| ServiceSources.AppendListRecords | backend/app/services/bailian_service.py:377-383 | the bare-list loop appends a record for each dict entry |
| ServiceSources.AppendWebRecords | backend/app/services/bailian_service.py:391-398 | the web loop appends a record for each dict entry |
| ServiceSources.CollectSources | backend/app/services/bailian_service.py:358-398 | `sources_list` is the document references, then the knowledge-base records, then the web records, and `web_res` is left wrapped |
| ServiceSources.RagDictRecordResolves | backend/app/services/bailian_service.py:371-372 | a chunk-list or single-dict record keeps every other field, and its title falls back `title`, then `documentName`, then the placeholder; its url falls back `docUrl`, then `url`, then `#` |
| ServiceSources.RagListRecordResolves | backend/app/services/bailian_service.py:381-382 | a bare-list record: title `title`, then `doc_name`, then the placeholder; url `url`, then `docUrl`, then `doc_id`, then `#` |
| ServiceSources.WebRecordResolves | backend/app/services/bailian_service.py:396-397 | a web record: title `title`, then the web placeholder; url `link`, then `url`, then `#` |
| ServiceSources.NonDictChunkIsWrapped | backend/app/services/bailian_service.py:369-375 | a non-dict chunk becomes `{"raw": item}` with the placeholder title and url `#` |
| ServiceSources.ChunkRecordsOnePerEntry | backend/app/services/bailian_service.py:366-376 | a chunk list gives exactly one record per entry, in order |
| ServiceSources.ListRecordsFromDicts | backend/app/services/bailian_service.py:377-383 | a bare list gives one record per dict entry and nothing else |
| ServiceSources.WebRecordsCount | backend/app/services/bailian_service.py:393-398 | a web list gives one record per dict entry and nothing else |
| ServiceSources.SingleWebDictWrapped | backend/app/services/bailian_service.py:391-398 | a single web dict gives exactly its one record |
| ServiceSources.SingleRagDict | backend/app/services/bailian_service.py:384-388 | a dict without `chunkList` gives exactly its one record |
| TokenUsage.TokenCount | backend/app/services/bailian_service.py:420-425 | a missing or `None` count reads as 0 |
| TokenUsage.ComputeUsage | backend/app/services/bailian_service.py:414-443 | the usage is the direct counts, or the per-model sums when both direct counts are 0 |
| TokenUsage.SumsSplit | backend/app/services/bailian_service.py:436-438 | the per-model sums split over concatenation of the model list |
| TokenUsage.MissingCountsAreZero | backend/app/services/bailian_service.py:436-438 | models without counts add nothing |
| TokenUsage.DirectCountsWin | backend/app/services/bailian_service.py:428-432 | a non-zero direct count means the models list is not read |
| TokenUsage.ModelsSummedWhenNoDirectCount | backend/app/services/bailian_service.py:432-438 | with both direct counts 0, a single model's counts are used |
| Smoothing.Step | backend/app/services/bailian_service.py:454 | the step is `max(5, len // 20)` |
| Smoothing.ChunksFromConcat | backend/app/services/bailian_service.py:459-462 | the sub-chunks from an index concatenate to the rest of the delta |
| Smoothing.ChunksFromBounded | backend/app/services/bailian_service.py:459-462 | every sub-chunk is non-empty and at most one step long |
| Smoothing.ChunksFromEmptyIff | backend/app/services/bailian_service.py:459 | there are no sub-chunks exactly when the index is at the end |
| Smoothing.ChunksFromCount | backend/app/services/bailian_service.py:454-462 | the number of sub-chunks is the length divided by the step, rounded up |
| Smoothing.SmoothingReconstructs | backend/app/services/bailian_service.py:449-462 | the sub-chunks of a delta concatenate to it exactly, each is non-empty and at most one step long, and their number is the ceiling of length over step |
| Smoothing.FortySevenCharacters | backend/app/services/bailian_service.py:449-462 | a 47-character delta has step 5 and 10 sub-chunks |
| StreamTurn.Delta | backend/app/services/bailian_service.py:311 | the delta is what follows the old length, so old prefix plus delta is the new text; past the end it is empty |
| StreamTurn.RunFromEnds | backend/app/services/bailian_service.py:95-113 | the loop ends at the sentinel with nothing more, and after an exception with one error event carrying the exception's own request id, or `unknown` when it has none |
| StreamTurn.FrameEvidence | backend/app/services/bailian_service.py:340-443 | a frame's evidence falls back to its own attributes unless the raw text is a workflow JSON stream; then the sources are built and the usage read |
| StreamTurn.Turn.constructor | backend/app/services/bailian_service.py:76-86 | the turn starts with length 0, no finish emitted, an empty buffer and watermark -1 |
| StreamTurn.Turn.AccumulateWorkflow | backend/app/services/bailian_service.py:142-162 | a truthy content with a non-numeric sequence id, or a non-string content on a branch that appends it, raises its `TypeError` and changes nothing; otherwise the buffer and watermark are updated by the sequence-id rule; the other counters are unchanged |
| StreamTurn.Turn.EmitSmoothed | backend/app/services/bailian_service.py:449-491 | the sub-chunk loop yields the smoothed events and sets `finished_emitted`, leaving the other counters |
| StreamTurn.Turn.EmitDeltaEvents | backend/app/services/bailian_service.py:445-516 | a delta over 5 characters is smoothed; otherwise one event is sent for text, for a finish, or for sources before any text |
| StreamTurn.Turn.HandleFrame | backend/app/services/bailian_service.py:120-532 | one frame updates the four counters and yields its events as the frame step defines; a non-OK frame yields its error and changes nothing; a workflow message that raises yields `{"error": str(e)}` and ends the turn |
| StreamTurn.StreamChat | backend/app/services/bailian_service.py:73-535 | the generator yields the keep-alive event, then the events of each queue item, until the sentinel, an exception, a workflow message that raises or a failed recovery |
| TurnProperties.MakeEventQuiet | backend/app/services/bailian_service.py:479-488 | usage, latency, `rag_result` and `web_result` are set only on a finishing event |
| TurnProperties.SmoothFromFlag | backend/app/services/bailian_service.py:464-477 | the smoothing loop emits at most one finish, and only if none was emitted before; with the finish wanted and none before, it emits exactly one |
| TurnProperties.SmoothFromTexts | backend/app/services/bailian_service.py:459-489 | the smoothed events' texts concatenate to the rest of the delta, and only a finishing event carries usage or evidence |
| TurnProperties.SmoothFromFacts | backend/app/services/bailian_service.py:459-491 | the two facts above together |
| TurnProperties.SmoothEventsAreChunks | backend/app/services/bailian_service.py:459-489 | there is one event per sub-chunk, carrying that sub-chunk, and only the last may be finishing |
| TurnProperties.EmitDeltaFacts | backend/app/services/bailian_service.py:449-516 | a frame's events carry exactly its delta, emit at most one finish, and emit one when a finish arrives first |
| TurnProperties.StepFrameFinishes | backend/app/services/bailian_service.py:120-516 | a frame step never emits a second finish and never clears `finished_emitted`; the watermark never decreases and the buffer only grows |
| TurnProperties.StepFrameTexts | backend/app/services/bailian_service.py:311-312 | after an OK frame the events' texts are `full_text[old_len:]` and `last_text_len` is `len(full_text)` |
| TurnProperties.FirstFinishIsEmitted | backend/app/services/bailian_service.py:497-503 | the first finishing frame emits exactly one finishing event |
| TurnProperties.LaterFinishSuppressed | backend/app/services/bailian_service.py:469-477 | after the finish, no event is finishing and none carries a latency |
| TurnProperties.ShrinkingTextEmitsNoText | backend/app/services/bailian_service.py:311-312 | a shorter recovered text emits no text and lowers `last_text_len` |
| TurnProperties.AccumulateWatermark | backend/app/services/bailian_service.py:147-162 | content is appended exactly when it is non-empty and its id is above the watermark or -1; the watermark moves only above itself |
| TurnProperties.ReplayedMessageIgnored | backend/app/services/bailian_service.py:157-159 | a numbered message received twice is appended once |
| TurnProperties.UnnumberedMessageRepeats | backend/app/services/bailian_service.py:160-162 | a message with id -1 is appended every time it arrives |
| TurnProperties.ReadWorkflowRaisesIff | backend/app/services/bailian_service.py:142-162 | reading a workflow message raises exactly when its content is truthy and either its sequence id is not a number (the `>` at line 157) or its content is not a string and would be appended (the `+=` at line 158 or 162), with the matching `TypeError` |
| TurnProperties.StringContentIsRead | backend/app/services/bailian_service.py:143-151 | a numbered message with non-empty string content is read as that content; a falsy content is skipped whatever the sequence id |
| TurnProperties.WorkflowErrorEndsTurn | backend/app/services/bailian_service.py:533-535 | a raising workflow message ends the turn with one error event without a request id, leaves the state as it was, and recovers no text |
| TurnProperties.RaisedEventRequestId | backend/app/services/bailian_service.py:110-112 | an exception from the producer becomes an error event with its message and its own `request_id`, or `unknown` when it has none |
| TurnProperties.RunFinishesAtMostOnce | backend/app/services/bailian_service.py:88-516 | from any state, the rest of the loop emits a finish only if none was emitted, and at most one |
| TurnProperties.QuietAppend | backend/app/services/bailian_service.py:479-515 | event sequences where only finishing events carry usage or evidence stay so when concatenated |
| TurnProperties.TurnFinishesAtMostOnce | backend/app/services/bailian_service.py:73-516 | a whole turn has at most one finishing event, and only it carries usage, latency or evidence |
| TurnProperties.RunStep | backend/app/services/bailian_service.py:311-312 | one frame of an extending stream moves the previous text to the next one by appending the frame's event texts |
| TurnProperties.RunTextsReconstruct | backend/app/services/bailian_service.py:311-312 | while each recovered text extends the previous one, the texts emitted from here on complete the previous text to the last one |
| TurnProperties.TurnTextsReconstruct | backend/app/services/bailian_service.py:311-312 | for such a turn, the emitted texts concatenate to the last recovered text |
| Producer.Decide | backend/app/services/bailian_service.py:54-66 | a failure is retried exactly when the call yielded nothing and it is not the last attempt; the sentinel follows exactly a completed call |
| Producer.Produce | backend/app/services/bailian_service.py:28-66 | the retry loop pushes what the retry rule defines and counts the calls made |
| Producer.ResponsesShape | backend/app/services/bailian_service.py:46-48 | every yielded frame is pushed, once and in order |
| Producer.ProduceFromShape | backend/app/services/bailian_service.py:31-66 | some attempt ends the loop after earlier silent failures only; the queue holds its frames and then one sentinel or its exception |
| Producer.ProduceShape | backend/app/services/bailian_service.py:30-66 | one to three calls are made, the queue ends with exactly one terminal item, everything before it is a frame, and every earlier call failed silently |
| Producer.FirstCallCompletes | backend/app/services/bailian_service.py:46-52 | a first call that completes gives its frames and one sentinel, after one call |
| Producer.PartialOutputIsNotRetried | backend/app/services/bailian_service.py:54-66 | a call that fails after yielding is not retried; its frames are followed by its exception, with its request id |
| Producer.ThreeSilentFailures | backend/app/services/bailian_service.py:30-66 | three silent failures make three calls and push only the last exception |
| ChatLogSources.Sources | backend/app/models/chat_log.py:15-70 | the property rebuilds the list as the knowledge-base records followed by the web records, or raises on malformed metadata |
| ChatLogSources.EmptyOrBadMetadata | backend/app/models/chat_log.py:21-25 | falsy metadata gives `[]`; truthy metadata that is not a dict raises |
| ChatLogSources.LogSourcesFailsOnlyOn | backend/app/models/chat_log.py:24-38 | the property raises only on metadata that is not a dict or a `chunkList` that cannot be iterated |
| ChatLogSources.RagLogRecordFields | backend/app/models/chat_log.py:41-46 | a knowledge-base record keeps every other field; its title falls back to `title`, `documentName`, then the placeholder; its url to `docUrl`, `url`, then `#`; its type is `rag` |
| ChatLogSources.WebLogRecordFields | backend/app/models/chat_log.py:61-66 | a web record keeps every other field; its title falls back to `title`, then the placeholder; its url to `link`, `url`, then `#`; its type is `web` |
| ChatLogSources.RagLogRecordsShape | backend/app/models/chat_log.py:38-48 | one record per dict chunk, each typed `rag` |
| ChatLogSources.WebLogRecordsShape | backend/app/models/chat_log.py:58-68 | one record per dict item, each typed `web` |
| ChatLogSources.RagBeforeWeb | backend/app/models/chat_log.py:28-70 | all knowledge-base records precede all web records, and the length is the number of dict items found |
| ChatLogSources.MisspelledWebKey | backend/app/models/chat_log.py:26 | `web_resul` is read only when `web_result` is falsy |
| ChatLogSources.SingleWebDict | backend/app/models/chat_log.py:50-68 | a single web dict is wrapped into one record |
| ChatRouter.QuestionRejectedIff | backend/app/api/routers/chat.py:47-48 | a question is refused exactly when it is all whitespace |
| ChatRouter.CaptureEvent | backend/app/api/routers/chat.py:70-89 | one decoded event updates the captured text, the last-truthy fields and the request id |
| ChatRouter.EventGenerator | backend/app/api/routers/chat.py:55-98 | each upstream string is forwarded, then `[DONE]`, and the save is decided on the fold of the decoded events |
| ChatRouter.AskQuestion | backend/app/api/routers/chat.py:42-122 | an empty question gives status 400; any other question gives the stream and its save decision |
| ChatRouter.CaptureMerge | backend/app/api/routers/chat.py:72-87 | handling one event commutes with combining two earlier stretches of the stream |
| ChatRouter.FoldSplit | backend/app/api/routers/chat.py:72-87 | the saved text is the in-order concatenation of the texts, and every other field is the last truthy value, never merged |
| ChatRouter.LastSourcesWin | backend/app/api/routers/chat.py:74-75 | a last event with truthy sources decides the saved sources |
| ChatRouter.RequestIdNeverInit | backend/app/api/routers/chat.py:86-87 | the captured request id is truthy and never `init` |
| ChatRouter.SingleEventText | backend/app/api/routers/chat.py:72-73 | a single event's non-empty text is the saved text |
| ChatRouter.WireFraming | backend/app/api/routers/chat.py:91 | every upstream string is forwarded once, in order, as `data: <s>` and a blank line |
| ChatRouter.SaveIff | backend/app/api/routers/chat.py:98-115 | a save is attempted exactly when text or sources were captured; it is attempted when a request id was captured, with the captured text, and otherwise reading the unbound request id raises first |
| Frontend.EscapeHtmlFalsy | frontend/script.js:478-480 | falsy input gives `""`; a truthy non-string throws |
| Frontend.EscapeChainConcat | frontend/script.js:480-485 | the replacement chain distributes over concatenation |
| Frontend.EscapeChainOne | frontend/script.js:480-485 | the chain maps each of the five characters to its one entity, `&` included, and keeps every other character |
| Frontend.EscapeChainIsPerChar | frontend/script.js:480-485 | the chain equals the per-character entity map, because `&` is replaced first |
| Frontend.EscapeCharsNoSpecials | frontend/script.js:480-485 | the entity map's output has no raw `<`, `>`, `"` or `'` |
| Frontend.EscapeHtmlNoSpecials | frontend/script.js:478-486 | `escapeHtml` of a string has no raw `<`, `>`, `"` or `'` |
| Frontend.UnescapeInvertsEscape | frontend/script.js:480-485 | unescaping the entity map gives the text back |
| Frontend.EscapeHtmlRoundTrip | frontend/script.js:478-486 | `escapeHtml` of a string is the entity map, and unescaping it gives the string back |
| Frontend.MergeSources | frontend/script.js:316-324 | the `forEach`/`some`/`push` loop pushes each new source with no url-and-title match, and stops at a throw |
| Frontend.MergeKeepsPrefix | frontend/script.js:316-324 | existing entries are never removed or reordered, and only new sources are added |
| Frontend.AnyMatchFalse | frontend/script.js:318-320 | `some` is false only when no accumulated source has the same url and title |
| Frontend.AnyMatchTrue | frontend/script.js:318-320 | `some` is true only when an accumulated source has the same url and title |
| Frontend.MergeOne | frontend/script.js:316-324 | a new source is pushed exactly when it has no match, and the list is otherwise unchanged |
| Frontend.MergeKeepsNoDup | frontend/script.js:316-324 | a list without url-and-title duplicates stays without them |
| Frontend.AnyMatchNoNull | frontend/script.js:318-320 | the comparison cannot throw when no source is `null` |
| Frontend.MergeNoNull | frontend/script.js:316-324 | the merge runs to the end when no source is `null` |
| Frontend.HandleChunk | frontend/script.js:291-297 | a chunk is split on blank lines, and only `data: ` lines are handled, by their payload, until `[DONE]` |
| Frontend.HandleDataStep | frontend/script.js:298-335 | one payload appends the error banner and the text, merges the sources, and then takes usage and latency |
| Frontend.TextAccumulates | frontend/script.js:302-309 | a text event whose `error` is absent or falsy grows the accumulated text by exactly its text |
| Frontend.DoneStopsTheChunk | frontend/script.js:297 | `[DONE]` stops the handling of the rest of the chunk |
| Frontend.SplitFramed | frontend/script.js:292 | a framed line without newlines is split off at its blank line |
| Frontend.StreamRoundTrip | frontend/script.js:291-339 | the router's framed stream, read as one chunk, handles each forwarded payload once, in order, and stops at `[DONE]` |
| Frontend.UsageTotalSums | frontend/script.js:381-383 | the token total is input plus output, a missing count being 0 |
| CorsConfig.SplitCount | backend/app/core/config.py:22 | splitting on one character gives one more piece than it occurs |
| CorsConfig.CommaSeparated | backend/app/core/config.py:21-22 | a string not starting with `[` gives one stripped, comma-free origin per comma plus one, and the pieces join back to the string |
| CorsConfig.SingleOrigin | backend/app/core/config.py:21-22 | a string without a comma gives that one origin, stripped |
| CorsConfig.JsonForm | backend/app/core/config.py:25-30 | a string starting with `[` is decoded, and text that does not decode gives `[]` |
| CorsConfig.OtherInputs | backend/app/core/config.py:31-32 | a list is returned unchanged; an input that is neither a string nor a list raises `ValueError` |

## Left out

- The producer thread, the `asyncio` queue, `call_soon_threadsafe` and every `sleep` are concurrency. The queue is given as the sequence of items the producer pushes.
- Clocks and performance logging are left out. Latency is the value of the `clock` input. Time-to-first-token and the other timers only log.
- The DashScope SDK call is foreign. Each call is an input: its frames and how it ends. Attribute access on SDK objects is modelled as frame fields, with a missing attribute read as `None`. `safe_get`'s suppression of other errors is left out.
- `json.loads`, `json.dumps` and `JSON.parse` are an oracle, the `codec` input. Serialising events to JSON is left out: events are datatypes.
- The decoding of `errorInfo` in a non-OK frame's message depends only on `json.loads`. The error event is `Error: <code> - <message>` with the message as given.
- A `llm_result` that decodes to a truthy non-string ends the turn with an error event. A list value would be sliced in Python; that case is not distinguished.
- Dict key order is not modelled: a dict is a map.
- Exception texts are fixed strings. A producer exception carries the text it is given. The two `TypeError`s a workflow message can raise carry the message text of the usual CPython error. That text can vary with the Python version and the operand types.
- Workflow sequence ids: a `node_msg_seq_id` that cannot be compared with an int is one case, `None`. Floats and bools are not distinguished from ints.
- Numbers are integers. Floating-point latency and its `toFixed` formatting are left out.
- TokenUsage.ComputeUsage: a `models` attribute that is missing, not a list or empty is one case, an empty list. Non-integer counts are not modelled.
- Frontend.HandleDataStep: only string `error` and `text` values are appended. JavaScript's `String()` conversion of other truthy values is left out.
- Frontend.UsageTotalSums: when a count is not a number, JavaScript's `+` would concatenate strings. The model gives no total in that case.
- Frontend.HandleChunk: an event is assumed to arrive within one network read. Events split across reads are not modelled.
- The rendering of `updateMeta` and the rest of the DOM are left out: `marked`, `hljs`, modals and the history views. So are `fetch`, `getSessionId` (clock and randomness) and the catch-all error banner. What is kept is whether rendering the merged sources throws, because a throw skips that event's usage and latency.
- The database, HTTP routing and schemas are left out: SQLAlchemy sessions, `get_history`, `delete_chat_log`, the FastAPI app and `assemble_db_connection`. The save is returned as a value, `SaveOutcome`, and is the row the code attempts to write. `ChatLog` has no `sources` column: `sources` is a read-only `@property` (chat_log.py lines 13-16), so passing `sources=` to the constructor (chat.py line 108) most likely raises in SQLAlchemy's declarative constructor, and the failure is only logged (chat.py lines 119-120). Whether the row is actually stored is not modelled.
- ChatRouter.EventGenerator: a stream that never delivers the sentinel makes the service wait forever. The upstream is modelled as a finite sequence.
- CorsConfig: pydantic's validation of the returned items as URLs or strings, after this pre-validator, is left out.
- `chat_service.py` only forwards the generator and is not part of this model. Neither are the live-network test scripts, which contain no assertions.
