# A verified model of the agent harness's bounded, cancellable core

The project models the parts of the harness that decide what model output may become, how much
of it is kept, when a model process may run and what counts as evidence, and proves that they do
what the code around them relies on. It covers sixteen components in thirty-five modules:

- **Strict output** (`Utf16`, `Json`, `JsonRoundTrip`, `JsonGrammar`, `AgentJson`, `JsonRepair`,
  `OutputSchema`, `OutputParser`, `PrintedFence`, `StrictOutput`, `StrictAcceptance`,
  `PlanReading`). Strings are sequences of UTF-16 code units. JSON values, the printer of
  ECMAScript and a parser of sections 2 to 7 of RFC 8259 are written out, and the parser is proved
  against the grammar; the fence scanner and the multi-line repair are index loops proved against
  recursive functions. The main theorem is the round trip from accepted output through printed
  fence, scanner, parser and second validator to the one plan the output denotes; what is accepted
  is said without the schema.
- **Bounded streaming** (`Utf8`, `StreamLimits`, `CodexEvents`, `CodexStream`, `CodexMalformed`,
  `CodexAnswer`, `RedactedSlices`, `RedactedStream`, `RedactedBoundary`, `RedactedOutput`, `McpFraming`). UTF-8
  follows section 3 of RFC 3629. Text is a sequence of Unicode scalar values. Each class refines a
  simple function of everything written to it: a longest suffix, a fold over characters, a list of
  slices, a list of payloads. What comes out of a Codex run is said in terms of its lines, and when
  audit text may leave in terms of the text itself.
- **The JSON byte meter** (`ResourceLimits`). Runtime data is a graph of objects, possibly
  cyclic. What it denotes is a JSON value of the module `Json`, and the meter is specified by
  the UTF-8 length of that value's printed text.
- **Concurrency** (`InvocationQueue`, `QueueProgress`, `PlanningCancellation`, `WorkScope`). What runs between
  two awaits is one step; theorems are about every sequence of steps.
- **Admission and evidence** (`RateLimiter`, `ValidationEvidence`, `CodeChangeLoop`,
  `CodeChangeAttempt`, `CodeChangeThrows`). The code change loop runs against an arbitrary environment that changes the store at every await by the
  store's own rules.
- **The repository index** (`RepoIndex`). A cache that must agree with a rebuild.

`Prelude` holds the result types. A class stands for an object or closure whose fields the
program updates; its methods are tied to the specification functions by their postconditions,
and the lemmas are about those functions. Where the program throws, the model returns an error
value.

## Findings

Where code and expectation differ, the model follows the code.

- `cancelInvocation` returns early when it finds the row cancelled. If another call persisted
  that row and has not aborted anything yet, the process can still be started after the early
  return. `PlanningCancellation.EarlyReturnCanStart` gives such a run and
  `PlanningCancellation.ReturnedCancelledExact` says exactly when it can happen. For the call
  that persisted the row the guarantee holds without exception.
- The rate limiter admits up to `2 * max(1, maxRequests) - 1` calls in an interval as long as its
  window of two milliseconds or more (`RateLimiter.WindowBound`), and for all options some run reaches the bound
  (`RateLimiter.BoundReached`). The `max` is due to the first call of a window being admitted
  whatever the quota.
- The selection of validation evidence can depend on the order of the runs: a tie below the
  highest sequence makes a checker ambiguous in some orders and not in others
  (`ValidationEvidence.OrderMatters`). A checker's ambiguity is the same in every order exactly
  if its runs tie at the highest sequence or nowhere (`ValidationEvidence.AmbiguityOrderExact`),
  `ValidationEvidence.SelectionOrderExact` is the condition for the set of selected runs, and
  `ValidationEvidence.OutcomeOrderExact` that for what a checker contributes, reasons included. The store
  assigns distinct sequences, and then the order does not matter.
- With malformed UTF-8 what a Codex stream reports depends on how it was cut into chunks
  (`CodexMalformed.MalformedDependsOnChunks`), because a chunk that fails to decode contributes none
  of its text. It does not exactly if there is only white space within the frame limit before the
  first malformed byte (`CodexMalformed.MalformedExact`; for the turn that comes out,
  `CodexMalformed.MalformedTurnExact`). For all other streams, including those that end inside a
  character, it never does.
- The repository index keeps the row of an unchanged file when the read limit moves past the
  file's size, in either direction (`RepoIndex.MovedLimitLeavesStale`).
  `RepoIndex.RefreshRebuildsExact` says exactly when a refresh amounts to a rebuild.
- `rejectIfUnresolved` throws, and `runAttempt` with it, not only if someone claims or decides the
  approval between its reads. A task that was closed, or a failed approval that was replaced,
  makes the first rejection throw without any race (`CodeChangeThrows.QuietRefusal`), and the
  rest of the batch stays approved; `CodeChangeThrows.ClosedTaskThrows` is such a run.
- `runAttempt` can throw when all is done, because its last step changes the status of the task. It
  does so for every task cancelled by the time the gate is recorded, even if all checks passed
  (`CodeChangeThrows.CancelledInTime`), and without any race for a task that is done or cancelled, or
  that is ready for review and would have to be blocked (`CodeChangeThrows.QuietFinish`,
  `CodeChangeThrows.ReviewedTaskThrows`). By then the whole batch is resolved. The postconditions of
  `RunAttempt` say exactly when the call throws and in which of the two ways.

## Model

| member | source | states |
|---|---|---|
| StrictAcceptance.StrictRoundTrip | packages/agent/src/agent-output-schema.ts:68-88 | Output is normalized exactly when it is JSON of version 1 for the intent that denotes a complete plan the contract permits; then the printed fence parses back to that plan, redacted as asked - whatever backticks or fences its strings contain |
| StrictAcceptance.AcceptedExact | packages/agent/src/agent-output-schema.ts:16-65 | Without schemas: accepted is exactly an object with the eight keys, version 1 and the intent of the contract that denotes a permitted plan in which no summary, title, path, patch or command is blank and every entry has exactly the keys of its kind |
| StrictAcceptance.DenotedExact | packages/agent/src/agent-output-schema.ts:23-65 | The same for the plan the output denotes |
| StrictOutput.ValidatorsAgree | packages/agent/src/agent-output-parser.ts:71-154 | Every value the schema matcher accepts is accepted by the second, independent validator, which reads a plan that denotes it; read-only contracts yield no actions and no checks, contracts without search no shell and no checks |
| StrictOutput.DenotesUnique | packages/agent/src/agent-output-schema.ts:75-84 | A wire value denotes at most one plan, so the round trip returns exactly that plan |
| PrintedFence.FenceRoundTrip | packages/agent/src/agent-output-schema.ts:85-88 | Printing an object with its backticks escaped and fencing it gives a text whose first envelope is that very block and parses back to the object |
| PrintedFence.FencedEnvelope | packages/core/src/json.ts:7-26 | A fence around a text without backticks that ends outside its string literals is found as the first envelope, with its exact extent |
| StrictOutput.RedactionKeepsExecutables | packages/agent/src/agent-output-parser.ts:49-61 | Any redactor leaves action types, paths, patches, contents, commands, arguments, check commands, risks and all counts unchanged, and is applied to every text people read |
| StrictAcceptance.NormalizeAccepts | packages/agent/src/agent-output-schema.ts:68-73 | Normalization succeeds exactly for parsed objects that are accepted in that sense, and then prints the plan value of that object |
| JsonRoundTrip.RoundTrip | packages/agent/src/agent-output-schema.ts:87 | Printing a value without numbers, escaping its backticks and parsing - strictly or leniently - returns the value |
| JsonRoundTrip.ParsePrinted | packages/agent/src/agent-output-schema.ts:87 | The same with any further text behind the printed value, which the parser leaves untouched |
| JsonRoundTrip.EscapeTicksPrinted | packages/agent/src/agent-output-schema.ts:85-87 | Replacing backticks after printing equals printing with backticks escaped inside string literals |
| JsonRoundTrip.ParsedProper | packages/agent/src/agent-output-schema.ts:70 | Parsed objects hold every key once, however often the text repeats it |
| JsonGrammar.ParseExact | packages/agent/src/agent-output-schema.ts:70 | JSON.parse reads a text as a value exactly if the text is a document of the grammar with that value - white space, escapes of either form, numbers and repeated keys included |
| Json.HexRoundTrip | packages/core/src/json.ts:91-95 | Four hexadecimal digits of a code unit read back as that unit |
| OutputParser.AcceptedPlan | packages/agent/src/agent-output-parser.ts:71-262 | Whatever the input, an accepted plan has a summary and titles, names what it would change or run, asks no questions, and has one assumption, step, action and check per entry of the input |
| PlanReading.PlanExact | packages/agent/src/agent-output-parser.ts:71-262 | A parsed value is accepted as a plan exactly if it says that plan: which members may be missing, which may not be empty or blank, and what each kind of action needs |
| OutputParser.ValidateAgentPlan | packages/agent/src/agent-output-parser.ts:71-154 | The validating loops compute the specification function, error by error in order |
| OutputParser.ParseAgentPlan | packages/agent/src/agent-output-parser.ts:29-63 | Extracting, parsing, validating and redacting compute the specification that the round trip is about |
| AgentJson.ExtractAgentPlanEnvelope | packages/core/src/json.ts:7-26 | The scanner finds the envelope of the first opening up to the first fence outside string literals, and null exactly if there is none |
| AgentJson.EnvelopeUnique | packages/core/src/json.ts:8-22 | A text has at most one envelope in that sense |
| AgentJson.FindOpening | packages/core/src/json.ts:8-9 | The leftmost opening followed by white space, or none |
| AgentJson.EscapeControlCharsInsideJsonStrings | packages/core/src/json.ts:46-101 | The index loop computes the recursive repair |
| JsonRepair.ParseJsonAllowingMultilineStrings | packages/core/src/json.ts:28-44 | Parsing as is and then repaired equals one lenient parse that reads raw control characters inside literals, line ends as line feeds |
| JsonRepair.RepairIsLenientParse | packages/core/src/json.ts:34-39 | Strict parsing of the repaired text is lenient parsing of the original, for every text |
| JsonRepair.StrictIsLenient | packages/core/src/json.ts:31-33 | What strict parsing accepts, lenient parsing reads the same way |
| JsonRepair.RepairKeepsOutside | packages/core/src/json.ts:54-73 | The repair changes nothing outside string literals and keeps the in-string, escaped or outside state in which later text is read |
| JsonRepair.RepairClean | packages/core/src/json.ts:75-96 | After the repair no literal holds an unescaped control character |
| JsonRepair.RepairKeepsEscaped | packages/core/src/json.ts:60-69 | Control characters right after a backslash are kept, in order, and none is added |
| JsonRepair.RepairIdentity | packages/core/src/json.ts:100 | The repair is the identity exactly on texts without such characters |
| JsonRepair.RepairIdempotent | packages/core/src/json.ts:46-101 | Repairing twice is repairing once |
| StreamLimits.Utf8Tail | packages/agent/src/agent-stream-limits.ts:126-132 | Skipping continuation bytes and decoding gives the longest suffix of whole characters within the limit |
| StreamLimits.BoundedTextBuffer.Append | packages/agent/src/agent-stream-limits.ts:21-44 | After any appends the retained text is that suffix of everything appended, retained plus dropped bytes are all bytes, and retained bytes are its size |
| StreamLimits.BoundedTextBuffer.TrimHead | packages/agent/src/agent-stream-limits.ts:50-76 | Trimming cuts the retained text to its longest fitting suffix, and compaction leaves it alone |
| StreamLimits.BoundedTextBuffer.Value | packages/agent/src/agent-stream-limits.ts:46-48 | The value is the longest fitting suffix of everything appended |
| StreamLimits.BufferContract | packages/agent/src/agent-stream-limits.ts:9-77 | What that means: a suffix within the limit, everything if it fits, otherwise at least the limit less three bytes, and no longer suffix fits |
| StreamLimits.TailLongest | packages/agent/src/agent-stream-limits.ts:129-131 | Every longer suffix exceeds the limit, and at most three bytes of room are wasted |
| StreamLimits.TailDropsFront | packages/agent/src/agent-stream-limits.ts:24-37 | A front is irrelevant once what follows it fills the limit |
| StreamLimits.BoundedAgentStreamEventBuffer.Push | packages/agent/src/agent-stream-limits.ts:94-119 | The retained events are the longest suffix of the individually admissible ones within both limits, and counts and bytes are conserved |
| StreamLimits.BoundedAgentStreamEventBuffer.Evict | packages/agent/src/agent-stream-limits.ts:104-113 | The eviction loop ends before the newest event is reached |
| StreamLimits.BoundedAgentStreamEventBuffer.ToArray | packages/agent/src/agent-stream-limits.ts:121-123 | The result is that suffix; kept plus dropped events and bytes equal what was pushed |
| StreamLimits.LongestFitIsLongest | packages/agent/src/agent-stream-limits.ts:104-107 | It is a suffix that fits both limits, and no longer suffix does |
| StreamLimits.LongestFitAppend | packages/agent/src/agent-stream-limits.ts:94-113 | Evicting after each push leaves the same events as evicting once at the end |
| StreamLimits.AdmissibleExact | packages/agent/src/agent-stream-limits.ts:95-100 | Individually admissible are, in order, exactly the events within the byte limit |
| Utf8.DecodeEncoded | packages/agent/src/codex-exec-stream.ts:24-57 | Decoding an encoding returns the characters |
| Utf8.EncodeDecoded | packages/agent/src/codex-exec-stream.ts:24-57 | Encoding what was decoded, and what is left, returns the bytes |
| Utf8.DecodeConcat | packages/agent/src/codex-exec-stream.ts:47-57 | Decoding in two pieces, carrying the incomplete character over, is decoding at once |
| CodexEvents.UsageExact | packages/agent/src/codex-exec-stream.ts:12-20 | Usage is accepted exactly as the object states it - absent parts being zero - if the parts are at most their wholes and the sum is a safe integer |
| CodexEvents.ResultIsLastTurn | packages/agent/src/codex-exec-stream.ts:73-153 | A stream is answered exactly if every frame is acceptable, the last turn completed, and its last final message is not blank; the text is that message and the usage that of the first completion of the turn, never a sum |
| CodexEvents.RunRemembers | packages/agent/src/codex-exec-stream.ts:122-153 | The machine has not failed exactly if every frame may follow those before it, and then remembers the last turn |
| CodexAnswer.AnswerExact | packages/agent/src/codex-exec-stream.ts:73-153 | In terms of the parsed lines: a run answers with a text and a usage exactly if every line is an envelope that is no failure, no final message is too long or follows a completion of its turn, completions of a turn agree, the last turn was completed first with that usage, and its last final message - an agent or assistant message without phase or of phase final_answer - says that text, which is not blank |
| CodexAnswer.StreamAnswers | packages/agent/src/codex-exec-stream.ts:24-153 | However its bytes are cut, a run answers with a text and a usage exactly if they are UTF-8 to the end and the lines between their line feeds do |
| CodexAnswer.KindExact | packages/agent/src/codex-exec-stream.ts:115-153 | Which members make a line a failure, a start, a completion or a final message, and what its text and usage are |
| CodexAnswer.NamesExact | packages/agent/src/codex-exec-stream.ts:142 | Turned into a string, a type reads as one of the two message names exactly if it is that text, alone or inside arrays of one |
| CodexAnswer.TextExact | packages/agent/src/codex-exec-stream.ts:146-148 | The text of an item is its text member, else its content as a string, else the texts of the parts of its content in order |
| CodexAnswer.DeliveredExact | packages/agent/src/codex-exec-stream.ts:122 | onFrame gets every envelope among the lines, once and in order |
| CodexStream.ChunkIndependence | packages/agent/src/codex-exec-stream.ts:47-107 | However a stream without malformed UTF-8 is cut into writes, frames, faults, discarded lines, text and usage are those of one write of all of it |
| CodexMalformed.MalformedExact | packages/agent/src/codex-exec-stream.ts:47-58 | The frames and faults of a stream with malformed UTF-8 are the same for every cut exactly if its text before the first malformed byte is white space within the frame limit; written at once it shows the fault alone |
| CodexMalformed.MalformedTurnExact | packages/agent/src/codex-exec-stream.ts:47-153 | Its turn - failure, answer, usage and delivered events - is the same for every cut exactly if that text stays within the frame limit, is blank up to its last line, and no front of that line is an event |
| CodexMalformed.CutIsFront | packages/agent/src/codex-exec-stream.ts:47-58 | Whatever the cut, what is seen of a malformed stream is some well-formed front of it, the fault, and the last line of that front |
| CodexMalformed.FrontIsCut | packages/agent/src/codex-exec-stream.ts:47-58 | And every front of the text before the first malformed byte is what some cut shows |
| CodexMalformed.FedNothing | packages/agent/src/codex-exec-stream.ts:90-121 | Framing a text yields no frame and no fault exactly if every line fits and all lines that ended are blank |
| CodexMalformed.MalformedDependsOnChunks | packages/agent/src/codex-exec-stream.ts:47-58 | A concrete stream whose first failure depends on the cut |
| CodexStream.FeedConcat | packages/agent/src/codex-exec-stream.ts:90-107 | Framing text in two parts is framing it at once |
| CodexStream.FeedPart | packages/agent/src/codex-exec-stream.ts:95-102 | A part without a line feed extends the line, and crossing the limit is reported once |
| CodexStream.CodexExecStream.WriteBytes | packages/agent/src/codex-exec-stream.ts:47-58 | write implements the machine step and returns the decoded text |
| CodexStream.CodexExecStream.Feed | packages/agent/src/codex-exec-stream.ts:90-107 | The slicing loop implements the fold over characters |
| CodexStream.CodexExecStream.Frame | packages/agent/src/codex-exec-stream.ts:109-121 | A line that is neither discarded nor blank is one frame of the turn machine |
| CodexStream.CodexExecStream.Judge | packages/agent/src/codex-exec-stream.ts:122-153 | The branches over event types implement one step of the turn machine |
| CodexStream.CodexExecStream.EndOfStream | packages/agent/src/codex-exec-stream.ts:61-71 | end implements the last step: an incomplete character is a fault and the last line needs no line feed |
| CodexStream.CodexExecStream.TakeResult | packages/agent/src/codex-exec-stream.ts:73-80 | The result is the outcome of the turn machine over all frames |
| CodexStream.CodexExecStream.TokenUsage | packages/agent/src/codex-exec-stream.ts:82-86 | The usage is that of the machine, and only after a complete stream |
| RedactedSlices.SlicesConserve | packages/core/src/redacted-agent-stream.ts:42-56 | The slices of a channel's entries, put together, are the channel's redacted text, whatever its length |
| RedactedSlices.OmittedOnce | packages/core/src/redacted-agent-stream.ts:36-53 | When text is omitted, the first entry of a channel carries the marker and the others nothing |
| RedactedSlices.UnredactedUnchanged | packages/core/src/redacted-agent-stream.ts:48-53 | If redaction leaves a channel's text alone, every event gets back exactly its own text |
| RedactedSlices.OutputIsTaken | packages/core/src/redacted-agent-stream.ts:50-54 | What a channel emitted so far is the part of its text taken so far |
| RedactedStream.RunBounded | packages/core/src/redacted-agent-stream.ts:65-104 | After any pushes the buffer is within both limits, and pendingChars is both the buffered channel text and the sum of entry lengths |
| RedactedStream.PushBounded | packages/core/src/redacted-agent-stream.ts:65-104 | One push keeps those bounds |
| RedactedBoundary.EmitsExact | packages/core/src/redacted-agent-stream.ts:79-103 | A text push that neither overflows nor discards emits exactly if it ends a line or a message and what every channel received since it was last cleared ends outside string literals with no bracket open; discarding ends under the same condition |
| RedactedBoundary.RunHears | packages/core/src/redacted-agent-stream.ts:81-88 | After any pushes every channel stands where the text it received since then leaves it |
| RedactedBoundary.SettledExact | packages/core/src/redacted-agent-stream.ts:110-120 | Scanning a text leaves nothing open exactly if it ends outside literals and no ending of what lies outside them opens more brackets than it closes |
| RedactedOutput.LeavesExact | packages/core/src/redacted-agent-stream.ts:29-103 | At every push of every run, what is emitted for a channel is the redaction, as one text, of everything pushed for it since its text last left; or one marker where a limit is exceeded; or nothing - and what is neither emitted, given up nor discarded is still held |
| RedactedOutput.FlushLeaves | packages/core/src/redacted-agent-stream.ts:61-65 | A flush after any pushes emits for every channel the redaction of what is held of it and leaves nothing behind |
| RedactedStream.FlushConserves | packages/core/src/redacted-agent-stream.ts:28-57 | Per channel a flush emits exactly the redaction of the text pushed for it, or one marker if it omits |
| RedactedStream.RedactedAgentStream.Push | packages/core/src/redacted-agent-stream.ts:65-104 | push computes the specification; emitted events stem from pushed ones in push order, each at most once |
| RedactedStream.RedactedAgentStream.FlushPending | packages/core/src/redacted-agent-stream.ts:28-57 | The two loops emit the specified slices; conservation per channel and order hold of what was emitted |
| RedactedStream.RedactedAgentStream.Flush | packages/core/src/redacted-agent-stream.ts:59-63 | flush emits everything buffered and forgets the channels |
| RedactedStream.Scan | packages/core/src/redacted-agent-stream.ts:110-120 | The scanning loop computes nesting and quoting of the whole text |
| RedactedStream.CountEntries | packages/core/src/redacted-agent-stream.ts:32-35 | The counting loop counts each channel's entries |
| ResourceLimits.BoundedJsonBytes | packages/agent/src/a2a-resource-limits.ts:41-90 | Success exactly if the data denotes a JSON value of at most 33 levels and 100000 nodes whose serialization fits; the result is the UTF-8 length of that serialization; each failure is true for its reason |
| ResourceLimits.PrintedBytes | packages/agent/src/a2a-resource-limits.ts:45-83 | The UTF-8 length of the serialization adds up over containers, commas, colons and brackets |
| ResourceLimits.QuotedBytes | packages/agent/src/a2a-resource-limits.ts:45-54 | A quoted string takes its UTF-8 length, two quotes, and the extra bytes of escapes |
| ResourceLimits.EscapedBytes | packages/agent/src/a2a-resource-limits.ts:47-53 | The extras are exact for quotes, backslashes, control characters, paired and lone surrogates |
| ResourceLimits.LevelsExact | packages/agent/src/a2a-resource-limits.ts:55-56 | The depth limit decides only whether data denotes a value: it does exactly if the value nests within the limit |
| ResourceLimits.UnfoldExact | packages/agent/src/a2a-resource-limits.ts:41-90 | Which JSON value data stands for, told from the value part by part - undefined and missing elements as null, undefined members left out, NaN and infinities as null - and that it is found within a limit exactly if it nests no deeper |
| ResourceLimits.MeasuresExact | packages/agent/src/a2a-resource-limits.ts:41-90 | Data is measured exactly if it stands for some value within the three limits, and then for that one |
| ResourceLimits.CyclesDenoteNothing | packages/agent/src/a2a-resource-limits.ts:62 | An object above itself denotes nothing under any limit, so rejecting ancestors never rejects serializable data |
| ResourceLimits.ByteMeter.Visit | packages/agent/src/a2a-resource-limits.ts:55-87 | The traversal adds exactly the nodes and bytes of what it visits, or fails for a true reason, and restores the ancestors |
| ResourceLimits.ByteMeter.VisitSlots | packages/agent/src/a2a-resource-limits.ts:68-73 | The same for array elements, holes and undefined counting as null |
| ResourceLimits.ByteMeter.VisitProperties | packages/agent/src/a2a-resource-limits.ts:74-84 | The same for own properties, undefined ones skipped and keys counted as nodes |
| ResourceLimits.ByteMeter.AddString | packages/agent/src/a2a-resource-limits.ts:45-54 | The index loop with early cut-off adds the exact bytes of a string or fails exactly if they do not fit |
| ResourceLimits.MeterBounds | packages/agent/src/a2a-resource-limits.ts:92-106 | Whatever arrives, the values let through stay within the count, the size of each and the total |
| ResourceLimits.ResponseMeter.Measure | packages/agent/src/a2a-resource-limits.ts:95-104 | event and artifact implement the meter step |
| InvocationQueue.RunSound | packages/agent/src/agent-invocation-queue.ts:51-167 | Over every run: per lane, entries start in order of arrival, dropped ones excepted, each only after the one before it settled; every entry is alive or ended, never both nor twice; nobody waits for a free lane; only the default lane is kept while empty |
| InvocationQueue.StepSound | packages/agent/src/agent-invocation-queue.ts:51-167 | Every operation keeps that |
| InvocationQueue.DepthIsUnsettled | packages/agent/src/agent-invocation-queue.ts:120-128 | The number of live entries is the number of entries not yet ended, and no entry ends twice |
| InvocationQueue.CancelledNeverStarts | packages/agent/src/agent-invocation-queue.ts:100-118 | An entry cancelled while it waited never starts, in any lane, whatever happens later |
| InvocationQueue.CancelReaches | packages/agent/src/agent-invocation-queue.ts:100-118 | cancel finds whatever is live; where the identifier is unique nothing is left but an aborted entry in flight |
| InvocationQueue.LaneKeysDistinct | packages/agent/src/agent-invocation-queue.ts:173-176 | Different lane keys name different lanes, and only a missing or empty one the default lane |
| QueueProgress.SettleExact | packages/agent/src/agent-invocation-queue.ts:75-87 | Settling a lane whose work was called appends that entry as settled and then the first waiter, if any, as started; nothing else changes |
| QueueProgress.BeginExact | packages/agent/src/agent-invocation-queue.ts:72-75 | Calling the work in flight marks that entry and changes nothing else |
| QueueProgress.EnqueueExact | packages/agent/src/agent-invocation-queue.ts:63-93 | A new entry goes behind the others of its lane; in a free lane the first waiter starts at once |
| QueueProgress.CancelExact | packages/agent/src/agent-invocation-queue.ts:100-118 | In the first lane that holds the identifier the entry in flight is aborted, or else the first waiter with it is dropped; nothing else changes |
| QueueProgress.EveryEntrySettles | packages/agent/src/agent-invocation-queue.ts:51-93 | After every run every live entry settles if the works of its lane are called and settle |
| InvocationQueue.AgentInvocationQueue.Enqueue | packages/agent/src/agent-invocation-queue.ts:51-93 | enqueue implements its step |
| InvocationQueue.AgentInvocationQueue.Cancel | packages/agent/src/agent-invocation-queue.ts:100-118 | The loop over lanes implements the cancel step and its result |
| InvocationQueue.AgentInvocationQueue.Settle | packages/agent/src/agent-invocation-queue.ts:75-87 | Either callback of the work implements the settle step |
| InvocationQueue.AgentInvocationQueue.Drain | packages/agent/src/agent-invocation-queue.ts:139-149 | The first waiting entry takes a free lane; an empty lane is pruned |
| InvocationQueue.AgentInvocationQueue.GetDepth | packages/agent/src/agent-invocation-queue.ts:121-128 | The loop counts the live entries |
| InvocationQueue.AgentInvocationQueue.IsBusy | packages/agent/src/agent-invocation-queue.ts:131-137 | True exactly if an entry with the identifier is live |
| PlanningCancellation.FiredNeverRuns | packages/agent/src/agent-planning-service.ts:984-1008 | In every interleaving, once a cancellation fired - it returned the cancelled row it persisted, or belongs to a shutdown and ended - no continuation starts the process, and if it runs its signal is fired; cancellations persisted before registration included |
| PlanningCancellation.SealedNeverRuns | packages/agent/src/agent-planning-service.ts:284-296 | An invocation not registered when the service is sealed is never started |
| PlanningCancellation.ChecksExact | packages/agent/src/agent-planning-service.ts:1465-1484 | The checks before the queue let the planner on exactly if neither its row nor its task is cancelled and no signal is fired |
| PlanningCancellation.TaskCancelledNeverRuns | packages/agent/src/agent-planning-service.ts:1474-1483 | A planner that finds its task cancelled never starts the process, whatever happens |
| PlanningCancellation.SealedCancelsItself | packages/agent/src/agent-planning-service.ts:1470-1483 | A planner that finds the service sealed, left alone, cancels its own row unless that is finished, aborts its signal and fails at its checks |
| PlanningCancellation.CancellationAlone | packages/agent/src/agent-planning-service.ts:984-1008 | A cancellation that is left alone returns a finished row and changes nothing, or else writes the row and aborts what is registered and what is queued or in flight |
| PlanningCancellation.ConclusionRecorded | packages/agent/src/agent-planning-service.ts:943-952 | A planner that is done records its outcome unless the row was cancelled meanwhile |
| PlanningCancellation.ReturnedCancelledExact | packages/agent/src/agent-planning-service.ts:994 | With the row cancelled, the process can still start or run unaborted exactly if the planner is past its checks with neither signal fired; then the cancellation that persisted the row has not fired yet |
| PlanningCancellation.EarlyReturnCanStart | packages/agent/src/agent-planning-service.ts:994-1006 | That case is real: a run in which the second of two callers returns the cancelled row and the process is started later |
| PlanningCancellation.FinishedNotAborted | packages/agent/src/agent-planning-service.ts:1001-1006 | A cancellation that finds a finished row aborts nothing |
| PlanningCancellation.FiringDooms | packages/agent/src/agent-planning-service.ts:1003-1006 | Firing dooms the planner: before registration through the row, afterwards through the signals |
| PlanningCancellation.RunSound | packages/agent/src/agent-planning-service.ts:545-636 | Over every run planner, queue entry, registration and row agree; a cancelled row leaves the planner doomed or a cancellation yet to fire |
| PlanningCancellation.StartsAtMostOnce | packages/agent/src/agent-planning-service.ts:619-634 | The process of an invocation is started at most once |
| PlanningCancellation.LeftToItself | packages/agent/src/agent-planning-service.ts:548-634 | A planner past its checks, left to itself, starts the process |
| WorkScope.ShutdownProtocol | apps/desktop/electron/a2a-worker-composition.ts:82-99 | At a shutdown every admitted call whose body runs has its controller in the set and aborted; none is admitted later; when a shutdown has returned no admitted call is unfinished |
| WorkScope.SealedAdmitsNothing | packages/core/src/async-work-scope.ts:10-22 | A sealed scope admits nothing, and aborted calls stay aborted |
| WorkScope.AbortedStays | apps/desktop/electron/a2a-worker-composition.ts:85-91 | No call is forgotten, and one whose signal was aborted, by its caller or by a shutdown, stays aborted in every run |
| WorkScope.AbortedBeforehand | apps/desktop/electron/a2a-worker-composition.ts:87 | A call whose caller had aborted it before is admitted aborted and stays so |
| WorkScope.RunSound | packages/core/src/async-work-scope.ts:10-26 | Over every run the controllers are those of running bodies and the pending set that of promises not yet removed; a drain returns only with none pending |
| WorkScope.ShutdownCanReturn | packages/core/src/async-work-scope.ts:24-26 | If bodies end, a waiting shutdown returns |
| WorkScope.WorkerRouter.InvokeForWorker | apps/desktop/electron/a2a-worker-composition.ts:83-93 | A sealed scope rejects and changes nothing; otherwise the call is admitted, with its controller and its promise recorded and aborted if its caller had aborted it |
| WorkScope.WorkerRouter.BeginShutdown | apps/desktop/electron/a2a-worker-composition.ts:94-98 | Sealing and the loop over controllers abort exactly the running calls and enter the drain loop |
| WorkScope.WorkerRouter.ResumeDrain | packages/core/src/async-work-scope.ts:24-26 | The drain loop looks again when everything it found has settled |
| RateLimiter.WindowBound | packages/agent/src/a2a-server-gateway.ts:82-100 | With a clock that does not go back, a half-open interval as long as a window admits at most 2 * max(1, maxRequests) - 1 calls per key, max(1, maxRequests) if a window is one millisecond |
| RateLimiter.AdmittedInWindow | packages/agent/src/a2a-server-gateway.ts:89-97 | The bound by position of the interval relative to the current bucket |
| RateLimiter.Fills | packages/agent/src/a2a-server-gateway.ts:94-96 | Calls within the quota and the window are all admitted |
| RateLimiter.BoundReached | packages/agent/src/a2a-server-gateway.ts:89-97 | For all options there is a run that reaches the bound |
| RateLimiter.DeniedOnlyWhenFull | packages/agent/src/a2a-server-gateway.ts:94 | A call is denied only if the full quota of its key was admitted less than one window earlier |
| RateLimiter.KeysIndependent | packages/agent/src/a2a-server-gateway.ts:86-91 | Other keys' calls do not matter |
| RateLimiter.InMemoryRateLimiter.Allow | packages/agent/src/a2a-server-gateway.ts:88-98 | allow implements the step of the key's bucket and touches no other |
| ValidationEvidence.SelectCurrentValidationEvidence | packages/core/src/validation-evidence-policy.ts:18-75 | The selected runs are exactly the newest ones that count, ascending, at most one per checker; the reasons are exactly those of the others, without repetition |
| ValidationEvidence.ChosenSound | packages/core/src/validation-evidence-policy.ts:36-72 | A selected run is recorded, finished, current and linked to a matching terminal step and artifact; no run of its checker is newer, whatever its status, and none as new has another identifier |
| ValidationEvidence.ChosenExact | packages/core/src/validation-evidence-policy.ts:30-80 | Over the lists as read: a run is selected exactly if it is the first of the highest of its task and checker, undisputed, of a positive safe sequence, current, finished with an integer exit, and agrees with the last step and artifact under its identifiers |
| ValidationEvidence.VerdictExact | packages/core/src/validation-evidence-policy.ts:40-72 | What a newest run has to satisfy to count, condition by condition, and which reason it is refused for: ordering, workspace, status, the step of the runner that has to have succeeded exactly if the run did, its output, its exit code |
| ValidationEvidence.DistinctMeansNewest | packages/core/src/validation-evidence-policy.ts:27-31 | Where a checker never repeats a sequence, selection depends on the set of runs only |
| ValidationEvidence.AmbiguousExact | packages/core/src/validation-evidence-policy.ts:27-32 | A checker is ambiguous exactly if some run of it ties, under another identifier, with an earlier one and no run before it is higher |
| ValidationEvidence.AmbiguityOrderExact | packages/core/src/validation-evidence-policy.ts:27-32 | A checker is ambiguous in every order of its runs or in none exactly if runs of different identifiers tie at its highest sequence or nowhere |
| ValidationEvidence.OrderFreeExact | packages/core/src/validation-evidence-policy.ts:27-72 | What is selected of a checker is the same in every order exactly if its highest runs tie, or none of them would count, or nothing ties and the highest run is one |
| ValidationEvidence.SelectionOrderExact | packages/core/src/validation-evidence-policy.ts:18-75 | The set of selected runs is the same in every order of the runs exactly if that holds of every checker |
| ValidationEvidence.OutcomeOrderExact | packages/core/src/validation-evidence-policy.ts:27-72 | What a checker contributes, its selected run or the reason it is refused, is the same in every order exactly if its highest runs tie, or all are refused for their ordering, or nothing ties and the highest runs come to the same |
| ValidationEvidence.OutcomesAreEvidence | packages/core/src/validation-evidence-policy.ts:36-74 | The selected runs and the reasons are exactly what the checkers contribute |
| ValidationEvidence.OrderMatters | packages/core/src/validation-evidence-policy.ts:30-31 | An example: a tie before a newer run makes the checker ambiguous for good, a tie after it does not |
| ValidationEvidence.NewestRuns | packages/core/src/validation-evidence-policy.ts:25-32 | The first loop finds the newest run of every checker and the ambiguous checkers |
| ValidationEvidence.LatestIsHighest | packages/core/src/validation-evidence-policy.ts:27-31 | The newest run has the highest sequence of its checker, and if unambiguous all runs that share it have its identifier |
| ValidationEvidence.SortedFacts | packages/core/src/validation-evidence-policy.ts:39 | Sorting gives an ascending permutation |
| CodeChangeAttempt.CodeChangeLoopService.RunAttempt | packages/orchestration/src/code-change-loop-service.ts:72-226 | Against any interference: the call throws exactly if something cannot be loaded, if after the first failed execution one of the rejections that follow is refused, or if at the very end the task may not get the status that follows from the outcome; unless it throws before that end, every approval of the batch, applied or not, is claimed, executed or rejected; if it returns, the task is blocked exactly if the first failed change was no mismatch, quality_failed exactly if it was one or a check or a current run failed, and ready for review otherwise; verified means exactly that all executions passed, what was read vouches for it and the gate passes |
| CodeChangeAttempt.CodeChangeLoopService.RunBatch | packages/orchestration/src/code-change-loop-service.ts:122-225 | The two loops throw exactly if a rejection is refused, and otherwise end at the specified moment with the specified outcome and the whole batch resolved |
| CodeChangeAttempt.CodeChangeLoopService.SetTaskStatus | packages/storage/src/services/local-state-service.ts:421-427 | It throws exactly if the transition is not allowed from the status it reads, or another status than that and the target stands where it writes |
| CodeChangeAttempt.CodeChangeLoopService.RejectIfUnresolved | packages/orchestration/src/code-change-loop-service.ts:294-305 | It throws exactly if the approval is open at its first read and is then locked when decide reads it, or missed by the update because it changed, was replaced or its task is closed; if it returns, the approval is resolved |
| CodeChangeAttempt.CodeChangeLoopService.ResolveFailed | packages/orchestration/src/code-change-loop-service.ts:269-292 | It throws exactly if some rejection, in order, is refused where it stands, and then stops right there; if it returns, the failed and all skipped approvals are resolved |
| CodeChangeAttempt.CodeChangeLoopService.ExecuteApproved | packages/runners/src/runner-service.ts:193-221 | The runner reads, claims and executes as specified; whatever ran is claimed and stays resolved |
| CodeChangeAttempt.ExecuteClaims | packages/runners/src/runner-service.ts:193-221 | An execution that ran was claimed first, so its approval is resolved at every later moment |
| CodeChangeAttempt.RejectionsResolve | packages/orchestration/src/code-change-loop-service.ts:269-292 | If no rejection of a batch is refused, every approval of it is resolved at the end |
| CodeChangeThrows.LoadsExact | packages/orchestration/src/code-change-loop-service.ts:229-268 | A batch is loaded exactly if the task is known and, when each is looked up in turn, every change is an approved patch or write of that task and every check an approved command of it |
| CodeChangeThrows.QuietRefusal | packages/storage/src/repositories/approval-repository.ts:197-250 | Where nobody interferes, rejecting an open approval throws exactly if its task is closed or it was replaced |
| CodeChangeThrows.QuietExecutionExact | packages/runners/src/runner-service.ts:193-221 | Where nobody interferes, exactly an approved approval of an open task, neither claimed nor replaced, is claimed and executed if the runner gets that far |
| CodeChangeThrows.QuietRejectionExact | packages/orchestration/src/code-change-loop-service.ts:294-305 | Where nobody interferes, a rejection rejects exactly an open approval of an open task that was not replaced, and changes nothing else |
| CodeChangeThrows.QuietLeavesOpen | packages/orchestration/src/code-change-loop-service.ts:269-292 | Then the first rejection throws and the store is as it was: every other approval of the batch stays as it is |
| CodeChangeThrows.ClosedTaskThrows | packages/orchestration/src/code-change-loop-service.ts:131-162 | A concrete run of one change and one check: the task is closed while the change executes, the attempt throws, and the check stays approved and unclaimed though it never ran |
| CodeChangeThrows.QuietFinish | packages/orchestration/src/code-change-loop-service.ts:393-395 | Where nobody interferes, finishing throws exactly if the task is done or cancelled, or is ready for review and would have to be blocked |
| CodeChangeThrows.QuietNothing | packages/orchestration/src/code-change-loop-service.ts:122-129 | Where nobody interferes, an attempt without approvals throws exactly if its task is done, cancelled or not there |
| CodeChangeThrows.CancelledBefore | packages/orchestration/src/code-change-loop-service.ts:72-226 | On a task cancelled beforehand every attempt throws, whatever else happens |
| CodeChangeThrows.CancelledInTime | packages/orchestration/src/code-change-loop-service.ts:354-396 | An attempt whose task is cancelled by the time the gate is recorded throws, even if everything passed |
| CodeChangeThrows.ReviewedTaskThrows | packages/orchestration/src/code-change-loop-service.ts:131-162 | On a task that is ready for review, without interference, a first change that fails for another reason than a mismatch has the whole batch rejected, no rejection is refused, and then the attempt throws, for that task may not become blocked |
| CodeChangeAttempt.CodeChangeLoopService.FinishAttempt | packages/orchestration/src/code-change-loop-service.ts:354-396 | An attempt stays verified exactly if what was read vouches for it and the gate passes, and a current failure turns it into a failed verification; the call throws exactly if the task may not get the status that follows, and otherwise leaves it blocked, quality_failed or ready for review by outcome |
| CodeChangeAttempt.CodeChangeLoopService.ReadValidation | packages/orchestration/src/code-change-loop-service.ts:464-485 | What is returned is the selection over what each read saw, and empty with a reason if the second look differs |
| CodeChangeAttempt.CodeChangeLoopService.LoadApprovedApprovals | packages/orchestration/src/code-change-loop-service.ts:228-267 | Loading succeeds exactly if every approval, when looked up, exists, belongs to the task, has a fitting type and is approved |
| CodeChangeAttempt.CodeChangeLoopService.ApplyChanges | packages/orchestration/src/code-change-loop-service.ts:131-162 | The first loop applies the changes up to the first that fails; then it throws exactly if one of the rejections is refused, and otherwise the whole batch is resolved |
| CodeChangeAttempt.CodeChangeLoopService.RunVerifications | packages/orchestration/src/code-change-loop-service.ts:164-213 | The second loop stops at the first check that does not pass; then it throws exactly if one of the rejections is refused, and otherwise all checks are resolved |
| CodeChangeAttempt.AllChecksPassed | packages/orchestration/src/code-change-loop-service.ts:361-365 | The nested loops decide whether every requested check passed |
| CodeChangeLoop.VouchesMeans | packages/orchestration/src/code-change-loop-service.ts:354-375 | What verified means: the read was of one moment, the newest relevant run of every checker succeeded on the current revision with no mutation going on, and covers the newest run of every requested approval |
| CodeChangeLoop.VouchesExact | packages/orchestration/src/code-change-loop-service.ts:359-375 | A read vouches for an attempt exactly if it was stable, the newest run of every checker counts and succeeded, and the newest run of every requested approval is relevant and no newer than that of its checker |
| CodeChangeLoop.GateMeans | packages/storage/src/repositories/quality-gate-repository.ts:120-127 | If the gate passes, the task's runs and the mutation epoch are at that moment still those that were read, and no mutation is going on |
| CodeChangeLoop.GateExact | packages/storage/src/repositories/quality-gate-repository.ts:120-127 | After a stable read of a workspace with a fingerprint the gate passes exactly if runs and epoch are still those that were read, with no mutation going on |
| CodeChangeLoop.CancelledLater | packages/core/src/task-run/task-run-transition.ts:69 | No interference reopens a cancelled task |
| CodeChangeLoop.StableRead | packages/orchestration/src/code-change-loop-service.ts:467-482 | If the second look agrees with the first, runs and mutation epoch stood still during the whole read |
| CodeChangeLoop.LaterSteady | packages/storage/src/repositories/validation-run-repository.ts:113-116 | The watermark never goes back, and while it stands still neither do the runs change; likewise the generation |
| CodeChangeLoop.RunFinished | packages/storage/src/repositories/validation-run-repository.ts:70-104 | Finishing a run raises the watermark of its task by one and leaves other tasks alone |
| CodeChangeLoop.ApplySteady | packages/storage/src/repositories/workspace-mutation-repository.ts:16-45 | Every kind of interference keeps both |
| CodeChangeLoop.ApplyApprovals | packages/storage/src/repositories/approval-repository.ts:197-299 | No decision, edit, claim or replacement makes a resolved approval unresolved |
| CodeChangeLoop.NewestIssuedFacts | packages/orchestration/src/code-change-loop-service.ts:362 | Sorting descending and taking the first gives a run of the approval with the highest sequence |
| McpFraming.WellFormedRead | apps/desktop/electron/mcp-probe.ts:302-328 | A well-formed frame in front of anything is read as its payload and exactly what follows |
| McpFraming.PrefixUnread | apps/desktop/electron/mcp-probe.ts:305-319 | No proper prefix of a well-formed frame is read as anything |
| McpFraming.FramesDecoded | apps/desktop/electron/mcp-probe.ts:185-190 | Concatenated frames decode to their payloads in order, and an incomplete last one is left alone |
| McpFraming.ReadShortens | apps/desktop/electron/mcp-probe.ts:185-190 | Every read shortens the buffer from the front, so the loop ends |
| McpFraming.ReadStable | apps/desktop/electron/mcp-probe.ts:302-328 | What is read does not depend on what arrives later |
| McpFraming.SeparatorStable | apps/desktop/electron/mcp-probe.ts:330-341 | More input never moves a separator that was found, of either kind |
| McpFraming.FieldFound | apps/desktop/electron/mcp-probe.ts:308-309 | The length field counts wherever it stands in a header in which no earlier position matches name, blanks and a digit, up to the first byte that is no digit |
| McpFraming.LengthDigitsExact | apps/desktop/electron/mcp-probe.ts:309 | The digits found are those of the leftmost field in any case, whole, and none are found exactly if the header has no field |
| McpFraming.ContentLengthExact | apps/desktop/electron/mcp-probe.ts:307-313 | A header gives a body length exactly if the decimal digits of its leftmost field write it and it is a safe integer |
| McpFraming.FrameWellFormed | apps/desktop/electron/mcp-probe.ts:217-221 | The frames the probe itself writes are well-formed |
| McpFraming.DrainedInPieces | apps/desktop/electron/mcp-probe.ts:183-190 | Draining may be interrupted: what arrives later is drained from what was left |
| McpFraming.ChunksDoNotMatter | apps/desktop/electron/mcp-probe.ts:183-193 | As long as leftovers fit 64000 bytes, the probe resolves on the same payloads however the input was cut |
| McpFraming.CutFrameExact | apps/desktop/electron/mcp-probe.ts:183-193 | The condition is needed: a one-line frame that would be accepted, cut in two, is found exactly if its first part fits 64000 bytes |
| McpFraming.FrameReader.OnData | apps/desktop/electron/mcp-probe.ts:183-193 | The handler implements its step, truncation included |
| RepoIndex.RefreshRebuildsExact | packages/agent/src/repo-index-service.ts:134-168 | Incremental equals rebuild: a refresh under any limits leaves the rows of the target as a rebuild would, updatedAt aside, exactly if for every listed unchanged file both read limits - the one its row was computed with and the present one - lie on the same side of its size or the derivations with and without content agree |
| RepoIndex.RunRebuiltExact | packages/agent/src/repo-index-service.ts:77-177 | The same after any run of refreshes of any targets, each with its own limits |
| RepoIndex.RunRebuilt | packages/agent/src/repo-index-service.ts:106-177 | With one read limit throughout, every successful refresh of every run leaves a rebuilt target, however few old rows were listed and whatever the file limits were |
| RepoIndex.RunTruthful | packages/agent/src/repo-index-service.ts:106-177 | In every run every row says what path, size and time imply under the limit of the refresh that last computed it |
| RepoIndex.MovedLimitLeavesStale | packages/agent/src/repo-index-service.ts:134-147 | One file between two read limits: after a refresh under either one, a refresh under the other leaves a row that a rebuild would not make |
| RepoIndex.RepoIndexService.RefreshOnce | packages/agent/src/repo-index-service.ts:106-177 | From any store a successful refresh leaves exactly the listed rows of unchanged files and fresh rows of the others, no other row of the target, and everything else untouched; it fails exactly if the target is no directory or a found path has no status, and then changes nothing |
| RepoIndex.RepoIndexService.RefreshTarget | packages/agent/src/repo-index-service.ts:77-104 | The same with the limits put into range |
| RepoIndex.OthersStayRebuilt | packages/storage/src/repositories/repo-index-repository.ts:125-161 | Refreshing one target leaves another one rebuilt |
| RepoIndex.CollectFiles | packages/agent/src/repo-index-service.ts:179-205 | The bounded traversal is the first maxFiles files of the unbounded one |
| RepoIndex.Collector.Visit | packages/agent/src/repo-index-service.ts:181-202 | The same for every directory, with what was collected before it |
| RepoIndex.FilesExact | packages/agent/src/repo-index-service.ts:181-202 | The traversal finds exactly the indexed files with no directory on their path that is hidden, .github excepted, or one of tools and builds |
| RepoIndex.RepoIndexService.Scan | packages/agent/src/repo-index-service.ts:128-168 | Rows come out in order, each as specified, and those that had to be computed besides |
| RepoIndex.RepoIndexService.ListByTarget | packages/storage/src/repositories/repo-index-repository.ts:107-123 | The rows of the target that have fewer rows before them than the limit, in ascending order, as many as the limit or all |
| RepoIndex.RepoIndexService.UpsertMany | packages/storage/src/repositories/repo-index-repository.ts:66-105 | The rows are put into the store one after the other |
| RepoIndex.ChangedUpserted | packages/storage/src/repositories/repo-index-repository.ts:66-105 | Storing the computed rows replaces exactly the rows of those paths |
| RepoIndex.RepoIndexService.DeleteMissing | packages/storage/src/repositories/repo-index-repository.ts:125-161 | Exactly the target's rows of other paths are gone |

## Left out

- StrictAcceptance.StrictRoundTrip: number tokens are read by a parameter, since rounding of decimal text to doubles is not modelled; the only number of the wire format is dropped before printing.
- StrictAcceptance.StrictRoundTrip: object keys keep their textual order; the runtime moves keys that look like array indices to the front, which no key of the schema does.
- OutputParser.ParseAgentPlan: the wording of error messages is collapsed to one value per failing check and position.
- CodexStream.ChunkIndependence: holds for input without malformed UTF-8 only; for the rest the exact condition is CodexMalformed.MalformedExact. `JSON.parse` of a line is a parameter.
- CodexStream.CodexExecStream.WriteBytes: an `onFrame` callback that throws, which the program takes for invalid UTF-8, is left out.
- CodexEvents.UsageExact: numbers are reals, so infinities and negative zero do not occur.
- StreamLimits.BoundedTextBuffer.Append: texts are sequences of Unicode scalar values; how lone surrogates are replaced in a buffer is library behaviour. A limit is an integer; its truncation from a fraction is left out.
- StreamLimits.BoundedAgentStreamEventBuffer.Push: the size of an event is a function of the event; its serialization is that of the module Json in the program.
- RedactedStream.RedactedAgentStream.Push: the two redaction functions are parameters, and an `emit` callback that throws is left out.
- ResourceLimits.BoundedJsonBytes: proxies, patched prototypes and own `toJSON` members that the traversal does not visit, as those of arrays, are left out; a finite number is given by its decimal text.
- ResourceLimits.ResponseMeter.Measure: one meter with three limits stands for the event half and the artifact half, which differ in names only.
- InvocationQueue.AgentInvocationQueue.Cancel: listeners that an abort runs synchronously are left out; they would be further steps.
- PlanningCancellation.FiredNeverRuns: states the guarantee for calls that persisted the row or belong to a shutdown; for a call that only found it cancelled the exact condition is ReturnedCancelledExact.
- PlanningCancellation: modelled as a step function on values rather than as a class, because its subject is the interleaving of several callers; preparing MCP settings and recording the learner's choice are two awaits of which only the checks around them are kept, and the same protocol in `invokeForWorkerOnce` is not repeated.
- WorkScope.ShutdownProtocol: what the body of a call does with its signal is not modelled; that it ends is the caller's business.
- RateLimiter.WindowBound: needs a clock that does not go back; times are whole milliseconds.
- ValidationEvidence.SelectCurrentValidationEvidence: sequences and exit codes that are not numbers are left out.
- CodeChangeAttempt.CodeChangeLoopService.RunAttempt: attempt numbers, manifests, step titles and the closing of checkpoint steps are part of the interference; deleting the task while an attempt runs, and failures of the database, the file system or the revision capture, are left out.
- CodeChangeAttempt.CodeChangeLoopService.ExecuteApproved: what keeps a runner from claiming besides the store's own conditions - the task contract, a shutdown, an execution already in flight - is one condition of the environment, and so is the outcome of a claimed execution.
- CodeChangeAttempt.CodeChangeLoopService.ReadValidation: capturing the revision of the workspace is one read, which always yields a workspace key and no empty fingerprint.
- McpFraming.ChunksDoNotMatter: the condition on leftovers is needed (McpFraming.CutFrameExact); decoding payloads, the line-based fallback on the same output, timers and the child process are left out.
- RepoIndex.RefreshRebuildsExact: assumes that a path of equal size and time has equal content.
- RepoIndex.RepoIndexService.RefreshOnce: one refresh sees one state of the disk; sharing of concurrent refreshes and the locale's order of names are left out, and the store's order of texts is any total order.
- SQLite, Electron, IPC, React, fetch, child processes and timers: input and output.
- Secret masks, SHA-256, prompts, reports, heuristics and scores: text or numbers without a sharp specification; they are parameters where a modelled function calls them.
