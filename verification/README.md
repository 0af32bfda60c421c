# Model of a recipe runtime for agents

The repository runs agents from recipes: packages of agent definitions that inherit from one another,
resources selected by globs, and MCP servers reached through a daemon. This project models the parts of
it whose correctness needs more than reading one branch, and proves what they keep.

Text is a sequence of code units (`CodeUnits`), so the same definitions speak about JavaScript strings,
UTF-8 bytes and code points; `Unicode` relates the three. JSON values are a datatype whose objects are
maps (`Json`), with trees that also have an order of members where text is printed in it
(`OrderedJson`). Code of the original that works on expressions is given as functions; its loops and
objects are methods and classes, each proved against such a function. What is concurrent is a state
machine: a class holds the original's fields with one method for each synchronous stretch of code, an
event type names everything that can happen next, and the theorems are about every sequence of events.

| files | what they model |
|---|---|
| SegmentGlob, PathGlob, GlobRegex, InnerStars, CrossingStars, GlobPreparation, UnicodePaths, GlobAgreement | two implementations of path globs, in Rust on bytes and in TypeScript through a regular expression |
| CanonicalJson, JsonEquality, JsonText, JsonPointer, Dereference, SchemaReading, SchemaMeaning | the canonical printer, JSON Pointer, and inlining of references in a schema |
| OutputGuard, MemoryText, MemoryPrompt | text cut to a byte and line budget: tool output, and escaped memory in the system prompt |
| EditDistance | edit distance by rolling rows, and the nearest name |
| OrderedJson, Framing, ErrorFrames, ErrorFilter | newline framing of the daemon's envelopes, the size of its errors, and the line filter on its error stream |
| CallProtocol, CallSteps, CallHistory, CallOutcomes, ToolCalls, ToolCallSteps, ToolCallRuns | a tool call through client, socket, daemon and remote; the first-in first-out limiter of a workflow |
| CompletionQueue, Completions, RunController, RunSteps, RunProgress, RunReserve, RunHistory | delivery of finished child runs; slots and waiters of runs in the same process |
| Merges, Inheritance | the merges along a chain of agents, its two validators and the memoized resolver |
| ShellWords, ObjectOrder, CallExamples, CallSyntax, CallVerdicts | printed example calls, as a POSIX shell reads them and the call policy checks them |
| ChannelRefs | the opaque references of a channel session |

Some statements one might expect are false of the code. Each comes with an exact condition, and most with
a concrete witness:

- the greedy wildcard loop misses matches exactly on texts that contain a star (`SegmentMatchExactness`);
- the two glob matchers differ on a final `**` by exactly the paths of the glob before it
  (`FinalDoubleStar`), and on two stars inside a segment by exactly the paths of the globs in which they
  cross or swallow a slash (`StarsCross`, `StarsSkip`); with `?` in the globs they agree exactly on ASCII
  paths (`AllGlobsAgreeExactly`); and they are handed the same glob exactly when it is trimmed and starts
  with the same few `./` for both (`PreparedAlikeExactly`);
- a workflow call can be reported as `not_started` after it ran, exactly when the remote's own error says
  so (`NotStartedExactly`);
- a remote error too large for a frame loses its warning against retrying (`MarkNeedsTheFrame`,
  `ErrorFitsExactly`);
- an idle check that throws strands a batch if nothing else is armed, until one of three events
  (`StrandedExactly`), and a batch whose message is not sent is lost (`LostExactly`);
- `active` can pass the concurrency limit of the run controller, without bound (`ActiveHasNoBound`), once
  an execution begins on a slot due to a woken one, and only then (`LimitLostExactly`); and a closed run
  is closed for good exactly when no message is parked on it (`ClosedForGoodExactly`);
- merging settings is associative unless sections and plain values of one key alternate
  (`AssociatesExactly`), and applying merged instructions is applying each unless one is empty
  (`MergeThenApply`).

## Model

| member | source | states |
|---|---|---|
| `SegmentGlob.RunSegmentMatch` | crates/introspection-recipe-check/src/lib.rs:2795-2821 | the greedy loop with one remembered star terminates and returns exactly the verdict of its step function, whatever pattern and text |
| `SegmentGlob.MatchesMeansAligned` | crates/introspection-recipe-check/src/lib.rs:2795-2821 | the declarative matcher accepts exactly when the text is a concatenation of pieces, one per pattern unit: a star any piece, a question mark one unit, a literal itself |
| `SegmentGlob.NextStarTakesOver` | crates/introspection-recipe-check/src/lib.rs:2804-2810 | a match that an earlier star would reach by absorbing more, the next star reaches too: remembering only the last star loses nothing |
| `SegmentGlob.SegmentMatchDecides` | crates/introspection-recipe-check/src/lib.rs:2795-2821 | the greedy loop accepts only what the declarative matcher accepts, and all of it for every text without a star |
| `SegmentGlob.StarTrapFails` | crates/introspection-recipe-check/src/lib.rs:2802 | for every text with a star in it there is a pattern that matches it and that the loop rejects, because the literal test comes before the star test |
| `SegmentGlob.SegmentMatchExactness` | crates/introspection-recipe-check/src/lib.rs:2795-2821 | the loop and the declarative matcher agree on a text for all patterns if and only if the text has no star |
| `GlobRegex.GlobToRegExp` | src/recipe-package.ts:570-595 | the emitted source is the anchored sequence of pieces of the normalized glob, and reading it as a regular expression gives back exactly those pieces |
| `GlobRegex.SourceReadsBack` | src/recipe-package.ts:566-568 | the escaping is enough: no literal of a glob is read as an operator, alone or together with its neighbours |
| `GlobRegex.EmittedReads` | src/recipe-package.ts:570-595 | the same for the whole emitted source with its anchors |
| `PathGlob.Agreement` | crates/introspection-recipe-check/src/lib.rs:2781-2793 | by segments: the regular expression accepts a path exactly when the segment recursion accepts it for the glob whose final `**` is followed by one more `*` |
| `PathGlob.MatchersAgree` | src/recipe-package.ts:570-595 | the loader's regular expression and the checker's segment matcher accept the same paths for every glob in which `**` is a whole, non-final segment and no other segment has adjacent stars |
| `PathGlob.FinalDoubleStar` | crates/introspection-recipe-check/src/lib.rs:2772-2793 | with a final `**` the checker accepts exactly what the regular expression accepts, and the paths of the glob without it |
| `PathGlob.FinalDoubleStarDiffers` | src/recipe-package.ts:577-584 | a directory and `**`: the checker accepts the directory itself, the regular expression does not |
| `GlobAgreement.BackslashesAreSlashes` | crates/introspection-recipe-check/src/lib.rs:2772-2779 | to the checker backslashes are slashes, in the glob and in the path |
| `GlobAgreement.PreparedAlikeExactly` | crates/introspection-recipe-check/src/lib.rs:2748-2770 | the checker, which trims a glob and strips every leading `./`, and the loader, which normalizes it twice, match the same glob if and only if it has no white space around it and exactly the leading `./` that the loader strips, at most two and counting backslashes |
| `GlobAgreement.LoaderAndCheckerAgree` | src/recipe-package.ts:570-595 | from the text in the manifest on: for a glob both sides prepare alike they accept the same paths |
| `GlobAgreement.ThreeDotsDiffer` | src/recipe-package.ts:566-571 | three leading `./` are stripped by the checker and leave one to the loader |
| `GlobAgreement.InnerDoubleStarDiffers` | src/recipe-package.ts:577-584 | for every glob in which one segment has two adjacent stars between something else on both sides, and the other segments are comparable, there is a path the regular expression accepts, with a slash under the stars, and the checker rejects |
| `GlobAgreement.StarsCross` | src/recipe-package.ts:577-584 | two stars inside a segment, not before a slash: on every plain path the regular expression accepts exactly what the checker accepts for this glob, or for the one with `*`, `**` and `*` as parts in their place; so the two differ exactly where only the latter accepts |
| `GlobAgreement.StarsSkip` | src/recipe-package.ts:577-584 | two stars at the end of a segment before another: it accepts exactly what the checker accepts with the two segments run together, or with any number of segments between them |
| `GlobAgreement.CheckerIsNarrower` | crates/introspection-recipe-check/src/lib.rs:2772-2821 | for every glob that does not end in the segment `**`, whatever stars its segments have, the regular expression accepts every path that the checker accepts |
| `UnicodePaths.MatchesEncoded` | crates/introspection-recipe-check/src/lib.rs:2795-2799 | for an ASCII pattern without a question mark, matching an encoded text is matching the text, so bytes and 16-bit units make no difference |
| `GlobAgreement.MatchersAgreeOnEncodings` | crates/introspection-recipe-check/src/lib.rs:2772-2793 | the checker on the UTF-8 bytes of a path and the loader on its UTF-16 units agree on every path, for the globs above with ASCII units and no question mark |
| `GlobAgreement.AllGlobsAgreeExactly` | crates/introspection-recipe-check/src/lib.rs:2772-2793 | on a path they agree about all those globs, question marks included, if and only if the path is ASCII |
| `GlobAgreement.QuestionAgreesExactly` | src/recipe-package.ts:585-587 | a row of question marks accepts a segment by its number of bytes in the checker and of UTF-16 units in the loader |
| `CanonicalJson.StableReadsBack` | src/mcp-tools.ts:182-194 | a reader gets every value back from its canonical text, and the rest of the input after it |
| `CanonicalJson.SortedKeys` | src/mcp-tools.ts:187-189 | all keys, each once, in code-unit order |
| `JsonEquality.StableIsInjective` | src/mcp-tools.ts:182-194 | two values have the same canonical text if and only if they are equal |
| `JsonEquality.SameJsonTextDecidesEquality` | src/mcp-tools.ts:196-202 | true exactly for text that parses to an equal value |
| `JsonText.QuoteUnitIsShortest` | src/mcp-tools.ts:182-194 | no shorter JSON text than the printed one reads as a given unit |
| `JsonText.DecimalIsCanonical` | src/mcp-tools.ts:182-194 | printed numbers have no leading zero |
| `JsonPointer.JsonPointerValue` | src/mcp-tools.ts:98-112 | the walk along the unescaped parts finds the value, or fails, exactly as resolving the whole pointer does |
| `JsonPointer.UnescapeEscape` | src/mcp-tools.ts:104 | undoing `~1` before `~0` inverts the escaping of section 4 of RFC 6901 on every key |
| `JsonPointer.PointerRoundTrip` | src/mcp-tools.ts:98-112 | the pointer written for a list of keys resolves to what those keys lead to, slashes and tildes in them included |
| `JsonPointer.UnescapeReadsOnce` | src/mcp-tools.ts:104 | the two replacements decode a token as one reading from left to right does |
| `JsonPointer.ResolvesExactly` | src/mcp-tools.ts:98-112 | a reference resolves to a value if and only if it is `#/` and keys, escaped in some way, that lead to the value in the document |
| `Dereference.ReturnsExactly` | src/mcp-tools.ts:114-149 | dereferencing returns if and only if every reference that can be reached is local, resolves to an object and lies on no cycle |
| `Dereference.ResultIsClean` | src/mcp-tools.ts:114-149 | no object of the result has a string `$ref`, and none has a `$defs` or `definitions` key |
| `Dereference.CleanIsFixed` | src/mcp-tools.ts:114-149 | a clean value comes back unchanged |
| `Dereference.StackDoesNotShow` | src/mcp-tools.ts:114-127 | the stack decides only whether the result exists, never what it is |
| `Dereference.FieldPreserved` | src/mcp-tools.ts:136-142 | a field of the result is the dereferenced field that following references by hand finds, siblings first and then the target |
| `Dereference.MeaningPreserved` | src/mcp-tools.ts:114-149 | the same along any path into the schema |
| `Dereference.DereferenceSchemaCorrect` | src/mcp-tools.ts:114-149 | for a whole document: success exactly on acyclic schemas, a clean result, and dereferencing it again, in any document, changes nothing |
| `SchemaMeaning.ReturnsByHand` | src/mcp-tools.ts:114-149 | for a whole document, in terms of its own keys and pointers: it returns if and only if no chase of references ends at one that points at no object or was followed before |
| `SchemaMeaning.PropertiesByHand` | src/mcp-tools.ts:114-149 | an inlined object has exactly the properties found on it or along its references, each the inlined value of the first one found |
| `SchemaMeaning.ItemsByHand` | src/mcp-tools.ts:119-123 | an inlined array has the inlined items; everything else stays as it is |
| `SchemaMeaning.ReferenceToPath` | src/mcp-tools.ts:124-142 | a reference written for a path of keys returns nothing unless there is an object, and then what that object returns |
| `SchemaMeaning.ForeignReference` | src/mcp-tools.ts:98-101 | a reference that does not begin with `#/` never returns |
| `Unicode.ByteLengthCountsUtf8` | src/mcp-tools.ts:289-290 | the length measured on UTF-16 units is the number of bytes of the UTF-8 form of the same code points, as in section 3 of RFC 3629 |
| `Unicode.ByteLengthAppend` | src/mcp-tools.ts:289-290 | one more unit adds its own bytes, but after a high surrogate a low one adds only the fourth byte of the pair |
| `Unicode.ByteLengthMonotone` | src/mcp-tools.ts:293-300 | longer prefixes never take fewer bytes, even where a cut splits a surrogate pair |
| `OutputGuard.TruncateUtf8` | src/mcp-tools.ts:289-302 | the binary search returns the longest prefix that fits, and the whole text when it fits |
| `OutputGuard.LongestPrefixIsUnique` | src/mcp-tools.ts:289-302 | only one prefix is the longest |
| `OutputGuard.Base64BytesCounts` | src/mcp-tools.ts:330-333 | the measure of an image is the number of bytes its padded base64 text encodes |
| `OutputGuard.GuardContent` | src/mcp-tools.ts:304-357 | content within both limits is returned as it is; otherwise one text block, the longest prefix of the first lines that leaves room for the notice and the notice, with the four counts |
| `OutputGuard.FirstLinesExactly` | src/mcp-tools.ts:339 | the first lines are the text before its newline of that number, or all of it |
| `OutputGuard.PartsAdd` | src/mcp-tools.ts:316-333 | texts, image bytes and images of content are those of its parts, in order |
| `OutputGuard.OneBlock` | src/mcp-tools.ts:316-333 | and of one block its text, or the bytes its padded base64 text encodes and one image |
| `OutputGuard.NoticeSays` | src/mcp-tools.ts:340-342 | the notice names bytes and lines, in this order, and images if there are any |
| `OutputGuard.ShortenedIsBounded` | src/mcp-tools.ts:339-347 | the shortened text has at most the larger of the byte limit and the notice, and at most two lines more than the line limit |
| `EditDistance.Rows` | src/mcp-cli-policy.ts:100-114 | the rolling rows compute the recursive edit distance |
| `EditDistance.Levenshtein` | src/mcp-cli-core.ts:1123-1140 | so does the copy with three shortcuts |
| `EditDistance.DistanceIsShortest` | src/mcp-cli-core.ts:1123-1140 | the distance is at most n if and only if n single insertions, removals and replacements turn one text into the other |
| `EditDistance.DistanceSymmetric` | src/mcp-cli-core.ts:1123-1140 | the distance is symmetric |
| `EditDistance.Triangle` | src/mcp-cli-core.ts:1123-1140 | the triangle inequality |
| `EditDistance.DistanceZero` | src/mcp-cli-core.ts:1124-1126 | the distance is zero exactly between equal texts, and to the empty text it is the length |
| `EditDistance.ClosestName` | src/mcp-cli-core.ts:1142-1156 | the suggestion is the first candidate at the least distance, if that is within the threshold, and there is none otherwise |
| `EditDistance.NormalForm` | src/mcp-cli-core.ts:1119-1121 | names are compared in a form without case and punctuation, which is its own normal form |
| `EditDistance.UnitForms` | src/mcp-cli-core.ts:1119-1121 | capitals become small letters, and all but letters and digits is dropped |
| `EditDistance.ClosestPolicyName` | src/mcp-cli-policy.ts:97-127 | the same for the second copy, except that an empty best candidate counts as none |
| `EditDistance.FirstBestIsUnique` | src/mcp-cli-core.ts:1146-1152 | there is only one first candidate at the least distance |
| `Framing.FrameReader.OnData` | src/mcp-daemon-client.ts:57-79 | one chunk delivers its complete lines in order and keeps the rest, up to the first line over the frame limit |
| `Framing.DrainAppend` | src/mcp-daemon-client.ts:67-78 | lines read from a text do not depend on what follows it |
| `Framing.DrainExactly` | src/mcp-daemon-client.ts:67-78 | a text is read by its complete lines: all that are not empty are handed on, or those before the first over the limit, and the rest stays buffered |
| `Framing.ChunkingDoesNotMatter` | src/mcp-daemon-client.ts:57-79 | feeding chunks one by one delivers and refuses exactly what the undivided stream would |
| `OrderedJson.StringifyReadsBack` | src/mcp-daemon-protocol.ts:96-116 | text printed in the order of the members reads back as its meaning, whatever follows; of members with one name the last counts |
| `Framing.EnvelopeIsOneLine` | src/mcp-daemon-protocol.ts:96-120 | a serialized envelope has no newline in it |
| `Framing.EstimateExactly` | src/mcp-daemon-protocol.ts:96-113 | the estimate adds for every key and value visited the key and four, a string and two, and sixteen for other scalars |
| `Framing.FramingRoundTrip` | src/mcp-daemon-protocol.ts:90-121 | however the frames of successfully serialized envelopes are cut into chunks, the client accepts all of them and reads back exactly what the envelopes mean, in order |
| `CallOutcomes.ErrorFitsExactly` | src/mcp-daemon-protocol.ts:90-121 | an error envelope is written if and only if the bytes of id and text leave 23 within the limit and their escaped bytes leave 20 |
| `CallOutcomes.ShortErrorsFit` | src/mcp-daemon-protocol.ts:90-121 | whatever the texts are, six bytes a unit are enough |
| `CallOutcomes.EnvelopesMean` | src/mcp-daemon-protocol.ts:82-88 | what the two answers to a call say: the id, and the result or the error |
| `ErrorFilter.Filter.PushChunk` | src/mcp-cli-core.ts:1770-1778 | a chunk emits the lines it completes and buffers the rest |
| `ErrorFilter.Filter.FlushRest` | src/mcp-cli-core.ts:1779-1788 | the buffered rest is emitted, and the hint once if an emitted line was about OAuth metadata |
| `ErrorFilter.FilterIgnoresChunking` | src/mcp-cli-core.ts:1743-1790 | for any chunking the output is that of the stream's lines one by one |
| `ErrorFilter.WholeLinesExactly` | src/mcp-cli-core.ts:1770-1778 | the lines make up the stream, each with its newline, but the last may have none |
| `ErrorFilter.FilterWrites` | src/mcp-cli-core.ts:1743-1790 | what the lines become is written in order, without the dropped ones, and then the hint, once, exactly if a written line is about OAuth metadata |
| `ToolCalls.ToolCallQueue.AcquireSlot` | src/mcp-cli-core.ts:356-363 | grants a free slot, queues behind the others, or rejects after a cancel |
| `ToolCalls.ToolCallQueue.ReleaseSlot` | src/mcp-cli-core.ts:371-383 | hands the slot to the longest waiting call or frees it, once |
| `ToolCalls.ToolCallQueue.CancelAll` | src/mcp-cli-core.ts:365-369 | the first cancel rejects everybody who waits |
| `ToolCallRuns.LimiterIsSafe` | src/mcp-cli-core.ts:346-384 | in every run the unreleased grants are as many as `active` and at most the limit, calls wait only at the limit and before a cancel, and grants follow the order of arrival |
| `ToolCallRuns.SettledStaysSettled` | src/mcp-cli-core.ts:356-369 | how a call's promise settled never changes |
| `ToolCallRuns.NoGrantAfterCancel` | src/mcp-cli-core.ts:365-381 | nothing is granted after a cancel |
| `ToolCallRuns.SecondReleaseIsHarmless` | src/mcp-cli-core.ts:373-375 | releasing a second time changes nothing |
| `ToolCallRuns.EveryArrivalIsAccountedFor` | src/mcp-cli-core.ts:356-383 | in every run each arrival is waiting, or was granted, or was rejected by a cancel, and no two of these |
| `ToolCallRuns.NotStartedExactly` | src/mcp-cli-core.ts:1273-1336 | in every run a settled call reports `not_started` if and only if it never reached `runtime.callTool` and ended with the error of the deadline, or it did and the details of the remote error it ended with say `not_started` |
| `ToolCallRuns.EndingExactly` | src/mcp-cli-core.ts:1273-1336 | in every run a call has ended in a way if and only if some move ended it so, and reached the remote if and only if it resumed with a slot before the deadline |
| `ToolCallRuns.SucceedsExactly` | src/mcp-cli-core.ts:1282-1297 | a call reports success if and only if its tool answered without an error |
| `ToolCallRuns.ExpiredIsNeverSent` | src/mcp-cli-core.ts:1276-1281 | a call that resumes after the deadline never reaches the remote |
| `ToolCallRuns.FailureReports` | src/mcp-cli-core.ts:1298-1332 | what a call that failed at the remote reports: the details of the improved error, none for a usage error, those of the original error, or `unknown` for a text that speaks of a timeout |
| `ToolCallRuns.ExpiryReports` | src/mcp-cli-core.ts:1311-1332 | what a call reports that never reached it |
| `ToolCallRuns.UnknownExactly` | src/mcp-cli-core.ts:1305-1327 | when `unknown` is reported, by the remote or without it |
| `ToolCallSteps.ToolResultDetails` | src/mcp-cli-core.ts:280-300 | the outcome of a tool error is that of its `error` entry if there is one, and otherwise its own |
| `ToolCallSteps.NoToolResultDetails` | src/mcp-cli-core.ts:280-300 | and there is none if that is no object |
| `ToolCallRuns.RemoteCanSayNotStarted` | src/mcp-cli-core.ts:280-301 | the tool result `{"error":{"message":"busy","outcome":"not_started"}}` is reported as not started after the call ran |
| `ToolCallRuns.InFlightWithinLimit` | src/mcp-cli-core.ts:1273-1336 | in every run at most the limit of calls have reached the remote and not settled |
| `CallOutcomes.CallerIsTold` | src/mcp-daemon.ts:295-358 | in every run of client, network, daemon and remote: one call at most; a returned result only after it; and an error without the words against retrying only if the tool was not called, or it reads `MCP daemon: response_too_large` and stands for an error with those words whose envelope, computed from the id and that text, does not fit a frame |
| `CallOutcomes.CallerGets` | src/mcp-daemon-client.ts:252-285 | after every run the caller has been told exactly what the events tell, result, error text or nothing, and the tool was called exactly when the call was dispatched |
| `CallOutcomes.ReturnedExactly` | src/mcp-daemon-client.ts:234-285 | the caller has a result if and only if that result came back uncancelled and within a frame, was received, and no abort and no socket error came before the call settled |
| `CallOutcomes.ResultArrives` | src/mcp-daemon.ts:325-345 | from every state in which the call is out and undisturbed, a result that fits reaches the caller |
| `CallOutcomes.CallerIsToldWithinFrames` | src/mcp-daemon.ts:295-358 | when the errors that can end the dispatched call fit with the request's id, an error without those words means that the tool was not called |
| `CallOutcomes.UnmarkedMeansNever` | src/mcp-daemon-client.ts:252-285 | after an error without those words the tool is never called, however the run goes on, with the same one exception |
| `CallOutcomes.SettlementStays` | src/mcp-daemon-client.ts:252-285 | what the caller was told does not change |
| `CallOutcomes.MarkNeedsTheFrame` | src/mcp-daemon.ts:135-153 | after any run, the error envelope that answers a dispatched call has the words if and only if the envelope of the id and the message with those words serializes |
| `CallOutcomes.OversizedErrorLosesMark` | src/mcp-daemon.ts:345-353 | for every message that does not, a run in which the tool was called and the caller is told `response_too_large` without the words |
| `CallOutcomes.LongMessagesDoNotFit` | src/mcp-daemon-protocol.ts:101-117 | every message of more bytes than the frame limit is one |
| `CallOutcomes.TooLongAMessage` | src/mcp-daemon-protocol.ts:101-117 | such a message exists for every id |
| `CompletionQueue.CompletionSystem.DoEnqueue` | src/child-agent-completions.ts:94-107 | appends, and flushes for a failed run or arms the batch timer |
| `CompletionQueue.CompletionSystem.DoDeliver` | src/pi-extension.ts:1270-1301 | takes the whole batch when the parent is idle, and loses it if sending then throws; arms the retry timer when the parent is busy; and does nothing when the check throws |
| `CompletionQueue.CompletionSystem.DoPoke` | src/child-agent-completions.ts:114-121 | stops the batch timer and calls the deliverer, unless nothing is pending |
| `CompletionQueue.CompletionSystem.DoAcknowledge` | src/child-agent-completions.ts:127-133 | drops exactly the envelopes of the given runs |
| `Completions.NeverStranded` | src/child-agent-completions.ts:83-164 | in every run whose idle checks answer, a pending batch with a deliverer has a timer or the microtask armed |
| `Completions.AlwaysAccounted` | src/child-agent-completions.ts:83-164 | in every run each envelope enqueued is in exactly one of pending, handed over, lost, acknowledged and cleared, and hand-over keeps the order |
| `Completions.LostExactly` | src/pi-extension.ts:1285-1300 | over any run exactly the envelopes are lost that were pending when a deliverer took the batch and sending it threw |
| `Completions.LostForGood` | src/pi-extension.ts:1285-1300 | a lost envelope stays lost: no continuation hands it over or has it pending again |
| `Completions.NothingLostWhenSent` | src/pi-extension.ts:1285-1300 | a run in which no message is refused loses none |
| `Completions.HandedExactly` | src/pi-extension.ts:1270-1301 | over any run exactly the batches are handed over that were pending when a poke, the microtask or the retry timer found a parent idle, whole and in order |
| `Completions.TurnEndDelivers` | src/child-agent-completions.ts:114-121 | the end of a turn with the session idle hands over what is pending at once and leaves no timer |
| `Completions.CompletedRunsWait` | src/child-agent-completions.ts:94-112 | a completed run arms the batch timer and nothing else, and only that schedules the hand-over |
| `Completions.PendingExactly` | src/child-agent-completions.ts:94-133 | what each event makes of the queue |
| `Completions.WakeUpsAreUsedUp` | src/pi-extension.ts:1270-1284 | timers and microtask run once, and only a busy parent arms the retry timer again |
| `Completions.TimersExactly` | src/child-agent-completions.ts:83-164 | what arms and stops the batch timer and the microtask |
| `Completions.WakeUpDelivers` | src/pi-extension.ts:1270-1301 | from every such state at most two armed wake-ups hand over the whole batch in order once the parent is idle |
| `Completions.BusyParentKeepsQueue` | src/pi-extension.ts:1279-1284 | a busy parent costs nothing: the batch stays and the retry timer is armed |
| `Completions.FailuresDoNotWait` | src/child-agent-completions.ts:94-99 | with the parent idle a failed run is handed over by the next microtask, after everything that was pending |
| `Completions.AcknowledgeIsExact` | src/child-agent-completions.ts:127-133 | acknowledging drops exactly the envelopes of the runs it names, and keeps the order of the others |
| `Completions.WakeUpKeptExactly` | src/pi-extension.ts:1270-1301 | a step keeps the wake-up unless the idle check throws with a batch pending and nothing else armed |
| `Completions.StrandedExactly` | src/pi-extension.ts:1270-1310 | after any run a pending batch with a deliverer has nothing armed if and only if some step stranded it and no enqueue, answered poke or new deliverer came since |
| `Completions.SleepsUntilRevived` | src/child-agent-completions.ts:94-133 | until one of those comes nothing is armed or handed over in any continuation, and the batch stays but for what is acknowledged or cleared |
| `Completions.RevivedExactly` | src/child-agent-completions.ts:94-121 | a step wakes or hands over a stranded batch if and only if it is one of those |
| `Completions.ThrowingIdleCheckStrands` | src/pi-extension.ts:1298-1300 | a run of three steps in which that happens |
| `Merges.MergeModelAssociative` | src/recipe-model.ts:534-567 | merging model configurations is associative |
| `Merges.NearestNamingAgentStartsAfresh` | src/recipe-model.ts:540-542 | the folded configuration is that of the chain from the nearest agent that names a model |
| `Merges.FoldModelNames` | src/recipe-model.ts:534-567 | a model is named if and only if some agent of the chain names one |
| `Merges.NearestNameWins` | src/recipe-model.ts:534-567 | the name is that of the nearest agent that gives one |
| `Merges.NearestAgentWins` | src/recipe-model.ts:543-566 | each setting of the folded configuration, the thinking level or one key of a section, is what the nearest agent says, looking back no further than the nearest one that names a model |
| `Merges.RunMergeObjects` | src/recipe-session.ts:289-300 | the loop that writes into the copy computes the merge by key |
| `Merges.AssociatesExactly` | src/recipe-session.ts:289-300 | merging settings is associative on three records if and only if no two sections have a plain value of the same key between them, or the later section covers the earlier one |
| `Merges.SessionAssociatesExactly` | src/recipe-session.ts:275-287 | the same for session configurations |
| `Merges.MergeSessionAssociative` | src/recipe-session.ts:275-287 | so session configurations of one parsed shape merge associatively |
| `Merges.FoldSessionInParts` | src/recipe-session.ts:275-287 | a chain of session configurations of one shape folds to that shape, and in parts: the upper and the lower part first, and then the two |
| `Merges.NearestModeWins` | src/recipe-session.ts:275-287 | each of the three modes of a folded session configuration is that of the nearest agent that sets it, and there is none if nobody does |
| `Merges.NearestSessionSettingWins` | src/recipe-session.ts:275-300 | each plain setting, at any path of keys, is what the nearest agent says that says anything about it |
| `Merges.MixedShapesDoNotAssociate` | src/recipe-session.ts:289-300 | three records on which the grouping matters |
| `Merges.MergeInstructionsAssociative` | src/recipe-agent.ts:251-262 | merging system instructions is associative |
| `Merges.MergesHaveUnits` | src/recipe-session.ts:275-300 | an agent that configures nothing, or an empty record of settings, changes nothing in any of the three merges, on either side |
| `Merges.MergeThenApply` | src/recipe/resolve.ts:246-253 | applying merged instructions is applying one after the other, for all prompts, if and only if the later ones replace or both are non-empty |
| `Merges.ApplyFolded` | src/recipe/resolve.ts:246-253 | applying the folded non-empty instructions of a chain is applying each agent's in order |
| `Merges.ReplacedPrompt` | src/recipe/resolve.ts:246-253 | a prompt begins anew with the last instructions of a chain that replace, and every later text that is not empty is a paragraph more |
| `Merges.ExtendedPrompt` | src/recipe/resolve.ts:246-253 | without such instructions the base prompt comes first, if there is one, and without any text there is no prompt |
| `Inheritance.ValidatorAccepts` | src/recipe-agent.ts:596-637 | the recursive validator accepts an agent exactly when its chain reaches a root through existing agents in at most 128 agents |
| `Inheritance.ValidateAgentInheritance` | crates/introspection-recipe-check/src/lib.rs:2151-2205 | the iterative validator accepts an existing agent exactly then, too |
| `Inheritance.Resolver.ResolveDefinition` | src/recipe-agent.ts:532-574 | a definition found, memoized or not, is the one the agent's chain determines; the memo only grows; and an agent with an acceptable chain is found |
| `Inheritance.Resolver.ResolveAll` | src/recipe-agent.ts:576-581 | in whatever order the names come, every definition is the one its chain determines, and all names are defined when all are acceptable |
| `Inheritance.InheritsIsUnique` | src/recipe-agent.ts:532-574 | a chain determines one definition |
| `Inheritance.FoldChainFolds` | src/recipe-agent.ts:547-569 | model configuration and instructions of a definition are the folds over its chain, root first |
| `Inheritance.NearestDeclarationWins` | src/recipe-agent.ts:558-565 | description, tools, MCP policy, skills and subagents are those of the nearest agent of the chain that declares them, as a whole |
| `Inheritance.InheritedModes` | src/recipe-agent.ts:551-554 | the session modes of an agent are those of the nearest agent of its chain that sets them |
| `Inheritance.InheritedSessionSetting` | src/recipe-agent.ts:551-554 | and each plain setting is that of the nearest agent that says anything about it |
| `Inheritance.InheritedPrompt` | src/recipe/resolve.ts:246-253 | the prompt an agent gets is the base prompt with each agent's instructions of its chain applied in order |
| `RunController.Controller.DoAcquireSlot` | src/run-controller.ts:82-87 | takes a free slot or queues |
| `RunController.Controller.DoReleaseSlot` | src/run-controller.ts:91-94 | frees the slot and wakes the first in the queue, without counting it |
| `RunController.Controller.DoTouch` | src/run-controller.ts:96-109 | a status other than running wakes every waiter and empties the list |
| `RunController.Controller.DoAbortWait` | src/run-controller.ts:243-247 | an abort removes and rejects a waiter that is still listed |
| `RunController.Controller.DoFinish` | src/run-controller.ts:176-197 | a run that is still running gets its end status; the slot is released either way |
| `RunHistory.SlotsAreNeverLost` | src/run-controller.ts:82-94 | in every interleaving `active` counts the executions that hold a slot, each of which can still finish, and while one is queued those and the ones just woken fill the limit |
| `RunHistory.NobodyJumpsTheQueue` | src/run-controller.ts:87-94 | over any run the queue loses executions only at its front and gains only new ones, at its end |
| `RunHistory.WaitersAreNeverLost` | src/run-controller.ts:232-253 | in every interleaving a run has waiters only while it is running, and every waiter is either listed or told |
| `RunHistory.SettledForGood` | src/run-controller.ts:106-108 | how a waiter was told never changes, whatever follows |
| `RunHistory.OverForGood` | src/run-controller.ts:195-197 | an execution that gave its slot back never queues or holds one again, whatever follows |
| `RunHistory.StatusExactly` | src/run-controller.ts:96-109 | what each event makes of the status of a run: ends and interrupts change it only while it is running, a close always, and a message sets it running |
| `RunHistory.CurrentExactly` | src/run-controller.ts:228-279 | the execution a run waits for is the last that was begun for it |
| `RunHistory.ParkedExactly` | src/run-controller.ts:255-263 | a message waits exactly if its run is running without a session, and for the execution the run has at the time |
| `RunHistory.SessionExactly` | src/run-controller.ts:199-230 | whether a run has a session changes only where one is created or disposed |
| `RunHistory.WaitingExactly` | src/run-controller.ts:232-253 | who waits on a running run is listed and registered; on any other run nobody waits |
| `RunHistory.EndStays` | src/run-controller.ts:176-197 | a run that has ended keeps its status until a message or a close |
| `RunHistory.SettlementExactly` | src/run-controller.ts:232-253 | a waiter is told at the step that aborts it or stops its run, and rejected in the first case only |
| `RunHistory.LimitKept` | src/run-controller.ts:82-94 | over every run in which no execution begins on a slot due to one woken before, `active` stays within the limit, even with all the woken ones counted |
| `RunHistory.LimitLostExactly` | src/run-controller.ts:82-94 | after any such run, the next step lets the woken executions, going on, exceed the limit if and only if it begins an execution while a slot is free and all free ones are due to woken executions |
| `RunHistory.WithinExactly` | src/run-controller.ts:82-94 | in every state that keeps the invariant: no run of woken executions going on takes `active` past the limit if and only if the counted slots and the woken executions together are within it |
| `RunReserve.ReservedKeptExactly` | src/run-controller.ts:82-94 | a step from such a state keeps that sum within the limit if and only if it is not such a beginning |
| `RunHistory.ActiveHasNoBound` | src/run-controller.ts:82-94 | for every limit and every number there is a run from the start with that many executions active at once |
| `RunHistory.StartOvertakes` | src/run-controller.ts:82-94 | which happens whenever a new execution enters between the release and that moment |
| `RunHistory.LimitCanBeExceeded` | src/run-controller.ts:82-94 | any three runs, with a limit of one, have an interleaving from the start with two active executions |
| `RunHistory.ClosedForGoodExactly` | src/run-controller.ts:255-296 | a closed run stays closed over all continuations if and only if no message is parked on it: any parked message can go ahead, however long its execution still has to queue, and opens it |
| `RunProgress.EndExecution` | src/run-controller.ts:82-94 | with at least one slot, every execution that was begun, queued and woken ones included, can be brought to its end by resumes and finishes alone, without touching closed runs or parked messages |
| `RunHistory.EveryStateIsCovered` | src/run-controller.ts:66-94 | every reachable state has the invariants these statements ask for |
| `RunHistory.ClosedIsNotFinal` | src/run-controller.ts:260-278 | every run that gets a message before its session exists and is then closed is running again once its execution ended and the message goes on |
| `RunHistory.FirstStart` | src/run-controller.ts:199-230 | the first start of a controller makes such a run |
| `ShellWords.QuoteReadsBack` | src/mcp-contract.ts:172-174 | by the quoting rules of section 2.2 of the Shell Command Language of IEEE 1003.1 a quoted text reads as that text, whatever is in it |
| `ShellWords.TokenReadsBack` | src/mcp-contract.ts:176-178 | so does a token, quoted or safe without quotes |
| `ShellWords.PlainNamesStay` | src/mcp-contract.ts:176-178 | names of letters, digits and the seven safe signs are printed without quotes |
| `ShellWords.TokensReadBack` | src/mcp-contract.ts:251 | tokens joined by spaces split into exactly their words |
| `CallExamples.ExampleReadsBack` | src/mcp-contract.ts:226-252 | the shell splits every printed example into the program, `call`, the selector and the intended arguments |
| `CallExamples.ArgumentsRecovered` | src/mcp-contract.ts:242-250 | from those arguments each name and the text of its value are recovered, or from the JSON argument, printed in the order of the object, the object of all values |
| `CallExamples.KeyedWhenPossible` | src/mcp-contract.ts:231-250 | the keyed form is used exactly when all names are simple and no schema is structured |
| `ObjectOrder.EntriesAreTheLast` | src/mcp-contract.ts:242-244 | the object of the JSON argument has each name once, with the value of its last entry |
| `ObjectOrder.EntriesInFirstOrder` | src/mcp-contract.ts:242-244 | its names come in the order in which they first appear |
| `ObjectOrder.OwnOrderExactly` | src/mcp-contract.ts:242-244 | printed are all its members and no more, those at array indexes first and ascending, the others after them in their order |
| `ObjectOrder.OwnOrderMeans` | src/mcp-contract.ts:242-244 | and that order does not change what the object means |
| `CallExamples.CallSyntaxError` | src/mcp-cli-policy.ts:187-205 | the loop with its skipped index rejects exactly the arguments the recursive reading rejects |
| `CallExamples.SelectorReadsBack` | src/mcp-cli-policy.ts:60-66 | server and tool are found in their selector if and only if the server is non-empty, without dot and without leading white space, the tool is non-empty without trailing white space, and neither has parentheses |
| `CallExamples.ExampleIsAccepted` | src/mcp-cli-policy.ts:207-252 | a printed example is accepted as a call of that server and tool if and only if that holds, the server is no ad-hoc one and the session allows the tool |
| `CallExamples.AcceptedCallsAreAllowed` | src/mcp-cli-policy.ts:207-252 | any accepted call names a tool the session allows on one of its servers, runs with the same arguments and `--no-oauth` before any `--`, and has no forbidden flag before that |
| `CallVerdicts.GoodSyntaxExactly` | src/mcp-cli-policy.ts:187-205 | arguments pass if and only if they can be cut into `key=value`, `--flag=value` and a flag with its argument, with the three flags that take one |
| `CallVerdicts.ToolSelectorExactly` | src/mcp-cli-policy.ts:60-66 | a text is read as the selector of a server and a tool if and only if it is that, with white space around it at most, and the names are selectable |
| `CallVerdicts.AcceptedExactly` | src/mcp-cli-policy.ts:207-252 | a call is accepted if and only if it spells a selectable tool the session allows on its own servers, its arguments pass, and none before a `--` is a refused flag |
| `CallVerdicts.ComplaintExactly` | src/mcp-cli-policy.ts:222-246 | which complaint a call gets whose selector can be read, the first that applies |
| `CallVerdicts.SelectorComplaintExactly` | src/mcp-cli-policy.ts:207-231 | and which one whose selector cannot |
| `MemoryText.EscapeReadsBack` | src/memory.ts:165-184 | unescaping the five entities recovers every text |
| `MemoryPrompt.EscapedIsInert` | src/memory.ts:165-184 | and leaves neither tags nor quotes |
| `MemoryPrompt.EscapeXmlWithinBytes` | src/memory.ts:186-202 | the loop keeps the longest run of whole characters whose escape fits, and says truncated exactly when not all of it fits |
| `MemoryPrompt.BoundedLines` | src/memory.ts:100-113 | the lines kept are the first logical lines, joined by single newlines, at most as many as allowed |
| `MemoryPrompt.SplitLinesExactly` | src/memory.ts:100-106 | splitting loses nothing: the text is its lines and their terminators, a carriage return and a newline being one |
| `MemoryPrompt.LogicalLinesExactly` | src/memory.ts:104-105 | the logical lines are these without the empty one after a final terminator |
| `MemoryPrompt.SuffixExactly` | src/memory.ts:221 | a cut is marked by three dots, or as many as the byte limit leaves room for |
| `MemoryPrompt.FormatMemoryForPrompt` | src/memory.ts:205-241 | nothing without a memory, an error for limits out of range, and otherwise the rendering of the path and of the content just described |
| `MemoryPrompt.ContentIsSafe` | src/memory.ts:218-228 | the content is within its bytes, holds no `<` or `>`, and before the dots unescapes to a prefix of the bounded lines |
| `MemoryPrompt.ContentIsUnique` | src/memory.ts:218-228 | only one content is the one described |
| `MemoryPrompt.MarkedExactly` | src/memory.ts:218-228 | it ends in the dots whenever something was cut, at loading, by lines or by bytes, and is all of the text otherwise |
| `MemoryPrompt.PromptReadsBack` | src/memory.ts:229-240 | a reader of the rendered prompt finds the path and the content again, so neither can end its element |
| `ChannelRefs.KeysAreIdentities` | src/channels/refs.ts:40 | the printed key is the same only for the same conversation, thread and id |
| `ChannelRefs.ChannelRefStore.DoMessage` | src/channels/refs.ts:39-56 | a known message keeps its handle, its authorship and its last permalink; a new one gets the minted handle |
| `ChannelRefs.OneHandlePerMessage` | src/channels/refs.ts:39-66 | after any registrations exactly the messages seen have a handle, the two maps are inverse, and two messages share a handle if and only if they are the same |
| `ChannelRefs.AuthorshipIsExact` | src/channels/refs.ts:68-76 | an edit is allowed if and only if some registration of that message, early or late, said the agent wrote it |
| `ChannelRefs.PermalinkIsTheLast` | src/channels/refs.ts:44-49 | a message has the last permalink any registration of it gave |
| `ChannelRefs.InventedHandlesFindNothing` | src/channels/refs.ts:58-66 | a handle that was never minted finds nothing |
| `ChannelRefs.CursorsKeepTheirScope` | src/channels/refs.ts:78-95 | a cursor resolves to a value in a scope if and only if it was minted for that value in that scope |
| `ChannelRefs.LookupsExactly` | src/channels/refs.ts:68-95 | which of its complaints a lookup makes |
| `ChannelRefs.FilesAreFound` | src/channels/refs.ts:97-118 | after any registrations exactly the files seen have a handle, and it leads back to the file |
| `ChannelRefs.OneHandlePerFile` | src/channels/refs.ts:97-118 | two files seen share a handle if and only if they are the same, and a handle leads to a file if and only if it is that file's |

## Left out

- JSON objects are maps, except where envelopes and example calls are printed: which entry's error is raised first is not modelled.
- Numbers are the ones JavaScript prints as plain integers; fractions and exponents are not modelled.
- CanonicalJson.ReadValue: reads canonical text and the escapes of section 7 of RFC 8259, without white space between tokens; it is the reader of the round trips and stands for no function of the source.
- GlobRegex.Accepts: gives a meaning only to the pieces `globToRegExp` emits, not to regular expressions in general.
- PathGlob.MatchersAgree: compares the matchers on one normalized glob, which `GlobAgreement.LoaderAndCheckerAgree` lifts to globs as written, and on paths without empty segments, backslashes, line terminators and stars; how each side collects the paths it tests is not modelled.
- GlobAgreement.StarsCross: for globs with one such pair of stars, and the same holds for `GlobAgreement.StarsSkip`; for globs with several pairs, or with three stars in a row, only one direction is stated, in `GlobAgreement.CheckerIsNarrower`.
- Dereference.DereferenceSchemaCorrect: says nothing about whether the inlined schema validates the same values, which the original does not promise: siblings of a `$ref` override its target, and properties named `definitions` disappear.
- OutputGuard.GuardContent: takes both limits as parameters; reading them from the environment is left out.
- Framing.FramingRoundTrip: the envelope is any tree of JSON values; `JSON.parse` failing on a line and the daemon's own reader of requests are not modelled.
- The serializer's check for circular values, which also refuses a shared object, appears only as a result that is refused: values here are trees. Results that are not JSON values (`undefined`) are left out.
- The size estimate is taken as a sum; the original stops adding at the first excess, which refuses the same envelopes.
- ErrorFilter.FilterIgnoresChunking: what happens to one line, four regular expressions, is a parameter.
- CallOutcomes.CallerIsTold: the envelope that replaces one that does not fit is taken to reach the client; with an id near the frame limit it would not. The daemon's other requests are left out.
- Authorization, the catalog and the texts of errors enter the protocol only as the outcomes and texts an event carries; a daemon that dies may do so at any step.
- Deadlines and timers are events that may fire at any time once armed; clocks are left out.
- ToolCallRuns.NotStartedExactly: only the deadline's own timer makes an error of the run-timeout class; the texts of improved errors are inputs, and the limit on the number of calls of a workflow is left out.
- Completions.NeverStranded: assumes that the idle check does not throw; `WakeUpKeptExactly` says what happens if it does.
- RunHistory.WaitersAreNeverLost: the handle is present or absent; creating, steering and disposing the child's session are left out, and so are updates that change no status.
- Inheritance.ValidateAgentInheritance: an empty `from` counts as none, as both readers refuse or drop it; where an unknown agent is asked for, only the recursive validator objects.
- Inheritance.Resolver.ResolveAll: the fields are those that inheritance combines; chains deeper than 128 agents may still resolve through the memo, and for them nothing is promised beyond correctness of what is found.
- CallExamples.ExampleIsAccepted: the example value of a parameter and whether its schema is structured are inputs; choosing them from a schema (`exampleValue`, `renderSchema`) is left out. The reader of `key=value` recovers text: whether it stands for a string or a number is the called program's business.
- ShellWords.ReadWord: gives up on everything a shell would expand or treat as an operator, instead of modelling it.
- MemoryPrompt.FormatMemoryForPrompt: reading the index file and its own byte limit are left out.
- ChannelRefs.OneHandlePerMessage: random handles are taken to be new; their format and the error texts are left out.
- Locks on the file system, process start, sockets, worker threads, and the libraries for MCP, JSON Schema, YAML and the terminal are not modelled.
- Quantities of resources, the validators of manifest, agent and judge fields, search scoring, Slack text, dialogs and telemetry are left out: many independent branches, or rounding in floating point.
