# A verified model of the agent harness

The harness runs coding agents: it streams model output, cuts it into text and tool calls, keeps a
session log that is replayed into provider requests, stores facts and knowledge pages with search
indexes, and composes plugins over an event bus. This project models the parts of it whose
correctness is more than a matter of reading one function, and proves what they promise.

Five kinds of claims are proved.

* **When streams depend on how they are cut.** The DSML filter, the server-sent event framing and
  the assembly of streamed tool calls give the same result for every chunking or interleaving, but
  for exactly known exceptions. For events the raw text depends on the cut exactly when a carriage
  return is not followed by a line feed. For DSML there are two exceptions. A closing tag that is
  spelled as an alias in visible text is rewritten if it arrives in one piece and shown as it is if
  it is cut; a stream whose blocks are closed for good reads the same in all chunkings exactly when
  it has no such tag (`DsmlCuts.CutsAgreeIffSheltered`). And an invoke that arrives in one chunk with
  an earlier block takes the text between the blocks along; a stream of well-formed blocks reads the
  same in all chunkings exactly when no text between two blocks is followed by a block with an invoke
  (`DsmlGapCuts.BlocksCutIff`). The proofs cover the alias spellings; they rest on every marker and
  alias having its only `<` in front, which makes alias rewriting incremental.
* **Any session log becomes a history that obeys the adjacency contract of tool calls.** Rebuilding,
  stale compression, error stripping, budget trimming, protocol enforcement and recovery of reasoning
  each have their own theorem, and `Pipeline.EndToEnd` puts them together for every log and every
  setting. The other thing providers refuse, two text answers in a row, can happen:
  `TextAnswers.RequestMergedIff` says exactly when, and `TextAnswers.LostCallJoinsTexts` gives a log.
* **Indexes and caches agree with what they speed up.** The inverted index answers like a scan, the
  recall index is that of the current facts after any mix of writes and recalls, and the repeat
  guard's saturating counters answer for the full history. Incremental sync of the knowledge root
  leaves the checkpoint of the files as they are, and the index of them exactly when no page id
  passes from a removed file to a present one (`KnowledgeRuns.AlwaysMirrorsIff`).
* **What comes out is told from what went in.** Beside the results about runs and cuts, each pipeline
  has one that names its outcome by the input: a replayed log event by event
  (`RebuiltEvents.RebuiltByEvent`), the frames of rendered server-sent events
  (`SseFrames.StreamShowsEvents`), the id, name and arguments of each streamed call
  (`ToolCalls.CallsComeOut`), the text that is left around tool-call blocks
  (`DsmlStrip.StripLeavesOutside`), the candidates a promotion run lets through
  (`PromotionResults.LeavesIff`), and the excerpts that stand for dropped messages (`Excerpts`).
* **Classic algorithms.** Depth-first ordering of plugins with cycles, calendar dates for every
  integer day, breadth-first caller search, reversible and forkable subscriptions, and the promotion
  run over a review directory.

## How it is written

One module per component. Where the source updates state in place there is a class or a method with
a loop (`DsmlFilters.DsmlFilter`, `Sse.EventBuffer`, `Plugins.Sorter`, `Inverted.InvertedIndex`,
`Recall.ConversationMemory`, `Knowledge.KnowledgeIndex`, `Subscriptions.HandlerTable`,
`Contexts.AppContext`, `RepeatGuard.ToolRepeatGuard`, and the loops named in the table); each is
proved to compute a specification function, and the promises are lemmas about that function.
`Text`, `Lines` and `Options` hold the string functions of the standard library that several
components share. Strings are sequences of Unicode scalar values.

Automatic induction is switched off on every lemma (`{:induction false}`): each induction is written
out, so that a proof is what its body says.

Library code is a parameter where its behaviour is not the point: the YAML codec (with the
hypothesis that it reads back the heads a run writes), the JSON parser, the alphabet of `is_alphanumeric` and
`to_lowercase`, the hash of a result, the searchable text of a fact or page. The date, the budget
and the outcome of a file write are parameters as well.

Where code and comments disagree the code is modelled. `hold_suffix` is documented to return the
longest matching suffix and returns the shortest; `DsmlMarkers.HoldSuffixExact` shows that for
these markers there is at most one. `topo_sort` is documented as Kahn's algorithm that falls back to
the original order on cycles; it is a depth-first search that ignores the edges back into its stack.
`Registration` is documented as rolling back; `Contexts.ServicesRestoredIff` shows exactly when that
is so for services. The protocol gate is documented by what providers demand; it can itself bring
two text answers together (`TextAnswers.EnforceMergedIff`).

## Model

| member | source | states |
|---|---|---|
| DsmlMarkers.NormalizeGrow | harness/harness-llm/src/dsml.rs:184-191 | Normalising what has arrived and normalising again with more text appended is normalising everything at once |
| DsmlMarkers.HoldSuffixScan | harness/harness-llm/src/dsml.rs:207-216 | The scan over suffixes computes the held length of one marker |
| DsmlMarkers.HoldSuffixExact | harness/harness-llm/src/dsml.rs:206-216 | The held suffix is a proper prefix of the marker, and the only suffix that is one |
| DsmlStreaming.HoldOpenExact | harness/harness-llm/src/dsml.rs:193-216 | The held length over all four opening markers is the one length at which the text ends in an unfinished marker, if any |
| Dsml.Push | harness/harness-llm/src/dsml.rs:55-93 | The push loop terminates on every input, since every further turn has fewer `<` left, and never holds text while a block is open |
| Dsml.Strip | harness/harness-llm/src/dsml.rs:165-181 | Stripping terminates and leaves no opening tag |
| DsmlStrip.CutIntoParts | harness/harness-llm/src/dsml.rs:168-178 | Every text is texts without an opening tag and blocks from an opening to their first closing tag, with an unclosed block at the end or not |
| DsmlStrip.StripLeavesOutside | harness/harness-llm/src/dsml.rs:165-181 | Stripping leaves exactly the text outside the blocks, less an unfinished marker at its end; that is so exactly when the parted texts do not join to a new opening tag |
| DsmlStrip.StripOneBlock | harness/harness-llm/src/dsml.rs:165-181 | A block between two plain texts goes and both texts stay |
| DsmlFilters.ScanParams | harness/harness-llm/src/dsml.rs:243-272 | The scan over parameter tags collects the parameters of an invoke |
| DsmlFilters.ParseInvokeBlock | harness/harness-llm/src/dsml.rs:237-275 | An invoke block without a name gives no call and uses no id; otherwise a call under the next `dsml-` id with the name and parameters as they are written |
| DsmlFilters.DrainInvokes | harness/harness-llm/src/dsml.rs:219-234 | The loop takes exactly the complete invokes off the captured text, in order |
| DsmlFilters.StripDsml | harness/harness-llm/src/dsml.rs:165-181 | The in-place loop computes the stripped text that `DsmlStrip` describes |
| DsmlFilters.DsmlFilter.TurnInBlock | harness/harness-llm/src/dsml.rs:59-71 | One turn of the push loop inside a block, on the filter's fields |
| DsmlFilters.DsmlFilter.TurnInText | harness/harness-llm/src/dsml.rs:73-91 | One turn of the push loop outside a block, on the filter's fields |
| DsmlFilters.DsmlFilter.PushText | harness/harness-llm/src/dsml.rs:55-93 | A push changes the fields and produces the items as the specification does |
| DsmlFilters.DsmlFilter.FinishStream | harness/harness-llm/src/dsml.rs:95-106 | The final flush |
| DsmlFilters.FilterStream | harness/harness-llm/src/dsml.rs:111-149 | Driving the filter object through any chunks computes the run; if the blocks are closed for good and no closing alias starts in visible text, it shows the meaning of the whole stream |
| DsmlStreaming.DrainResume | harness/harness-llm/src/dsml.rs:219-234 | Draining early and going on with more text is draining everything at once |
| DsmlSafety.ShelterNormalized | harness/harness-llm/src/dsml.rs:184-191 | Normalising what has arrived neither makes nor hides a closing alias in visible text |
| DsmlSafety.ShownIsPrefix | harness/harness-llm/src/dsml.rs:81-90 | Text that is shown is never rewritten later, unless its last tag grows into a closing alias |
| DsmlChains.SafeChained | harness/harness-llm/src/dsml.rs:59-71 | In a stream whose blocks are closed for good, draining reaches over a closing tag only where the next block opens at once |
| DsmlChains.ChainedMeaning | harness/harness-llm/src/dsml.rs:59-71 | Draining over such tags gives the calls of the blocks one by one |
| DsmlInvariance.PushKeeps | harness/harness-llm/src/dsml.rs:55-93 | Invariant of every push on such a stream: what is shown is exactly what the remaining input no longer means |
| DsmlInvariance.ChunkInvariance | harness/harness-llm/src/dsml.rs:55-106 | If every block is closed for good and no closing alias starts in visible text, every chunking shows the meaning of the stream: any number of blocks, other text, alias spellings inside blocks and of opening tags included |
| DsmlCuts.CutsAgreeIffSheltered | harness/harness-llm/src/dsml.rs:55-106 | If every block is closed for good, all chunkings agree exactly when no closing alias starts in visible text |
| DsmlCuts.BlockFreeIff | harness/harness-llm/src/dsml.rs:73-91 | All chunkings of a stream that opens no block agree exactly when no closing tag in it is spelled as an alias; they then show the normalised text without an unfinished marker at its end |
| DsmlInvokes.InvokeRoundTrip | harness/harness-llm/src/dsml.rs:237-283 | A rendered invoke is read back with its name and all its parameters |
| DsmlInvokes.DrainBlock | harness/harness-llm/src/dsml.rs:219-275 | A well-formed block drains to exactly one call per invoke, in order, with consecutive ids |
| DsmlBlocks.HoldBackExact | harness/harness-llm/src/dsml.rs:73-91 | While no opening tag and no closing alias has arrived, shown text plus held text is the normalised input, and the held text is exactly the unfinished marker |
| DsmlGapCuts.SeamlessStream | harness/harness-llm/src/dsml.rs:55-106 | Blocks with text in front, behind, and between them where no invoke follows: every chunking shows one call per invoke in order, ids from `dsml-1`, and each text in its place |
| DsmlGapCuts.DrainAll | harness/harness-llm/src/dsml.rs:59-71 | Draining a stream that has arrived as a whole reaches its last invoke, over all closing tags and texts in front of it |
| DsmlGapCuts.InOneChunk | harness/harness-llm/src/dsml.rs:55-106 | In one chunk all calls come out, and of the text only what stands in front of the first block and behind the last block with an invoke |
| DsmlGapCuts.BlocksCutIff | harness/harness-llm/src/dsml.rs:55-106 | All chunkings of a stream of well-formed blocks, in any spelling, agree exactly when no text between two blocks is followed by a block with an invoke |
| DsmlCanonical.CanonicalCutIff | harness/harness-llm/src/dsml.rs:25-31 | The same for blocks and texts as they are written in canonical tags, which are their own normal form |
| Sse.ReadEventData | harness/harness-llm/src/sse.rs:84-92 | The loop over lines computes the data of an event |
| Sse.EventBuffer.DrainEvents | harness/harness-llm/src/sse.rs:74-81 | The loop takes exactly the complete events off the buffer |
| Sse.EventBuffer.PushChunk | harness/harness-llm/src/sse.rs:48-65 | A push changes the buffer and yields the frames that `SseFrames` describes, a carriage return held over included |
| SseChunks.DrainUnique | harness/harness-llm/src/sse.rs:74-81 | Draining cuts text into events that end at their first blank line and a rest without one, and there is only one such cut |
| SseChunks.ChunkInvariance | harness/harness-llm/src/sse.rs:48-81 | Every cutting into nonempty chunks gives the events of the whole input with CRLF read as LF |
| SseChunks.InvariantIffCrLfOnly | harness/harness-llm/src/sse.rs:50-57 | All cuttings give the same raw text of events and buffer exactly when every carriage return is followed by a line feed |
| SseChunks.SameFrames | harness/harness-llm/src/sse.rs:48-71 | Frames, heartbeats and the tail flush of any cutting are those of the input in one chunk |
| SseChunks.EventRoundTrip | harness/harness-llm/src/sse.rs:84-92 | The data of an event is its payload lines, whatever comments and other fields it carries |
| SseFrames.PushShowsEvents | harness/harness-llm/src/sse.rs:48-65 | A chunk of rendered events yields, event by event, a data frame with exactly the payload, or a heartbeat where there is none, and keeps the tail |
| SseFrames.FramesOfRendered | harness/harness-llm/src/sse.rs:58-71 | The same for any drained events; a tail is flushed as its payload, or not at all |
| SseFrames.StreamShowsEvents | harness/harness-llm/src/sse.rs:48-71 | The same for a whole stream, however it is cut and with either line ending |
| SseFrames.DataIsPayloads | harness/harness-llm/src/sse.rs:84-92 | What is shown is the payload lines themselves, joined by line feeds, unless white space stands around the whole |
| ToolFragments.CollectPayload | harness/harness-llm/src/openai_compat.rs:366-384 | The loop over a payload adds its pieces, a missing index being the position |
| ToolFragments.CollectStream | harness/harness-llm/src/openai_compat.rs:354-384 | Frames are collected as their deltas and closing messages in order |
| ToolFragments.PerIndex | harness/harness-llm/src/openai_compat.rs:386-422 | What is assembled under an index depends on the pieces with that index alone |
| ToolFragments.AnyInterleaving | harness/harness-llm/src/openai_compat.rs:354-422 | Any interleaving of the pieces of different calls assembles the same |
| ToolFragments.AnyCutting | harness/harness-llm/src/openai_compat.rs:386-422 | Any cutting of an argument string assembles the call of the whole string, with the id repeated or left out |
| ToolFragments.SnapshotNoOpIff | harness/harness-llm/src/openai_compat.rs:405-417 | A closing snapshot changes nothing exactly when its id, name and arguments are the known ones, made up or absent |
| ToolFragments.OrderOf | harness/harness-llm/src/openai_compat.rs:350 | The calls are visited in ascending index order |
| ToolFragments.FinishStreamToolCalls | harness/harness-llm/src/openai_compat.rs:487-511 | All calls in index order, or the fault of the first call that is nameless or has broken arguments; `ToolCalls` says what they are made of |
| ToolFragments.OneBadCallEnds | harness/harness-llm/src/openai_compat.rs:487-511 | Calls come out exactly when every call is complete |
| ToolFragments.StreamsAgree | harness/harness-llm/src/openai_compat.rs:354-511 | Two streams that agree call by call end with the same calls or the same error |
| ToolCalls.CallAssembles | harness/harness-llm/src/openai_compat.rs:386-422 | The pieces of a call, with the id on the first or a later part and a closing snapshot or none, assemble to its id, its name and its whole argument string; a late real id takes the place of a made-up one |
| ToolCalls.LateIdIff | harness/harness-llm/src/openai_compat.rs:405-407 | A later piece changes a known id exactly by giving another, real one in a snapshot or for a made-up one |
| ToolCalls.CallsComeOut | harness/harness-llm/src/openai_compat.rs:354-511 | If frames, in any framing and interleaving, carry calls with names and arguments that parse, those calls come out in index order, each with its id, its name and its parsed arguments |
| ToolCalls.FirstBadCallIsNamed | harness/harness-llm/src/openai_compat.rs:487-511 | Otherwise the error names the first unusable call: by id if it has no name, else by name with the complaint of the parser |
| ToolWires.OneByOneTransmits | harness/harness-llm/src/openai_compat.rs:354-384 | Calls sent part by part with an index and closed by their message are carried so |
| ToolWires.TogetherTransmits | harness/harness-llm/src/openai_compat.rs:366-379 | So are whole calls in one frame without an index: the position counts |
| ToolWires.OldFormCollects | harness/harness-llm/src/openai_compat.rs:381-383 | A function call of the older form goes under index 0 with the id `call_0` |
| Transcript.ValidIsTurns | harness/harness-runtime/src/agent_loop.rs:3281-3287 | The adjacency contract stated by position and stated turn by turn agree |
| Protocol.Declare | harness/harness-runtime/src/agent_loop.rs:3300-3308 | The first call under each nonempty id is declared |
| Protocol.CollectAnswers | harness/harness-runtime/src/agent_loop.rs:3309-3322 | The first answer to each declared id in the run behind |
| Protocol.Pair | harness/harness-runtime/src/agent_loop.rs:3323-3329 | Calls and answers in declaration order |
| Protocol.EnforceProtocol | harness/harness-runtime/src/agent_loop.rs:3288-3339 | The loop computes the repaired transcript |
| ProtocolContract.EnforceIsValid | harness/harness-runtime/src/agent_loop.rs:3281-3339 | Whatever went in, the result obeys the contract |
| ProtocolContract.EnforceFixesExactlyValid | harness/harness-runtime/src/agent_loop.rs:3281-3339 | A transcript comes back unchanged exactly when it obeys the contract; a second repair changes nothing |
| ProtocolContract.EnforceIsOutcomes | harness/harness-runtime/src/agent_loop.rs:3288-3339 | A call and its earliest answer survive exactly when the id is nonempty, first declared here and answered in the run behind; system, user and text-only messages all stay, in order |
| Stale.CompressedFits | harness/harness-runtime/src/agent_loop.rs:3498-3530 | Output compression changes exactly the results over the limit, to as many of the selected lines as fit, and is idempotent |
| Excerpts.SelectedLines | harness/harness-runtime/src/agent_loop.rs:3508-3520 | The lines selected are exactly the first 36, the last 28 and the first 24 that speak of an error or a warning, without repetitions in a row |
| Stale.CompressStaleToolResults | harness/harness-runtime/src/agent_loop.rs:3346-3365 | The in-place loop shrinks exactly the stale results |
| Stale.CompressGrow | harness/harness-runtime/src/agent_loop.rs:3341-3365 | Compressing turn after turn and compressing the whole history once give the same messages |
| Stale.CompressKeepsShape | harness/harness-runtime/src/agent_loop.rs:3346-3365 | Only the content of results older than the newest twelve changes, to its first 300 characters and a note if it is longer; validity is kept |
| Stale.StripIsFilter | harness/harness-runtime/src/agent_loop.rs:3264-3279 | Exactly the text-only error answers are removed; all other messages stay, each once and in order |
| Stale.ErrorTextIff | harness/harness-runtime/src/agent_loop.rs:3264-3268 | An error answer is one without calls that starts, behind white space, with `[error]` |
| Stale.StripKeepsValid | harness/harness-runtime/src/agent_loop.rs:3269-3279 | Removing them breaks no pairing |
| Budget.ClampBudget | harness/harness-runtime/src/agent_loop.rs:3538-3545 | The budget lies between its bounds whatever is configured |
| Budget.FindStart | harness/harness-runtime/src/agent_loop.rs:3551-3573 | The backward walk finds the earliest user message from which everything fits, or the last one |
| Budget.BuildSummary | harness/harness-runtime/src/agent_loop.rs:3583-3602 | The loop writes the newest lines of what is left out, as many as fit |
| Excerpts.SpokenLinesAre | harness/harness-runtime/src/agent_loop.rs:3585-3598 | The lines of a summary are those of the user and assistant messages that are not blank, newest first |
| Excerpts.SummaryLineSays | harness/harness-runtime/src/agent_loop.rs:3588-3596 | A line says who spoke and quotes up to 480 characters |
| Excerpts.CondensedSays | harness/harness-runtime/src/agent_loop.rs:3576-3605 | Older messages become all their system messages, in order, and one note that counts the others and quotes as many of the newest as fit |
| Budget.ApplyContextBudget | harness/harness-runtime/src/agent_loop.rs:3534-3606 | The method computes the trimmed transcript |
| Budget.BudgetBound | harness/harness-runtime/src/agent_loop.rs:3532-3606 | If the last turn fits, the result exceeds the budget at most by the system messages |
| Budget.BudgetKeepsLongest | harness/harness-runtime/src/agent_loop.rs:3532-3606 | The kept suffix is the longest run of whole turns that fits, and everything in front becomes its system messages and one note |
| Budget.CutNeedsUser | harness/harness-runtime/src/agent_loop.rs:3547-3558 | Nothing is cut inside the budget or without a user message |
| Budget.BudgetKeepsValid | harness/harness-runtime/src/agent_loop.rs:3532-3606 | A valid transcript stays valid when it is trimmed |
| Rebuild.OnChunk | harness/harness-runtime/src/agent_loop.rs:3181-3216 | One assistant frame: gathering reasoning, merging text, announcing calls |
| Rebuild.MessagesFromEvents | harness/harness-runtime/src/agent_loop.rs:3165-3236 | The loop over the log computes the rebuilt messages that `RebuiltEvents` describes |
| RebuiltEvents.RebuiltByEvent | harness/harness-runtime/src/agent_loop.rs:3165-3236 | Behind the system prompt, one message for every turn start, result, frame with calls and run of text frames, in order, each with its input, its result under its call id and unchanged up to 16000 characters, its calls, its text, and the reasoning gathered for it |
| RebuiltEvents.KindsByEvent | harness/harness-runtime/src/agent_loop.rs:3165-3236 | So the tool messages are the results, the user messages the inputs, and the announcements the frames with calls, in order |
| Rebuild.RecutLog | harness/harness-runtime/src/agent_loop.rs:3181-3216 | Cutting any one answer of a log into frames differently changes nothing the model is sent |
| Rebuild.OldLogSameReasoning | harness/harness-runtime/src/agent_loop.rs:3187-3193 | Reasoning logged as thinking and again on its frame counts once |
| Rebuild.RebuiltShape | harness/harness-runtime/src/agent_loop.rs:3165-3236 | The rebuilt list, before it is repaired: no two text answers in a row, the system prompt first, no tool-call markup in answers |
| Recovery.RecoverIncompleteThinkingHistory | harness/harness-llm/src/deepseek.rs:91-139 | The loop computes the recovered history |
| Recovery.RecoverIsReasoned | harness/harness-llm/src/deepseek.rs:91-139 | Afterwards every announcement carries reasoning |
| Recovery.RecoverKeepsOthers | harness/harness-llm/src/deepseek.rs:91-139 | Inputs, text answers and announcements with reasoning all stay, in order |
| Recovery.RecoverFixesExactlyReasoned | harness/harness-llm/src/deepseek.rs:88-139 | A history comes back unchanged exactly when all reasoning is there |
| Recovery.RecoverKeepsValid | harness/harness-llm/src/deepseek.rs:91-139 | A valid history stays valid |
| Recovery.NoteKeepsEvidence | harness/harness-llm/src/deepseek.rs:110-135 | A note names every tool of the turn and carries the head of every result |
| Pipeline.PrepareIsValid | harness/harness-runtime/src/agent_loop.rs:3257-3262 | Every prepared history is valid; a valid one inside the budget and free of error texts is not changed |
| Pipeline.PrepareValid | harness/harness-runtime/src/agent_loop.rs:3257-3262 | On a valid history the protocol stage has nothing left to do |
| Pipeline.PrepareKeepsUsers | harness/harness-runtime/src/agent_loop.rs:3260-3262 | Of the user messages at most a prefix is dropped, never the last |
| Pipeline.EndToEnd | harness/harness-llm/src/deepseek.rs:39-53 | For every log and setting the request history is valid, starts with the system prompt, keeps the user's latest messages, and carries all reasoning unless thinking is off |
| RebuiltEvents.RequestKeepsInputs | harness/harness-runtime/src/agent_loop.rs:3257-3262 | Of the inputs of the log at most the first ones are missing in a request, never the last |
| TextAnswers.EnforceMergedIff | harness/harness-runtime/src/agent_loop.rs:3288-3339 | The repair leaves two text answers in a row exactly when two messages become text answers (an announcement with text does when all its calls are dropped) and everything between them vanishes |
| TextAnswers.RecoverKeepsMerged | harness/harness-llm/src/deepseek.rs:91-139 | Recovery of reasoning neither brings two text answers together nor parts them |
| TextAnswers.RequestMergedIff | harness/harness-runtime/src/agent_loop.rs:3183-3185 | For every log and setting: no stage before the repair puts two text answers in a row, and the outgoing history has none exactly when the trimmed one has no such pair |
| TextAnswers.AnsweredLogsStayMerged | harness/harness-runtime/src/agent_loop.rs:3183-3185 | A log in which every call is answered at once never sends two text answers in a row |
| TextAnswers.LostCallJoinsTexts | harness/harness-runtime/src/agent_loop.rs:3288-3339 | A call that is never answered, between two texts, sends two text answers in a row |
| RepeatGuard.ToolRepeatGuard.Record | harness/harness-runtime/src/agent_loop.rs:779-819 | One result on the guard's fields |
| RepeatGuard.ToolRepeatGuard.NoteAttempt | harness/harness-runtime/src/agent_loop.rs:821-828 | One recovery on the guard's fields |
| RepeatGuard.ToolRepeatGuard.FlagsRepeat | harness/harness-runtime/src/agent_loop.rs:763-777 | The three conditions on the guard's fields |
| RepeatGuard.AfterSummarizes | harness/harness-runtime/src/agent_loop.rs:779-828 | After any history the guard holds the last result, the counts since the last write, the locate run and the recoveries, up to the counters' ceiling |
| RepeatGuard.FlagsExactly | harness/harness-runtime/src/agent_loop.rs:763-819 | The guard warns exactly when the full history calls for it |
| RepeatGuard.SignatureKinds | harness/harness-runtime/src/agent_loop.rs:231-252 | Which calls change the workspace and which ones only look for something, by tool and arguments |
| RepeatGuard.Replay | harness/harness-runtime/src/agent_loop.rs:763-828 | Driving the object through any history gives that answer |
| Plugins.Sorter.VisitPlugin | harness/harness-core/src/plugin.rs:60-83 | The recursion over shared sets computes the specification and restores the stack |
| Plugins.TopoSort | harness/harness-core/src/plugin.rs:48-58 | The method computes the sorted list |
| PluginOrder.SortedIsGood | harness/harness-core/src/plugin.rs:48-83 | Every name comes out once, and a dependency that does not come first closes a cycle |
| PluginOrder.SortedIsPermutation | harness/harness-core/src/plugin.rs:48-83 | With distinct names nothing is lost or repeated |
| PluginOrder.InOrderIffAcyclic | harness/harness-core/src/plugin.rs:47-83 | All dependencies come first exactly when the graph has no cycle |
| PluginOrder.InOrderIsKept | harness/harness-core/src/plugin.rs:48-83 | A list already in order keeps its order |
| PluginOrder.SortedTwice | harness/harness-core/src/plugin.rs:48-83 | Sorting a sorted list without cycles changes nothing |
| Calendar.CivilIsValid | harness/harness-capability/src/promotion.rs:26-37 | Every integer day gives a valid date |
| Calendar.CivilNext | harness/harness-capability/src/promotion.rs:26-37 | Day 0 is 1970-01-01 and the next day is the calendar's next date |
| Calendar.DaysUndoCivil | harness/harness-capability/src/promotion.rs:26-37 | Counting the days of the date gives the day back |
| Calendar.CivilUndoesDays | harness/harness-capability/src/promotion.rs:26-37 | Every valid date is the date of its day |
| Calendar.CivilMonotone | harness/harness-capability/src/promotion.rs:26-37 | Later days have later dates, and no two days share one |
| Calendar.SameDateSameDay | harness/harness-capability/src/promotion.rs:40-43 | Two times print the same date exactly when they lie on the same UTC day, before 1970 too |
| Calendar.DateTextReads | harness/harness-capability/src/promotion.rs:40-43 | The text of a date reads back as its year, month and day, in this order |
| Terms.Tokenize | harness/harness-capability/src/inverted.rs:26-68 | One pass yields exactly the whole words in lower case, the single characters and the adjacent pairs, sorted and once each |
| Terms.TermsJoined | harness/harness-capability/src/inverted.rs:26-49 | Joining two texts by a separator joins their term sets |
| Inverted.InvertedIndex.Insert | harness/harness-capability/src/inverted.rs:123-142 | A write changes only its record and keeps the postings exact |
| Inverted.InvertedIndex.Remove | harness/harness-capability/src/inverted.rs:145-151 | A removal drops the record and all its postings |
| Inverted.InvertedIndex.DropPosting | harness/harness-capability/src/inverted.rs:185-192 | One reference goes, and no empty posting stays |
| Inverted.InvertedIndex.Candidates | harness/harness-capability/src/inverted.rs:156-171 | Exactly the records that share a term, by shared terms and then id |
| Inverted.PostingsUnique | harness/harness-capability/src/inverted.rs:70-76 | The records determine the postings, so an updated index equals a rebuilt one |
| Inverted.FoundUnique | harness/harness-capability/src/inverted.rs:153-171 | There is one answer to a query, that of a scan over all records |
| Inverted.LastWriteWins | harness/harness-capability/src/inverted.rs:120-151 | After any run of writes and removals each id holds the terms of its last write, if that was not removed |
| Recall.ConversationMemory.EnsureIndex | harness/harness-provider-memory/src/assets_native.rs:232-253 | The lazy index is built from the current facts, duplicate and empty ids included |
| Recall.ConversationMemory.IndexUpsert | harness/harness-provider-memory/src/assets_native.rs:281-290 | Updating one record keeps an existing index in step with the list |
| Recall.ConversationMemory.Remember | harness/harness-provider-memory/src/assets_native.rs:420-427 | The fact replaces those of its id and an existing index stays that of the list; a failed write changes nothing |
| Recall.ConversationMemory.Consolidate | harness/harness-provider-memory/src/assets_native.rs:320-370 | The extracted facts are stored in order and an existing index stays that of the list |
| Recall.ConversationMemory.CandidateFacts | harness/harness-provider-memory/src/assets_native.rs:255-270 | Candidates are those of an index built from the current facts |
| Recall.RememberIsUpsert | harness/harness-provider-memory/src/assets_native.rs:420-427 | Storing a fact in the list is writing its record in the index of the list |
| ExtractedFacts.FactsByTurn | harness/harness-provider-memory/src/assets_native.rs:320-361 | Consolidation makes one fact of every readable turn of at least 24 bytes, in order, with its trimmed text, the kind its words show and its number in the id |
| ExtractedFacts.FactIdsDiffer | harness/harness-provider-memory/src/assets_native.rs:348 | Facts of one session have distinct ids, so none overwrites another |
| Recall.CandidatesAreCurrent | harness/harness-provider-memory/src/assets_native.rs:255-270 | Every candidate is the newest fact of its id and shares a term with the query |
| Knowledge.PageIff | harness/harness-capability/src/index.rs:1399-1422 | A file is a page exactly when it is a Markdown file with a proper name outside the top directory `review/` |
| Knowledge.SameIdIff | harness/harness-capability/src/index.rs:1425-1428 | Two paths without their extensions get one page id exactly when they differ only where both have an underscore or a character that is written as one; a path of allowed characters is its own id |
| Knowledge.KnowledgeIndex.IndexFile | harness/harness-capability/src/index.rs:1229-1275 | A file is skipped, and nothing changes, exactly when its stamp is recorded; otherwise its record, its page and its stamp are written under its id, whatever other files share it |
| Knowledge.KnowledgeIndex.Sync | harness/harness-capability/src/index.rs:1209-1294 | After a sync checkpoint and wiki are those of the current files, every record is that of a current file, and exactly the records of clashing ids are missing |
| Knowledge.CompleteIffNoClash | harness/harness-capability/src/index.rs:1244-1291 | A complete index stays complete over a sync exactly when no nonempty id passes from a removed file to a present one |
| KnowledgeRuns.SyncEach | harness/harness-capability/src/index.rs:1340-1351 | The object driven through any run of creations, edits, moves and deletions leaves such records after every sync |
| KnowledgeRuns.AlwaysMirrorsIff | harness/harness-capability/src/index.rs:1340-1351 | After every sync of a run the index holds exactly the current files, if and only if no sync meets such a clash |
| KnowledgeRuns.MoveClashes | harness/harness-capability/src/index.rs:1425-1428 | Moving `notes/a.md` to `notes_a.md` is a clash although no two files ever share an id at one time |
| KnowledgeRuns.MovePage | harness/harness-capability/src/index.rs:1244-1291 | Two syncs around that move: the page is there and checkpointed, and the index has lost it |
| Knowledge.MirrorsUnique | harness/harness-capability/src/index.rs:1296-1306 | The files determine the records, so the incremental index equals one built from scratch |
| Knowledge.KnowledgeIndex.Recall | harness/harness-capability/src/index.rs:1353-1379 | The pages returned are current ones, best first, up to the cap and the limit |
| ImpactPaths.CallersMap | harness/harness-provider-memory/src/assets_native.rs:750-758 | The loops build the callers of every symbol in order |
| ImpactPaths.CallersHas | harness/harness-provider-memory/src/assets_native.rs:750-758 | The callers of a symbol are exactly the symbols that call it |
| ImpactPaths.ImpactPath | harness/harness-provider-memory/src/assets_native.rs:791-822 | The search with its early stops returns the first twenty walks of up to five calls |
| ImpactPaths.WalksAreWalks | harness/harness-provider-memory/src/assets_native.rs:798-816 | A level holds exactly the walks of its length |
| ImpactPaths.ImpactIsNearest | harness/harness-provider-memory/src/assets_native.rs:791-822 | All paths found start at the symbol, each node calling the one in front of it, with 2 to 6 nodes and shortest first; a missing one is as long as any found, and none is missing below twenty |
| Subscriptions.HandlerTable.InheritFrom | harness/harness-core/src/event.rs:84-127 | A fork has the parent's subscriptions and a counter above the largest id in use |
| Subscriptions.HandlerTable.Subscribe | harness/harness-core/src/event.rs:141-150 | A subscription is appended under a new id |
| Subscriptions.HandlerTable.Unsubscribe | harness/harness-core/src/event.rs:152-156 | Exactly the subscription with the id goes |
| Subscriptions.HandlerTable.Collect | harness/harness-core/src/event.rs:159-168 | Handlers in registration order |
| Subscriptions.AddKeepsWell | harness/harness-core/src/event.rs:141-150 | Ids stay unique across the four buckets, below the counter and ascending in each list |
| Subscriptions.RemoveKeepsWell | harness/harness-core/src/event.rs:152-156 | The same for removal |
| Subscriptions.ForkKeepsWell | harness/harness-core/src/event.rs:78-127 | The same for a fork, which shows the same handlers |
| Subscriptions.RunView | harness/harness-core/src/event.rs:141-168 | After any run a list holds what it held and what was registered, in order, without what was dropped |
| Contexts.RestoredIffBalanced | harness/harness-core/src/context.rs:173-201 | A list is back to what it was exactly when all that came has gone and nothing else, in any order |
| Contexts.CounterMovesOn | harness/harness-core/src/event.rs:141-142 | The id counter does not come back, so no id is handed out twice |
| Contexts.ForkIsolation | harness/harness-core/src/context.rs:59-75 | In any run over any number of contexts and forks, a context is changed by its own operations only |
| Contexts.WorldKeepsWell | harness/harness-core/src/event.rs:78-156 | In every context of such a run ids stay unique, bounded and ascending |
| Contexts.ForkSees | harness/harness-core/src/context.rs:52-75 | A fork collects what it inherited and registered itself, in order, without what it dropped itself |
| Contexts.ServicesRestoredIff | harness/harness-core/src/context.rs:77-90 | Dropping all service registrations restores the table exactly when nothing present was overridden |
| Contexts.OverrideLoses | harness/harness-core/src/context.rs:77-90 | Overriding a present service and dropping the override loses the original |
| Contexts.AppContext.ForkContext | harness/harness-core/src/context.rs:59-75 | The child shares the services and handlers of the moment and nothing mutable |
| Frontmatter.ParseUndoesRender | harness/harness-capability/src/frontmatter.rs:160-212 | Reading a written file gives the head and the body without leading blank lines |
| Frontmatter.RoundTripIff | harness/harness-capability/src/frontmatter.rs:160-212 | The round trip is exact precisely for bodies that do not start with a newline |
| PromotionKeys.NormKeyLoop | harness/harness-capability/src/promotion.rs:102-115 | The loop computes the key |
| PromotionKeys.PromotedBodyLoop | harness/harness-capability/src/promotion.rs:149-160 | The loop computes the promoted text |
| PromotionKeys.PromotedKeepsKey | harness/harness-capability/src/promotion.rs:102-160 | Promotion changes neither the key nor the judged length of a fact |
| PromotionTexts.LineKeyIs | harness/harness-capability/src/promotion.rs:107-112 | The key of a line is made of exactly its letters and digits, in order and in lower case |
| PromotionTexts.LineCharsIs | harness/harness-capability/src/promotion.rs:117-123 | The length of a line counts exactly its visible characters |
| PromotionTexts.KeyByLine | harness/harness-capability/src/promotion.rs:102-123 | Line by line, headings and status lines add nothing to key and length, and the key is cut at 64 characters |
| PromotionTexts.PromotedLines | harness/harness-capability/src/promotion.rs:149-160 | A promoted text has its other lines in order, then a blank line and one status line with the date |
| PromotionTexts.SanitizedName | harness/harness-capability/src/distill.rs:121-132 | File names have only lower-case letters, digits, '.', '-' and '_'; a name made of these is unchanged, and only such a name; other characters become dashes |
| PromotionTexts.FactNameIs | harness/harness-capability/src/promotion.rs:237-259 | A fact is stored under its id, or under the name of its candidate if it has none, unchanged where that has only letters, digits and the signs a file name may have |
| Promotion.JudgeIff | harness/harness-capability/src/promotion.rs:126-147 | A candidate is accepted exactly when it names a source, has twelve characters, at least 0.70 confidence and a key that is new; each lack is a reason of its own |
| Promotion.JudgeByKey | harness/harness-capability/src/promotion.rs:126-147 | The facts already known count for nothing but their keys: a candidate is accepted exactly when it would be with none known and its key is new |
| Promotion.PromoteReviewDir | harness/harness-capability/src/promotion.rs:190-271 | The loop over the sorted listing computes the run |
| Promotion.ListingUnique | harness/harness-capability/src/promotion.rs:82-94 | A directory has one sorted listing, so the run is determined by the files |
| PromotionResults.PromotedReadsBack | harness/harness-capability/src/promotion.rs:226-258 | A promoted file reads back as an active, dated, tagged fact of the second layer with the candidate's key; nothing else of its head changes |
| PromotionResults.PromotionRun | harness/harness-capability/src/promotion.rs:190-271 | The run promotes exactly the first eligible candidate of each new key, and says what every file, the review directory and the noted keys then are |
| PromotionResults.LeavesIff | harness/harness-capability/src/promotion.rs:190-271 | A candidate leaves the review directory exactly when it has these qualities, no active fact has its key, and no earlier candidate with them has it |
| PromotionResults.PickedIsNew | harness/harness-capability/src/promotion.rs:192-230 | Keys of promoted candidates are new and distinct |
| PromotionResults.ConservesIffOwnTargets | harness/harness-capability/src/promotion.rs:190-271 | Every candidate stays untouched in review or becomes one active fact and no other file changes, exactly when every promoted candidate has a fact file of its own that no fact uses; otherwise a fact is overwritten |
| PromotionResults.KeysAreTrue | harness/harness-capability/src/promotion.rs:192-259 | The keys noted during the run are those of the active facts it leaves |
| PromotionResults.SecondRunPromotesNothing | harness/harness-capability/src/promotion.rs:189-271 | A second run, on any date, promotes nothing and changes no file |
| PromotionResults.SomethingIsPromoted | harness/harness-capability/src/promotion.rs:190-271 | On every date there is a run that meets all hypotheses and promotes a candidate |

## Left out

- DsmlInvariance.ChunkInvariance: for streams outside its hypotheses the two families above are settled exactly; what one chunk makes of blocks that are not well formed and are followed by further invokes has no closed condition here.
- DsmlGapCuts.BlocksCutIff: takes parameter values to be free of closing markup, text inside a block outside its parameters to be free of `<`, and text around blocks to be free of tool-call tags and not to end inside an unfinished marker, since a marker left unfinished is dropped at the end of the stream by design.
- DsmlFilters.ParseInvokeBlock: the mapping of native tool names to registry tools and the JSON parsing of non-literal parameters are not modelled; such a value is kept as its text.
- SseChunks.ChunkInvariance: chunks are cut at character boundaries and are not empty; bytes that are not UTF-8 are replaced by the source in a way that depends on the cut.
- Budget.BudgetBound: message counts are those of a 64-bit machine, so that the header of the note is short.
- Stale.CompressedFits: the same for the length of a result.
- Knowledge.KnowledgeIndex.Sync: read failures of single files and a checkpoint that cannot be written are not modelled; nor is a new index over an old checkpoint, which skips unchanged files.
- KnowledgeRuns.SyncEach: asks that between two syncs a file with an unchanged time and size has unchanged content, and that at any one time page ids are distinct; the source relies on both.
- PromotionResults.KeysAreTrue: asks that each promoted candidate has a fact file of its own, since the source overwrites files of the same name, and that the YAML library reads back the heads the run writes; so does `PromotionResults.SecondRunPromotesNothing`.
- ToolFragments.AnyInterleaving: the lookups in JSON frames are not modelled; a piece is what they return.
- Recall.ConversationMemory.CandidateFacts: the lexical scores, the semantic channel and the fusion of both rankings are heuristic and not modelled.
- Subscriptions.HandlerTable.Collect: the four buckets are one map keyed by bucket and event type; dispatch itself (spawned, joined, serial and waterfall calls) is not modelled.
- Contexts.AppContext.ForkContext: locks and weak references are not modelled; a registration is an id in a live context.
- Plugins.TopoSort: registering the sorted plugins with a context is not modelled.
- Calendar.CivilNext: days are mathematical integers; overflow of 64-bit days is not modelled.
- Approval of candidates, capacity warnings of the index, skill and wiki matching: easy members or heuristics.
- The agent loop itself, HTTP, processes, sandboxes, user interfaces: input and output of other systems.
