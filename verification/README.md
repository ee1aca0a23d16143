# Verified core of openlife

This project models the parts of `openlife-core` whose guarantees hold over whole runs, and proves those
guarantees. Code that changes state is a class or a method with a loop, and each such method is proved equal to a
function of its inputs and the state before; what the system promises is then proved about that function, over every
run where runs matter. For each operation there are laws of two kinds: what holds whatever happens, and what the
operation answers, exactly when, and what it writes (the `...IsAnswered` and `...Exactly` lemmas), in terms of the state
and the input alone.

| files | what they model |
|---|---|
| `SseDecoder`, `SseChunking`, `SseLines`, `SseFrames`, `Bytes`, `Whitespace` | the streaming decoder for provider responses, its independence of chunk boundaries, and what each line means |
| `ConversationModel`, `ConversationTranscript`, `ConversationRuns`, `ConversationCatalog`, `ConversationAnswers`, `ConversationStore` | the transactional conversation store: turns, items, projects, read roots, profiles, selections |
| `ExecutorGate`, `McpRegistry`, `McpAnswers`, `McpLiveRegistry` | the lock-free executor gate and the tool registry that shares gates with cloned snapshots |
| `McpTransport` | the line-framed JSON-RPC exchange with its poison guard (JSON-RPC 2.0, section 5) |
| `ScopeEncoding`, `ProviderCapability` | the length-prefixed scope encoding and the one-way provider capability |
| `EmbeddingTypes`, `EmbeddingCache`, `OllamaProtocol`, `OllamaAnswers` | the LRU and TTL cache, and the manifest, embedding, manifest protocol |
| `PrivacyEngine`, `PrivacyRules`, `PrivacyPlaceholders`, `PrivacyMarks`, `PrivacyRoundTrip`, `PrivacyFindings`, `PrivacyLengthSort` | placeholder masking and reconstruction |
| `PdfLayout`, `PdfFlow`, `ArtifactEncoders` | greedy wrapping, pagination, XML escaping, spreadsheet column names |
| `JsonPointer`, `LifePatch`, `LifeModel`, `LifeAnswers` | pointer-addressed patches on a JSON tree (RFC 6901) and batches of them |

What the program takes from outside is a parameter: chunk boundaries and read results, schedules of other threads,
cancellation points, clocks as numbers, UTF-8 and JSON readers, digests, the privacy detectors' findings, a model's
serializer and validator, the outcome of conflict resolution. Every theorem holds for all of them; where a digest has
to be free of collisions the theorem says so.

Some of the guarantees one would expect do not hold in general. For these the exact condition is proved:

- Chunking changes what the consumer of a stream sees if and only if a line that is read is one byte over the frame
  limit because of its CR, and without a cut there a content piece would still follow or the stream would not end in a
  frame that is too large (`SseChunking.ChunkIndependence`).
- A masked message comes back for every order of the keys if and only if no finding is found from inside an earlier
  placeholder, which shows in the masked text (`PrivacyFindings.ComesBackExactly`); for the orders of the length sort,
  if and only if every finding that is found from inside an earlier placeholder gets a longer one
  (`PrivacyLengthSort.SortComesBackExactly`). A finding that contains `>` can straddle a placeholder, and two findings
  of the same length can be masked so that the message is lost (`PrivacyFindings.StraddlingFinding`). A finding that
  contains none and is part of no placeholder of the batch always comes back. What the default detectors find is of that
  kind: it contains a character that no placeholder has (`ForeignIsSafe`), or a digit run longer than the counters of the
  batch, an id that ends in `X` included (`DigitRunIsSafe`, `IdIsSafe`).
- Replacing at a pointer reads back if and only if its last segment unescapes to itself, or nothing was to change
  (`LifePatch.ReplaceReadsBack`): the code does not unescape the segment it writes.
- Deleting an array element can be undone by an insert if and only if it was not the last one
  (`LifePatch.DeleteThenInsert`), because an insert needs a path that already resolves.
- Two payloads with the same scope parts are the same if and only if their lists have the same lengths
  (`ScopeEncoding.PayloadFromParts`), because the encoding carries no counts.
- A cached key survives fewer than `max_size - 1` other keys, and not more (`EmbeddingCache.ReputEvictsAnother`):
  putting a present key at capacity evicts another one.
- An active conversation may point at an archived project (`ConversationCatalog.ActiveInArchivedProject`).
- Registering a builtin, or committing a prepared server, leaves an open gate unreachable if and only if a manifest that
  stays has a key of what is registered (`McpRegistry.NoKeyTakenNoGateLost`). Source, id and name are joined with NUL,
  so two builtins with NUL in an id or name can collide (`McpRegistry.NulCollides`); without NUL it never happens
  (`McpRegistry.CleanRunsAreProper`).

## Model

| member | source | states |
|---|---|---|
| SseDecoder.StreamDecoder.Accept | openlife-core/src/llm.rs:3126-3178 | one chunk through the buffering and line-draining loop is the pure step `Feed`; a running decoder never keeps more than the frame limit |
| SseDecoder.StreamDecoder.Finish | openlife-core/src/llm.rs:3179-3220 | the unterminated remainder is one more frame, and the ending follows from the flags |
| SseDecoder.Decode | openlife-core/src/llm.rs:3105-3225 | the whole response, over any chunks and any stop of the source |
| SseChunking.EveryChunking | openlife-core/src/llm.rs:3114-3221 | for every chunking the outcome is that of a parser that splits the whole input at LF, or that of a cut inside a critical line end; nothing else |
| SseChunking.CutSpoilsCriticalLine | openlife-core/src/llm.rs:3131-3136 | every critical line end has a chunking that spoils it, against the check at 3175-3177 |
| SseChunking.ChunkIndependence | openlife-core/src/llm.rs:3114-3221 | all chunkings agree with the whole-input parser in pieces and ending if and only if no critical line end spoils: none is followed by a content piece or by another ending than a frame that is too large |
| SseChunking.WithinTheLimit | openlife-core/src/llm.rs:3114-3221 | when every line with its CR is within the frame limit, every chunking yields the pieces and the ending of the whole-input parser |
| SseChunking.NormalEnd | openlife-core/src/llm.rs:3140-3220 | however the bytes are cut, a normal end needs a content piece before a [DONE] frame, which is the first stopping line or the unterminated remainder |
| SseLines.LineEndsStream | openlife-core/src/llm.rs:3126-3178 | after lines that pass, the next line decides by how its own bytes, without LF or CR LF, are classified: too long, not UTF-8, not JSON, a provider error and the end marker each end the stream in their own way with the content so far, and every other line passes |
| SseLines.StreamRunsOut | openlife-core/src/llm.rs:3179-3220 | a stream of lines that pass, whose source then stops, ends as the remainder is classified, or as the source stopped, with the content of all lines |
| SseFrames.TrailingCrIgnored | openlife-core/src/llm.rs:3131-3143 | a trailing CR never changes how a line is classified, so the remainder is read as the complete line would be |
| SseFrames.DataLine | openlife-core/src/llm.rs:3140-3165 | white space apart, a line `data:` with a payload is the end marker or what the JSON reader makes of exactly that payload |
| SseFrames.OtherLine | openlife-core/src/llm.rs:3140-3147 | every other line is ignored, and one that is not UTF-8 is an error |
| ConversationStore.ConversationStore.BeginChatTurn | openlife-core/src/conversation.rs:1899-1997 | the begin transaction is the model's step, keeps the transcript and catalogue laws, and never answers with a violated key or a missing or misowned user item |
| ConversationStore.ConversationStore.AppendWorkSteering | openlife-core/src/conversation.rs:1999-2086 | the steering transaction is the model's step, keeps both laws and violates no key |
| ConversationStore.ConversationStore.CompleteChatTurn | openlife-core/src/conversation.rs:2088-2157 | completion is the model's step, status and assistant row together; it keeps both laws and violates no key |
| ConversationStore.ConversationStore.TerminalizeWithoutAssistant | openlife-core/src/conversation.rs:2180-2206 | ending a turn without an answer is the model's step, idempotent for the same end; failing and cancelling keep both laws |
| ConversationStore.ConversationStore.InterruptIncompleteTurns | openlife-core/src/conversation.rs:2168-2178 | every running turn is interrupted, no other row changes |
| ConversationStore.ConversationStore.ListModelContextItems | openlife-core/src/conversation.rs:2334-2378 | the rows returned are the model's context query |
| ConversationStore.ConversationStore.UpdateScope | openlife-core/src/conversation.rs:1565-1594 | a scope change succeeds only at the expected revision and raises it |
| ConversationStore.ConversationStore.AddProjectReadRoot | openlife-core/src/conversation.rs:1596-1637 | a read root is added at the expected revision, below the limit of eight, with a new path |
| ConversationStore.ConversationStore.Archive | openlife-core/src/conversation.rs:1676-1713 | a project without active conversations is archived at the expected revision, and unselected |
| ConversationStore.ConversationStore.DeleteProviderConnection | openlife-core/src/conversation.rs:1342-1367 | deletion cascades to profiles and empties every selection of them, so that no selection dangles |
| ConversationTranscript.StepKeepsTranscript | openlife-core/src/conversation.rs:1899-2206 | every transaction keeps the transcript invariant |
| ConversationTranscript.TurnIsOneBlock | openlife-core/src/conversation.rs:1899-2206 | in every reachable store the items of a conversation are numbered 1 to n, each turn's items are one block from its only user message, with the turn's request digest, to its assistant message, there exactly if the turn is completed |
| ConversationTranscript.SequencesAreOneToN | openlife-core/src/conversation.rs:1946-1984 | the next-number rule leaves no gap: the rows of a conversation carry 1, 2, ..., n in order |
| ConversationTranscript.OneRunningTurn | openlife-core/src/conversation.rs:1925-1945 | in every reachable store at most one turn of a conversation runs, and only in an active conversation |
| ConversationTranscript.DeadErrors | openlife-core/src/conversation.rs:2381-2403 | in every reachable store the missing-user-item and owner-mismatch errors and unique-key violations cannot come from a turn command |
| ConversationRuns.RetryIsHarmless | openlife-core/src/conversation.rs:1907-1924 | a turn command accepted once is accepted at every later reachable state with the same answer and changes nothing (also 2014-2036, 2098-2112, 2189-2195) |
| ConversationRuns.DriftIsRejected | openlife-core/src/conversation.rs:1907-1924 | the same id with a different payload, or another end of an ended turn, is rejected for ever, without change |
| ConversationRuns.ContextIsQuery | openlife-core/src/conversation.rs:2334-2378 | the context is what ordering by sequence and keeping the last rows selects |
| ConversationRuns.ContextLaw | openlife-core/src/conversation.rs:2334-2378 | in every reachable store the context is a suffix of the completed turns' rows followed by all rows of the current turn; nothing of a failed, cancelled or interrupted turn; a limit that covers the current turn keeps it whole |
| ConversationAnswers.BeginIsAnswered | openlife-core/src/conversation.rs:1899-1997 | in every reachable store a new turn begins if and only if its conversation is active and none of its turns runs; it adds the running row with its conversation and provider and the message as the last item, and otherwise nothing changes and the reason is given |
| ConversationAnswers.BeginAgainIsAnswered | openlife-core/src/conversation.rs:1907-1924 | a turn id in use gets its turn back for the same conversation, message and provider, and is drift otherwise |
| ConversationAnswers.SteeringIsAnswered | openlife-core/src/conversation.rs:2037-2086 | a new steering is appended, as the last item, if and only if its turn is of that conversation and runs |
| ConversationAnswers.SteeringAgainIsAnswered | openlife-core/src/conversation.rs:2014-2036 | a steering id in use gets its item back for the same conversation and text, and is drift otherwise |
| ConversationAnswers.CompletionIsAnswered | openlife-core/src/conversation.rs:2088-2149 | a running turn becomes Completed with the answer as its last item; a completed one answers the same text with its snapshot and another one with drift; any other turn is refused |
| ConversationAnswers.EndIsAnswered | openlife-core/src/conversation.rs:2159-2206 | a running turn that fails or is cancelled reads Failed with the error or Cancelled; the same end again is answered with the row, another one refused |
| ConversationAnswers.RestartIsAnswered | openlife-core/src/conversation.rs:2168-2178 | exactly the running turns become Interrupted with the restart error, and they are counted |
| ConversationAnswers.ContextIsAnswered | openlife-core/src/conversation.rs:2334-2378 | a row is in the context if and only if it is of a completed turn of the conversation or of the current one and fewer such rows come after it than the limit, taken between 1 and 1000 |
| ConversationCatalog.ReachableCatalog | openlife-core/src/conversation.rs:1117-1892 | in every reachable store selections are empty or active, selected profiles and conversation projects exist, archived conversations have no running turn, projects have at most eight read roots |
| ConversationCatalog.ActiveInArchivedProject | openlife-core/src/conversation.rs:1844-1852 | a run after which an active conversation points at an archived project |
| ConversationCatalog.RevisionDeterminesScope | openlife-core/src/conversation.rs:1565-1736 | over any run in which a project lives, revisions only grow and a revision determines name, root, read roots and status |
| ConversationCatalog.NoSecondChangeAtARevision | openlife-core/src/conversation.rs:1565-1756 | of two changes that expect the same revision at most one succeeds while the project lives |
| ConversationAnswers.ScopeIsAnswered | openlife-core/src/conversation.rs:1565-1594 | the trimmed new name and the root are stored, at the next revision, if and only if the project is active at the expected one |
| ConversationAnswers.RootIsAnswered | openlife-core/src/conversation.rs:1596-1637 | a read root is added if and only if the revision fits, there are fewer than eight, and id and path are new; otherwise the first of these to fail is the reason |
| ConversationAnswers.RootRemovalIsAnswered | openlife-core/src/conversation.rs:1639-1674 | a read root is removed if and only if it is the project's and the revision fits |
| ConversationAnswers.ProjectArchivalIsAnswered | openlife-core/src/conversation.rs:1676-1713 | a project is archived if and only if the revision fits and all its conversations are archived |
| ConversationAnswers.ProjectDeletionIsAnswered | openlife-core/src/conversation.rs:1738-1756 | a project is deleted, with exactly its read roots, if and only if it is archived at the expected revision and in no conversation: the guard on the workspace is never the reason |
| ConversationAnswers.CreationIsAnswered | openlife-core/src/conversation.rs:1009-1055 | a conversation is created with its title trimmed, selected and under the workspace's profile, if and only if its id is new and its project, if any, active |
| ConversationAnswers.AssignmentIsAnswered | openlife-core/src/conversation.rs:1397-1429 | project and profile of a conversation change if and only if it is active and idle and what it gets is there (also 1541-1563) |
| ConversationAnswers.LifecycleIsAnswered | openlife-core/src/conversation.rs:1820-1892 | when a conversation is archived, restored and deleted, and what that changes: without turns it has no items either, so the guard on items is never the reason |
| ConversationAnswers.SelectionIsAnswered | openlife-core/src/conversation.rs:1117-1157 | a selection is made if and only if what is selected is there and active (also 1397-1429) |
| ConversationAnswers.ProfileIsAnswered | openlife-core/src/conversation.rs:1159-1266 | a profile is stored if and only if it belongs to its connection and no other profile there has its model |
| ConversationAnswers.ConnectionDeletionIsAnswered | openlife-core/src/conversation.rs:1342-1367 | exactly the connection's profiles go, and exactly the selections of these are emptied |
| ExecutorGate.GateLaw | openlife-core/src/mcp.rs:507-565 | over every interleaving with spurious failures the low 63 bits count the live leases and the top bit says whether a retire happened |
| ExecutorGate.NothingAfterRetire | openlife-core/src/mcp.rs:519-558 | after a retire no acquire succeeds whatever it had observed before; leases end only by being dropped |
| ExecutorGate.LeaseKept | openlife-core/src/mcp.rs:556-566 | a lease that nobody drops is still there after any interleaving |
| ExecutorGate.LeasesExactly | openlife-core/src/mcp.rs:494-565 | over every interleaving a lease is live if and only if some exchange was answered with it and it was not dropped since |
| ExecutorGate.DropExactly | openlife-core/src/mcp.rs:560-565 | a drop takes exactly its lease away, lowers the low 63 bits by one, and leaves the retired bit, the other leases and all attempts |
| ExecutorGate.TurnExactly | openlife-core/src/mcp.rs:527-552 | an attempt starts with the word as it is, and each turn of its loop gives up, grants or goes on by the word it has last seen and the word as it is |
| ExecutorGate.GrantedExactly | openlife-core/src/mcp.rs:527-552 | a lease is granted if and only if the exchange does not fail for no reason, the word is still the one seen, nobody has retired the gate and there is room |
| ExecutorGate.ExecutorInstanceGate.RetireGate | openlife-core/src/mcp.rs:519-522 | retiring sets the bit and keeps every lease and attempt |
| ExecutorGate.ExecutorInstanceGate.DropLease | openlife-core/src/mcp.rs:560-565 | dropping gives back exactly one lease |
| ExecutorGate.AnswersAreTrue | openlife-core/src/mcp.rs:528-558 | an acquire that wins, or bails out, tells the truth about the gate at that moment; the loop goes on only if the word moved or the exchange failed for no reason |
| ExecutorGate.ExecutorInstanceGate.TryAcquire | openlife-core/src/mcp.rs:528-558 | the compare-exchange loop under interference is one interleaving of the state machine; with a lease only from an unretired gate |
| McpRegistry.RegistryLaw | openlife-core/src/mcp.rs:1003-1159 | in every registry reached by steps that take no key of a manifest that stays, builtin names, ids and keys are unique, each builtin has its callback, and the gates are those of exactly the registered manifests |
| McpRegistry.SnapshotReachesLiveOnly | openlife-core/src/mcp.rs:1231-1236 | an acquire through a snapshot succeeds if and only if the live registry still has that very gate |
| McpRegistry.ReplacedStaysShut | openlife-core/src/mcp.rs:757-778 | a gate that has left the live registry is never acquired again through any older snapshot, in runs of such steps (also 1003-1053, 1141-1159) |
| McpRegistry.LeasesOutlive | openlife-core/src/mcp.rs:1302-1353 | leases taken before a change outlive it until their own release |
| McpRegistry.RegisterLeavesGateOpen | openlife-core/src/mcp.rs:1003-1029 | registering puts an open gate out of reach if and only if a manifest that stays has the key |
| McpRegistry.NoKeyTakenNoGateLost | openlife-core/src/mcp.rs:1003-1159 | each step keeps every gate of the live registry live or retires it, if and only if what it registers, a builtin or a prepared server, takes no key of a manifest that stays |
| McpRegistry.CleanRunsAreProper | openlife-core/src/mcp.rs:724-726 | when no id, name or server name contains NUL, no step takes the key of a manifest that stays, so all of these laws hold |
| McpRegistry.CleanRegisterRetires | openlife-core/src/mcp.rs:1003-1029 | without NUL every gate that registering a builtin takes out is retired |
| McpRegistry.NulCollides | openlife-core/src/mcp.rs:724-726 | two builtins that do not clash and share a key |
| McpRegistry.NulLeavesGateOpen | openlife-core/src/mcp.rs:1003-1029 | after the first of them, registering the second takes its key |
| McpAnswers.RemovalExactly | openlife-core/src/mcp.rs:1031-1053 | removal by name leaves exactly the builtins of other names, by source those of other sources, in order, with callbacks and gates, and retires exactly the others' gates |
| McpAnswers.RegistrationExactly | openlife-core/src/mcp.rs:1003-1029 | registering takes out exactly the builtins with its id or name, and adds the new one last with its callback and a gate never used |
| McpAnswers.CommitExactly | openlife-core/src/mcp.rs:1117-1139 | a server is committed if and only if its name is new and its manifests are prepared, each with a gate never used |
| McpAnswers.UnregisterExactly | openlife-core/src/mcp.rs:1141-1159 | unregistering takes out exactly that server and retires exactly its gates |
| McpAnswers.LastCallbackIsCalled | openlife-core/src/mcp.rs:1003-1053 | over every run a builtin name calls the callback registered for it last |
| McpAnswers.LeaseExactly | openlife-core/src/mcp.rs:1231-1236 | a lease is granted through a snapshot if and only if it is new and the live registry has the very gate; a release takes exactly it away |
| McpLiveRegistry.LiveRegistry.RegisterBuiltin | openlife-core/src/mcp.rs:1003-1029 | the in-place registration is the model's, with a fresh gate; it retires the gates of exactly the clashing builtins, keeps their holders, and touches no other gate |
| McpLiveRegistry.LiveRegistry.Snapshot | openlife-core/src/mcp.rs:569-579 | a clone shares the gates and copies the rest |
| McpLiveRegistry.LiveRegistry.RemoveBuiltinByName | openlife-core/src/mcp.rs:757-778 | removes exactly the builtins of that name, retires their gates with all holders kept, and touches no other gate |
| McpLiveRegistry.LiveRegistry.AcquireExecutionInstance | openlife-core/src/mcp.rs:1231-1236 | no gate, no answer; a retired gate never leases; an open gate with room does; no other gate is touched |
| McpLiveRegistry.LiveRegistry.RemoveBuiltinsBySource | openlife-core/src/mcp.rs:1031-1054 | removes exactly the builtins of these sources, retires their gates with all holders kept, and touches no other gate |
| McpLiveRegistry.LiveRegistry.CommitPreparedRegistration | openlife-core/src/mcp.rs:1117-1139 | commits all of a prepared server or nothing |
| McpLiveRegistry.LiveRegistry.Unregister | openlife-core/src/mcp.rs:1141-1159 | removes exactly the server, retires its gates with all holders kept, and touches no other gate |
| McpLiveRegistry.ReplaceShutsClone | openlife-core/src/mcp.rs:1231-1236 | a clone taken before a replacement answers that the instance is retired |
| McpTransport.McpSession.ReadFrameLimited | openlife-core/src/mcp.rs:461-489 | for all sizes of the reads: the next line if it ends within the limit, with exactly its bytes consumed |
| McpTransport.McpSession.RequestWithTimeout | openlife-core/src/mcp.rs:290-363 | one exchange with cancellation at every await: nothing happens before its guard is armed, an armed exchange completes or poisons, and it completes if and only if the session is healthy, the request fits, and the next line answers it |
| McpTransport.McpSession.SendNotification | openlife-core/src/mcp.rs:267-288 | the notification reads nothing, and once armed it is written whole or poisons the session |
| McpTransport.NthRequestGetsNthLine | openlife-core/src/mcp.rs:92-363 | over every run the n-th completed request got exactly the n-th line of the server's output, and that line carries its id |
| McpTransport.PoisonLaw | openlife-core/src/mcp.rs:118-165 | after an armed exchange that did not complete, wherever it stopped, no later one is armed or completes, and none writes or reads a byte |
| McpTransport.HealthyExactly | openlife-core/src/mcp.rs:92-165 | the session is healthy exactly as long as every armed exchange has completed |
| McpTransport.AnswersExactly | openlife-core/src/mcp.rs:290-363 | an unread line answers a request if and only if, without the CRs at its end, it is not empty, fits the limit with them and its LF, and parses as a response with the id and version 2.0 (also 461-489) |
| ScopeEncoding.UniquelyDecodable | openlife-core/src/llm.rs:932-935 | part lists with parts shorter than 2^64 have the same encoding if and only if they are the same |
| ScopeEncoding.EncodeParse | openlife-core/src/llm.rs:932-935 | whatever parses is the encoding of what it parses to |
| ScopeEncoding.PayloadFromParts | openlife-core/src/llm.rs:1052-1069 | payloads with the same parts are the same if and only if their lists have the same lengths |
| ScopeEncoding.CountsMatter | openlife-core/src/llm.rs:1052-1069 | three messages and two blocks can have the same parts |
| ScopeEncoding.HighByteFirst | openlife-core/src/llm.rs:932-935 | byte i of a length is its digit to base 256, high byte first |
| ScopeEncoding.PartsInOrder | openlife-core/src/llm.rs:1052-1069 | the parts of a payload by position: role and content of each message, then the three parts of each block, then the four of each image |
| ScopeEncoding.ScopeBuffer.AppendContent | openlife-core/src/llm.rs:1052-1069 | the three loops append the encoding of the content's parts |
| ScopeEncoding.ScopeBuffer.AppendScopePart | openlife-core/src/llm.rs:932-935 | appends eight length bytes and the part |
| ProviderCapability.ComputePayloadDigest | openlife-core/src/llm.rs:1044-1071 | the buffer that is digested is the encoding of label, subject, purpose and content |
| ProviderCapability.ChainLaw | openlife-core/src/llm.rs:619-855 | over any chain of restrict, authorise and bind the route never widens, identity, scope and envelope are never changed once set, and the route is open exactly if it was and no step restricted it |
| ProviderCapability.ChainStaysSound | openlife-core/src/llm.rs:858-929 | the errors for an incomplete scope and for an open route under a restriction or a fail-closed authority are unreachable |
| ProviderCapability.AuthorizationLasts | openlife-core/src/llm.rs:751-789 | a granted authorisation holds for its purpose and payload through every later chain |
| ProviderCapability.AcceptsOnlyItsPayload | openlife-core/src/llm.rs:791-823 | with a collision-free digest a payload is accepted if and only if no envelope is bound and its part list is the authorised one: the same payload if list lengths match |
| ProviderCapability.AuthorizesOnlyItsPayload | openlife-core/src/llm.rs:751-789 | authorising again is granted if and only if subject text, purpose and part list are the same, and changes nothing |
| ProviderCapability.BoundForGood | openlife-core/src/llm.rs:830-929 | a bound capability validates no payload, is never bound again, and passes no request with another envelope part list |
| ProviderCapability.AuthorizedExactly | openlife-core/src/llm.rs:751-786 | authorising is granted if and only if the subject allows the text and the scope is unset or the same, and sets purpose and digest alone |
| ProviderCapability.RequestExactly | openlife-core/src/llm.rs:862-929 | a request passes if and only if the capability is complete, the manifest names its decision, a probe goes where it was authorised to go, and the envelope is the one bound |
| ProviderCapability.IssuedRoute | openlife-core/src/llm.rs:470-626 | what was issued for sensitive text or fail-closed stays local for good; what was issued for other text is open exactly until a step restricts it |
| ProviderCapability.ProbeForGood | openlife-core/src/llm.rs:505-577 | a probe's capability is for its subject, purpose and payload through every chain, and no user text authorises another |
| ProviderCapability.DigestBindsScope | openlife-core/src/llm.rs:1044-1071 | with a collision-free digest two payload digests are the same if and only if subject, purpose and content parts are |
| ProviderCapability.EnvelopeFromParts | openlife-core/src/llm.rs:942-996 | envelopes with the same parts and list lengths are the same: no field is left out of the scope |
| EmbeddingCache.Cache.Get | openlife-core/src/embedding.rs:358-372 | map and order list, updated in place, are a lookup in one recency list |
| EmbeddingCache.Cache.Put | openlife-core/src/embedding.rs:374-396 | map and order list, updated in place, are a put into one recency list, never of more than max_size keys |
| EmbeddingCache.HitIsLatestPut | openlife-core/src/embedding.rs:358-396 | over every run a hit is the latest put of that key, within its time limit |
| EmbeddingCache.Survival | openlife-core/src/embedding.rs:341-397 | a key just used stays in the cache while fewer than max_size - 1 distinct other keys are put or hit |
| EmbeddingCache.SurvivorIsHit | openlife-core/src/embedding.rs:341-397 | a key just used is still a hit after any run that puts or hits fewer than max_size - 1 distinct other keys, until its time is up |
| EmbeddingCache.ReputEvictsAnother | openlife-core/src/embedding.rs:381-385 | putting a present key at capacity evicts another one |
| EmbeddingCache.PutIsFound | openlife-core/src/embedding.rs:374-396 | a put is found by every lookup of its key until its time is up, with the value that was put |
| EmbeddingCache.PutMoves | openlife-core/src/embedding.rs:374-396 | a put makes its key the latest; of the others only the oldest goes, and only from a full cache |
| EmbeddingCache.GetMoves | openlife-core/src/embedding.rs:358-372 | a hit makes its key the latest with its entry as it was, an entry whose time is up goes, and all others stay in order |
| OllamaProtocol.SandwichLaw | openlife-core/src/embedding.rs:811-952 | in every run, with requests interleaved and the server changing, each Ollama entry was produced between two equal observations that name the model and digest in its key, with a vector that passed every check; its profile names the provider and deployment asked for and what was observed; every entry is as long as its profile says |
| OllamaProtocol.HitLaw | openlife-core/src/embedding.rs:847-886 | a hit is the vector an earlier run completed for the same text and decision under the model and digest just observed |
| OllamaProtocol.CompletionLaw | openlife-core/src/embedding.rs:1124-1167 | a completed request sent one manifest request for a hit and the whole sandwich otherwise; its vector and its profile are those of a run for its own text and decision, under the artifact it named if any, bracketed by equal observations and checked, and that run is its own unless it was a hit |
| OllamaProtocol.AskedForGood | openlife-core/src/embedding.rs:811-952 | what a request is measured against is what it was started with, over every run |
| OllamaAnswers.ManifestIsAnswered | openlife-core/src/embedding.rs:811-886 | the first manifest fails the request, or answers it from the cache if and only if there is an entry under its key in its time, or sends it on; the test for reuse never turns such an entry down |
| OllamaAnswers.EmbeddingIsAnswered | openlife-core/src/embedding.rs:887-911 | without a vector the request fails, with one it asks for the manifest again |
| OllamaAnswers.RecheckIsAnswered | openlife-core/src/embedding.rs:912-952 | the request completes if and only if the artifact is the same and the vector acceptable; the profile it is answered with and cached under names its own provider and deployment, the model and digest observed and the vector's size |
| OllamaAnswers.CompletedIsFoundAgain | openlife-core/src/embedding.rs:858-886 | while the entry of a completed run is in the cache and in its time, the same request under the same artifact is answered with it, however requests interleave |
| OllamaProtocol.OllamaExecutor.ManifestArrived | openlife-core/src/embedding.rs:811-886 | the first manifest's arrival is the protocol's step: failure, mismatch, verified hit, or the embedding request |
| OllamaProtocol.OllamaExecutor.EmbeddingArrived | openlife-core/src/embedding.rs:887-911 | the vector's arrival is the protocol's step: failure, or the second manifest request |
| OllamaProtocol.OllamaExecutor.RecheckArrived | openlife-core/src/embedding.rs:912-952 | the second manifest's arrival is the protocol's step: a changed artifact fails the request, an equal one completes and caches |
| PrivacyEngine.MaskState.DesensitizeWithState | openlife-core/src/privacy.rs:508-546 | the in-place masking loop with shared counters and map is the model's fold over findings |
| PrivacyEngine.DesensitizeBatch | openlife-core/src/privacy.rs:498-506 | a batch hands counters and map from message to message; a disabled policy leaves all as it is |
| PrivacyEngine.Reconstruct | openlife-core/src/privacy.rs:588-598 | the key-by-key loop is the model's successive replacement |
| PrivacyPlaceholders.EveryFindingHasItsEntry | openlife-core/src/privacy.rs:520-540 | placeholders are unique across the whole batch: one entry for each masked finding |
| PrivacyRules.FirstRuleDecides | openlife-core/src/privacy.rs:387-409 | the first rule that is enabled and for the type decides; without one an enabled policy masks, and a disabled one lets everything through |
| PrivacyRules.EntriesExactly | openlife-core/src/privacy.rs:498-546 | the map of a batch holds exactly the findings of the types whose deciding rule masks, each under its type's placeholder with its number among them |
| PrivacyRules.NoEntryUnlessMasked | openlife-core/src/privacy.rs:524-531 | a finding whose deciding rule blocks it or lets it through has no entry |
| PrivacyRules.FindingIsReplaced | openlife-core/src/privacy.rs:524-541 | a finding is replaced where it first occurs, by the placeholder of its action with the type's next number |
| PrivacyRules.IdIsBlocked | openlife-core/src/privacy.rs:311-368 | under the default policy an id leaves a blocked placeholder and no entry |
| PrivacyMarks.OrderLaw | openlife-core/src/privacy.rs:588-598 | an order of the keys undoes a masking if and only if every placeholder has its turn after all that were put across it |
| PrivacyRoundTrip.AnyOrder | openlife-core/src/privacy.rs:498-598 | a message of a batch comes back for every order of the keys if and only if every `<` of its masked text opens a whole placeholder of the map |
| PrivacyRoundTrip.LongestFirstOrder | openlife-core/src/privacy.rs:588-598 | it comes back for every order of the length sort if and only if nothing is blocked and every placeholder is shorter than those put across it |
| PrivacyFindings.ComesBackExactly | openlife-core/src/privacy.rs:508-598 | it comes back for every order if and only if no finding is found from inside an earlier placeholder and no blocked one is found |
| PrivacyLengthSort.SortComesBackExactly | openlife-core/src/privacy.rs:508-598 | it comes back for every order of the length sort if and only if no blocked finding is found and every finding found from inside the stretch of an earlier placeholder gets a longer placeholder |
| PrivacyFindings.RoundTrip | openlife-core/src/privacy.rs:498-598 | masking then reconstructing is the identity, whatever the order and however findings overlap or repeat, when no text contains `<`, nothing is blocked, and no masked finding contains `>` or is part of a placeholder of the batch |
| PrivacyFindings.ForeignIsSafe | openlife-core/src/privacy.rs:411-421 | a finding with a character that no placeholder has, as emails, addresses, names and spaced card numbers have, is part of none |
| PrivacyFindings.NumberIsSafe | openlife-core/src/privacy.rs:411-421 | an all-digit number with more digits than the counters of the batch reach, as phone and card numbers have, is part of no placeholder |
| PrivacyFindings.DigitRunIsSafe | openlife-core/src/privacy.rs:411-421 | so is any finding without `>` that contains such a run of digits, as ids that end in `X` do |
| PrivacyFindings.StraddlingFinding | openlife-core/src/privacy.rs:508-598 | a message with two findings of the same length, longest first, part of no placeholder of the batch, that an order of the length sort does not give back |
| PdfLayout.PdfWrapText | openlife-core/src/artifact_render.rs:383-405 | the wrap loop over lines and characters is greedy wrapping |
| PdfLayout.GreedyLaw | openlife-core/src/artifact_render.rs:383-405 | untrimmed pieces concatenate back to the line, none is empty, none is wider than a limit of at least 2 |
| PdfLayout.GreedyIsOptimal | openlife-core/src/artifact_render.rs:383-405 | greedy wrapping uses the fewest pieces of any cut within the width |
| PdfLayout.LinesAreSplit | openlife-core/src/artifact_render.rs:385-387 | splitting gives back the lines that were joined with LF or CR LF, and an unterminated last line unless it is empty |
| PdfLayout.WrappedLine | openlife-core/src/artifact_render.rs:388-402 | a line is shown as its pieces without the white space at their ends |
| PdfLayout.WrapWithin | openlife-core/src/artifact_render.rs:383-405 | no wrapped and trimmed line is wider than the limit |
| PdfLayout.PushPdfText | openlife-core/src/artifact_render.rs:363-381 | adds the wrapped lines below, on a new page whenever less than 24 mm are left |
| PdfLayout.LayoutLaw | openlife-core/src/artifact_render.rs:251-297 | for a valid draft no line is lost or reordered, every y is within 24 and 272 mm with gaps of at least the line height, no page is empty, a page is left only when it is full |
| PdfFlow.LayoutExactly | openlife-core/src/artifact_render.rs:251-297 | for a valid draft every line, with the height of its kind, stands under the one before it by that one's height and the gap between them, and on a new page if and only if it would come lower than 24 mm, or a heading lower than 40 mm |
| PdfLayout.LayOut | openlife-core/src/artifact_render.rs:251-297 | the layout loop computes that layout |
| ArtifactEncoders.EscapeIsMap | openlife-core/src/artifact_render.rs:641-648 | the five successive replacements are one per-character map |
| ArtifactEncoders.EscapeRoundTrip | openlife-core/src/artifact_render.rs:641-648 | decoding the predefined entities (section 4.6 of XML 1.0) gives the input back |
| ArtifactEncoders.EscapeHasNoMarkup | openlife-core/src/artifact_render.rs:641-648 | no bare markup character is left |
| ArtifactEncoders.SpreadsheetColumnName | openlife-core/src/artifact_render.rs:749-757 | the loop produces letters whose bijective base-26 value is the column |
| ArtifactEncoders.NamesAreUnique | openlife-core/src/artifact_render.rs:749-757 | a value has one name only, so columns never share a name |
| JsonPointer.ParentTokens | openlife-core/src/life_model.rs:1181-1199 | the parent pointer addresses the pointer's tokens without the last |
| JsonPointer.PointerReadsBack | openlife-core/src/life_model.rs:765-769 | the pointer written for any tokens reads back as these tokens (section 3 of RFC 6901) |
| JsonPointer.IndexReadsBack | openlife-core/src/life_model.rs:765-769 | a token names a 64-bit index if and only if it is its decimal form |
| LifePatch.PerformEdit | openlife-core/src/life_model.rs:755-952 | the edit, with all its error branches, is one without branches for a missing parent, a parent that is no container, a bad index or an index out of bounds: these are unreachable |
| LifePatch.ReplaceReadsBack | openlife-core/src/life_model.rs:783-820 | Replace reads back if and only if the last segment unescapes to itself or the value was already there |
| LifePatch.EscapeFreeReplace | openlife-core/src/life_model.rs:783-820 | for a pointer without escapes Replace always reads back |
| LifePatch.ElsewhereUnchanged | openlife-core/src/life_model.rs:783-820 | every path that parts from the written one keeps its value |
| LifePatch.AppendLaw | openlife-core/src/life_model.rs:846-868 | Append adds one element to the array that holds the path; every resolved path outside and inside it keeps its value |
| LifePatch.MergeLaw | openlife-core/src/life_model.rs:821-845 | the new fields, and the old ones they do not name |
| LifePatch.InsertThenDelete | openlife-core/src/life_model.rs:869-951 | Insert and then Delete at the same path is the identity |
| LifePatch.DeleteThenInsert | openlife-core/src/life_model.rs:869-951 | Delete and then Insert gives the document back if and only if the element was not the last |
| LifePatch.InsertShifts | openlife-core/src/life_model.rs:869-908 | Insert: the new value is at the index, every path through that index or a later one is found one index later, paths in front stay |
| LifePatch.DeleteShifts | openlife-core/src/life_model.rs:909-951 | Delete: every path through a later index is found one index earlier, paths in front stay |
| LifePatch.OutsideTheArray | openlife-core/src/life_model.rs:869-951 | both leave every path alone that does not run into the array |
| LifePatch.DeleteFromObject | openlife-core/src/life_model.rs:909-951 | the path is gone if and only if its last segment unescapes to itself |
| LifeAnswers.StaleIsRefused | openlife-core/src/life_model.rs:766-779 | a path that does not resolve, or whose value is not the expected one, is refused before anything is edited |
| LifeAnswers.CurrentIsEdited | openlife-core/src/life_model.rs:781-952 | what each operation asks of the value at the path, of the one that holds it and of the last segment, and its error otherwise |
| LifeAnswers.RootIsEdited | openlife-core/src/life_model.rs:781-952 | the same for a pointer of one segment or none |
| LifeAnswers.MergeElsewhere | openlife-core/src/life_model.rs:821-845 | Merge leaves every path alone that parts from its own |
| LifeModel.LifeModel.ApplyPatch | openlife-core/src/life_model.rs:755-991 | the in-place patch is that function |
| LifeModel.LifeModel.ApplyPatches | openlife-core/src/life_model.rs:993-1119 | rolled back, with the original model and the reports up to the first fatal failure, exactly if one is reached; otherwise the model is the fold of exactly the applied patches, and applied and skipped ids are exactly these |
| LifeModel.BatchLaw | openlife-core/src/life_model.rs:993-1119 | the applied patches each succeed in turn, a valid model stays valid, Atomic keeps a batch exactly if all of it was applied, Partial never rolls back |
| LifeModel.NonePassesUnnoticed | openlife-core/src/life_model.rs:1028-1098 | every chosen patch is applied or passed over, once each |
| LifeModel.RejectedAreReported | openlife-core/src/life_model.rs:1100-1105 | every rejected id ends up among the reported ones, and no other id is added |
| LifeAnswers.StalePatchIsRejected | openlife-core/src/life_model.rs:771-779 | a patch written for another value than the model has is rejected with the value that is there, and the model stays |
| LifeAnswers.ChosenExactly | openlife-core/src/life_model.rs:1022-1026 | the patches tried are those accepted and not rejected, all of them, in order |
| LifeAnswers.AppliedExactly | openlife-core/src/life_model.rs:1028-1098 | applied are exactly the patches that succeed on what the ones before them have left, passed over exactly the others |
| LifeAnswers.RollbackExactly | openlife-core/src/life_model.rs:1028-1098 | a batch is taken back if and only if a patch fails in its turn and the mode is Atomic, or Adaptive and the patch critical |

## Left out

- SQLite, migrations, locking and timestamps: each transaction is one atomic update that applies or does nothing.
- Shape validation of ids, labels and lengths in the conversation store, list queries, and the two validation-state updates: one-branch checks and reads.
- 64-bit limits of sequence numbers and revisions in the conversation store: rows are counted with unbounded numbers.
- The registry's generation counter, its cached tool list and the dispatch binding's text: derived data that no guarantee above depends on.
- HTTP, DNS, TLS, subprocesses and idle times: chunks, read results and cancellation points are arbitrary instead.
- UTF-8, JSON text, regular expressions and SHA-256: arbitrary functions, with collision-freedom assumed where stated.
- The privacy detectors and the sort of findings: findings are arbitrary, in any order; keys are put back in any order.
- OllamaProtocol.HitLaw: a cache key is a record here, where the code joins its fields with `|`; that the joined text decides the fields is taken for granted.
- McpLiveRegistry.LiveRegistry.RegisterBuiltin: each method stands for one change of one registry; runs with snapshots and other threads are those of `McpRegistry`.
- Fonts, glyph lookup, colours and x positions of the page: constants beside the layout; lengths are whole half millimetres, exact in 32-bit floating point at these sizes.
- The upper bounds on sizes and counts of a document draft: they only reject drafts.
- ProviderCapability.ChainLaw: the text forms of subjects and purposes are arbitrary byte strings, as formatting them is not modelled.
- ProviderCapability.BoundForGood: stated on part lists, since the envelope's encoding carries no counts either.
- LifeModel.LifeModel.ApplyPatches: conflict detection and resolution are any choice of accepted and rejected ids, and conflicts pending review are not returned.
- LifeModel.OnePatch: the serializer, deserializer and validation rules are arbitrary functions.
- Number formats of JSON: a number is an integer here, as the patch engine only compares and copies numbers.
- Config, skills, feedback, tool tables, advisory scripts, completion scores and the frontend: input and output, or one-branch members.
