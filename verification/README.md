# Protocol proofs for the Shutu agent runtime

This Dafny project models the concurrent and crash-recovery protocols of the agent runtime,
and its few real algorithms, and proves what they promise.

Code that updates fields or loops over a buffer is modelled as a class or a method with a
loop, and proved equal to a function on values.  A protocol that several goroutines run is a
state machine over those functions: a `Step` is one section under a lock, one append, or one
call made outside the locks; `Run` executes any sequence of steps, a step that is not enabled
does nothing, and the theorems hold of every sequence.  Cancellation, failing appends and
crashes are steps or nondeterministic results.  Names ending in `ExactlyWhen` state a
condition in both directions; where the code misses a property that its documentation
suggests, a lemma gives the exact condition and another a concrete input.

| file | subject |
|---|---|
| `ScopeTree`, `ScopeInterleaving` | closing a tree of scopes: the heap, and any interleaving of its locks |
| `ProviderLeases` | reference-counted provider registries that are closed after their last lease |
| `AcpSessions`, `AcpPermissions`, `AdmissionChain` | the ACP server: session ownership, permission replies, admission order |
| `SdkStatus`, `SdkEvents` | tickets that order status notifications among the forwarded events of their session |
| `TeamDispatch`, `TeamMailbox`, `TeamPendingOrder` | ordered, coalesced delivery; the outbox over two logs; the order of a redelivery pass |
| `ClosedPrefix`, `BoundedWalk`, `LineageRoot` | the closed-turn prefix of a log; the bounded walk to a root session |
| `WakeRecovery`, `JobWakes`, `TextTrim` | replay of completion wakes against receipts; the wake budget; trimming |
| `SurfaceEstimator` | in-place interval merge and binary search against the naive scan |
| `McpResync` | all-or-nothing replacement of a server's tools in the registry |
| `PlanMode` | a volatile switch and a log fold that must mean the same |
| `SchemaTypes`, `TypeCoverage`, `SchemaGaps`, `TypeText`, `TypeKeys` | JSON Schema to TypeScript: meaning, which types admit everything, what is lost, text, property names |
| `ShellQuoting`, `ShellFraming`, `TerminalClaims` | quoting a command for two shells; cutting its output off the screen; releasing stale terminals |

What the proofs found, beyond confirming the design:

- Closing an inner scope concurrently lets the outer `Close` return before everything below it is closed.
- A dispatch call cancelled while it waits lets two deliveries to one target overlap.
- Pending messages are redelivered by the text of their number, so the tenth overtakes the second.
- A finished job or ended subagent whose id ends in a space is woken for again by every recovery pass.
- A plan command that ends between the reading and the writing of a turn boundary is lost if it asked for the other mode.
- A plan command that queues its switch and then fails takes effect in the running process and is lost in a crash.
- A failing start-up publication forgets names its server already had, and leaves the whitelist extended.
- A union of `true` with other schemas loses the `true`; two escapes of property names are not TypeScript's, so that a schema that requires a property with such a name is described as requiring another.
- The translation reads `items` and `additionalProperties` without `prefixItems` and `patternProperties`, which take places away from them: a string in front of numbers is described as an array of numbers.
- A PowerShell command with typographic quotes does not survive its quoting.
- The marks around a shell command's output are found without their nonce: a command that prints a start mark or an end mark loses output.
- A terminal whose log begins with a stop is never released.
- A permission request that registers after the teardown is never answered; only its own context ends its wait.
- Every wake that is admitted before a budget reset and still under way can open one turn more than the limit.
- A status queued behind another one can be overtaken by the event after its own, and a status that is reserved and not armed holds back the events of every session.
- A team name with a space after its colon gives a root that is not its own root, with recorded lineage or without.

## Model

| member | source | states |
|---|---|---|
| ScopeTree.RegisteredRuns | internal/agent/scope.go:107-136 | every disposer registered in an open scope of the subtree runs, at a position of its own |
| ScopeTree.RanWasRegistered | internal/agent/scope.go:107-136 | nothing else runs: every position of the disposal belongs to a registration |
| ScopeTree.DisposalOrder | internal/agent/scope.go:107-136 | descendants' disposers before a scope's own, children in creation order, and within a scope last registered first |
| ScopeTree.RunsBeforeIsTotal | internal/agent/scope.go:107-136 | that order decides between any two registrations, so each runs exactly once |
| ScopeTree.FirstFailureIsFirst | internal/agent/scope.go:118-135 | the returned error belongs to the earliest failing disposer, and there is none exactly if nothing failed |
| ScopeTree.Scope.constructor | internal/agent/scope.go:29-41 | a child of an open parent is listed last; below a closed parent it is born closed and unlisted; the forest stays sound |
| ScopeTree.Scope.Provide | internal/agent/scope.go:46-62 | one value per key: refused on an empty key, a closed scope or a key already provided, and then nothing changes |
| ScopeTree.Scope.Resolve | internal/agent/scope.go:66-85 | the value of the nearest enclosing scope that provides the key; absent exactly if no enclosing scope does; an error exactly on a closed scope |
| ScopeTree.Scope.AddCleanup | internal/agent/scope.go:89-101 | refused exactly on a closed scope; otherwise the disposer is last registered, hence first of its scope to run |
| ScopeTree.Scope.Close | internal/agent/scope.go:107-136 | the object graph is disposed as its tree value says, once; the whole subtree is closed and empty afterwards; the first error is returned |
| ScopeTree.CloseKids | internal/agent/scope.go:119-127 | the children loop runs the disposals of all child trees, each over its own part of the heap |
| ScopeTree.RunReversed | internal/agent/scope.go:128-134 | the disposer loop runs all, last registered first, and keeps the first error |
| ScopeTree.CloseKeepsForest | internal/agent/scope.go:107-136 | a close leaves child lists and parent links of the whole forest in agreement |
| ScopeInterleaving.RunKeepsInv | internal/agent/scope.go:29-41 | in every interleaving an open scope is listed by an open parent or about to be closed by a closing one, and no scope is disposed twice |
| ScopeInterleaving.ClosedMeansAllBelowClosed | internal/agent/scope.go:107-136 | everything below a closed scope is closed exactly if no activation at or below it still has an open child to close |
| ScopeInterleaving.QuietRunDisposedOnce | internal/agent/scope.go:107-136 | with no close in progress, exactly the scopes closed by a close were disposed, once each, and nothing below a closed scope is open |
| ScopeInterleaving.CalledClosesReturnFirst | internal/agent/scope.go:118-134 | in every interleaving a close runs its disposers only when every close it called has returned and no child of its own is left to close |
| ScopeInterleaving.ClosedScopeListsNothing | internal/agent/scope.go:29-41 | a closed scope lists no child, and one created below it is born closed and stays unlisted |
| ScopeInterleaving.OverlappingCloseReturnsEarly | internal/agent/scope.go:107-136 | a concrete run in which the close of the root has returned while a scope below is still open |
| ProviderLeases.ProviderGeneration.Acquire | cmd/sta/llm.go:53-64 | a lease is taken exactly if the generation is neither retired nor closed |
| ProviderLeases.ProviderGeneration.Release | cmd/sta/llm.go:66-83 | one lease fewer; the registry is handed out for closing exactly when this was the last one of a retired, unclosed generation |
| ProviderLeases.ProviderGeneration.Retire | cmd/sta/llm.go:85-102 | the generation takes no more leases, and is handed out for closing exactly if it has none |
| ProviderLeases.LeasedReader.Next | cmd/sta/llm.go:168-179 | a stream gives its lease back at its first failure or finish, and never again |
| ProviderLeases.ClosedAtMostOnce | cmd/sta/llm.go:317-322 | over any interleaving of publications, pins, streams and shutdown, each registry is closed, or due to be closed, at most once |
| ProviderLeases.RefsCountLeases | cmd/sta/llm.go:45-102 | the reference count is the number of leases out |
| ProviderLeases.LeasedIsOpen | cmd/sta/llm.go:590-633 | while a lease is out its registry is neither closed nor due to be closed |
| ProviderLeases.QuietRunClosed | cmd/sta/llm.go:461-471 | with no section unfinished, a registry is closed exactly if its assembly failed, or it was superseded or shut down and its last lease is back |
| ProviderLeases.PinningSucceeds | cmd/sta/llm.go:590-633 | before shutdown, pinning the published generation always succeeds |
| ProviderLeases.ShutdownRetiresTheLive | cmd/sta/llm.go:573-586 | the generation that is live when a shutdown comes takes no more leases once no section is unfinished, and is closed then exactly if none is out |
| ProviderLeases.OneGenerationIsClosed | cmd/sta/llm.go:53-102 | a concrete run: leased, superseded, and closed when the lease ends |
| AcpSessions.Server.AdmitNew | internal/acp/server.go:374-399 | a new session is registered exactly if the server is open and its id is free; the id is the session's own, or "shutu-" with the next number, which is used up; nothing else changes |
| AcpSessions.Server.ReplaceSession | internal/acp/server.go:625-642 | exactly on an open server and an id without a prompt the id gets the new object, and the one it had is handed to the caller; busy means that a prompt is in the way; a refusal changes nothing |
| AcpSessions.Server.BeginPrompt | internal/acp/server.go:795-812 | a prompt starts exactly on an open session whose slot is free, and takes the slot |
| AcpSessions.Server.EndPrompt | internal/acp/server.go:814-818 | the slot is free again, nothing else changes |
| AcpSessions.Server.TakeSessions | internal/acp/server.go:820-835 | teardown takes the whole table, and no session can be admitted afterwards |
| AcpSessions.EverySessionClosedOnce | internal/acp/server.go:287-305 | when Run returns, every session the factory made has been closed exactly once |
| AcpSessions.NoSessionClosedTwice | internal/acp/server.go:428-445 | at no time is a session closed twice, or closed while a handler or the table still answers for it |
| AcpSessions.PromptKeepsItsSession | internal/acp/server.go:795-818 | while a prompt runs, the table maps its id to the object it began with, that object is not closed, and no other prompt runs under the id |
| AcpSessions.BusyMeansPrompting | internal/acp/server.go:795-812 | an open session's prompt slot is free exactly if no prompt of that id is running |
| AcpSessions.ServerNamesAreDistinct | internal/acp/server.go:887 | different numbers give different ids |
| AcpSessions.NewSessionIsOpenedExactlyWhen | internal/acp/server.go:374-399 | at any point of any run, a new session is open under its id afterwards exactly if the server is open and the id free, and otherwise its handler has to close it |
| AcpSessions.ResumedSessionIsOpenedExactlyWhen | internal/acp/server.go:428-445 | and a resumed one exactly if the server is open and no handler prompts the id |
| AcpSessions.OneSessionIsServed | internal/acp/server.go:253-305 | a concrete run from registration over a prompt to the close at the end |
| AdmissionChain.LinkFrames | internal/acp/server.go:253-287 | the reader loop gives every frame the last lifecycle request before it to wait for, and these are the links of every run of the state machine over the same frames |
| AdmissionChain.FrameIsTakenUp | internal/acp/server.go:253-287 | at any point of any run one more frame is read and linked to the last barrier before it |
| AdmissionChain.BarrierHolds | internal/acp/server.go:308-315 | when a handler body starts, every lifecycle request read before it has finished, by induction along the chain |
| AdmissionChain.OrderedHandlers | cmd/sta/sdk.go:124-171 | in the SDK loop the k-th body to start is frame k, and all earlier bodies have finished |
| AdmissionChain.EveryHandlerCanFinish | internal/acp/server.go:272-287 | no handler waits for ever: every run can be continued until all frames read so far have finished |
| AcpPermissions.PermissionTable.Register | internal/acp/server.go:671-690 | each request gets the next number and waits under it |
| AcpPermissions.PermissionTable.Claim | internal/acp/server.go:731-752 | a reply claims its waiter exactly if one is registered, and removes it |
| AcpPermissions.PermissionTable.ClaimAll | internal/acp/server.go:718-729 | teardown claims every registered waiter |
| AcpPermissions.AtMostOneSend | internal/acp/server.go:671-767 | over all interleavings each waiter's channel receives at most one value, so the one-slot send never blocks |
| AcpPermissions.AnswerIsTheAcceptedReply | internal/acp/server.go:691-711 | what a waiter returns is the reply accepted for its own id |
| AcpPermissions.MatchedReplyArrives | internal/acp/server.go:691-767 | a reply to a registered waiter can be sent and received, and is what the waiter returns |
| AcpPermissions.SettledReplyIsUnmatched | internal/acp/server.go:731-767 | a reply to an unknown or settled id is reported unmatched and changes nothing |
| AcpPermissions.IdsAreNeverReused | internal/acp/server.go:671-690 | a request id was never used before, by waiter, reply or send |
| AcpPermissions.AnsweredAfterTeardownExactlyWhen | internal/acp/server.go:671-729 | with no send left, a waiter that still waits has its answer in its channel exactly if it is not in the table, and after a teardown exactly if it registered before that |
| AcpPermissions.TeardownFailsWhoWaits | internal/acp/server.go:718-729 | whoever is in the table when the teardown comes gets an error, if anything, whatever happens later |
| AcpPermissions.LateRequestIsNeverAnswered | internal/acp/server.go:287-305 | in every run, a request registered after the teardown is not answered, no reply can reach it, and its waiter can still give up |
| AcpPermissions.RequestAfterTeardown | internal/acp/server.go:671-729 | a concrete run with such a request |
| SdkStatus.StatusQueues.Reserve | cmd/sta/sdk.go:203-213 | a new ticket is queued last in its session |
| SdkStatus.StatusQueues.Cancel | cmd/sta/sdk.go:227-255 | the ticket leaves its queue, others keep their order; a ticket not queued any more changes nothing |
| SdkStatus.StatusQueues.FlushReady | cmd/sta/sdk.go:284-310 | in every session exactly the ready tickets at the head of the queue are written, in order |
| SdkStatus.StatusQueues.Advance | cmd/sta/sdk.go:329-346 | the forwarded number of a session only grows |
| SdkStatus.WrittenInReservationOrder | cmd/sta/sdk.go:203-310 | written and queued tickets together are the uncancelled reservations in reservation order, each once |
| SdkStatus.WrittenWhenForwarded | cmd/sta/sdk.go:284-346 | a written status was armed, its event had been forwarded, and it was never cancelled |
| SdkStatus.NoReadyStatusIsLeft | cmd/sta/sdk.go:278-346 | once every arm, cancel and advance has completed, no session's head ticket is ready |
| SdkEvents.EveryRunCanRest | cmd/sta/sdk.go:215-310 | every run can be completed by its outstanding sections, so that the lemma before applies |
| SdkEvents.StatusFollowsItsEvent | cmd/sta/sdk.go:284-346 | a written status comes after an event with at least its number; with events in order, after the very event it was armed with |
| SdkEvents.OnTimeExactlyWhen | cmd/sta/sdk.go:257-276 | once event s is past the wait, a queued status that is or will be armed with it is certain to be written, or cancelled, before the next event of the session exactly if it and all before it in the queue are already armed, for an event no later than s or one already forwarded |
| SdkEvents.SecondStatusCanBeLate | cmd/sta/sdk.go:257-276 | a concrete run from which the second of two queued statuses is overtaken by the event after its own |
| SdkEvents.UnarmedStatusHoldsBackAllEvents | cmd/sta/sdk.go:709-720 | while the first status of a session is unarmed and its event is next, no event of any session is written, whatever else happens |
| TeamDispatch.DispatchTable.Admit | cmd/sta/team.go:929-957 | a call joins the delivery of its dispatch id in flight, or leads a new one behind the tail of its target |
| TeamDispatch.DispatchTable.Finish | cmd/sta/team.go:973-986 | a leader removes exactly the entries that are still its own |
| TeamDispatch.OneDeliveryPerMessage | cmd/sta/team.go:929-971 | at most one delivery per dispatch id is in flight, cancellations included |
| TeamDispatch.FollowersShareTheResult | cmd/sta/team.go:935-946 | a coalesced caller that was not cancelled returns its leader's result |
| TeamDispatch.QuietMapsAreEmpty | cmd/sta/team.go:973-986 | when all calls have returned both maps are empty |
| TeamDispatch.CalmRunsAreExclusive | cmd/sta/team.go:929-971 | without a cancelled wait, bodies of one target run one at a time in admission order |
| TeamDispatch.ExclusiveUnlessEarlyCancel | cmd/sta/team.go:960-967 | after a calm run, a step makes overlapping bodies possible exactly if it cancels a wait whose predecessor has not ended |
| TeamDispatch.EarlyCancelLetsBodiesOverlap | cmd/sta/team.go:963-965 | for every such cancellation, a continuation with two bodies of one target running |
| TeamMailbox.DeliveredImpliesReceipt | cmd/sta/team.go:1065-1078 | over every run with failures and crashes, a delivered event stands in the lead's log only, and its target's log holds the receipt |
| TeamMailbox.AtMostOnce | cmd/sta/team.go:1165-1219 | a message has at most one receipt, in one log, and at most one delivered event, for one target |
| TeamMailbox.AckImpliesDelivered | cmd/sta/team.go:1229-1258 | a message acknowledged on the board has its delivered event in the lead's log |
| TeamMailbox.ConfirmationFindsTheEvent | cmd/sta/team.go:988-1063 | whoever looks for the delivered event after a dispatch that returned "delivered" finds it: nobody ever gets to append it again |
| TeamMailbox.DeliveryCanSucceed | cmd/sta/team.go:988-1063 | from any point of any run, a delivery of a message with no dispatch in flight that meets no further failure ends with one receipt, one delivered event and the message acknowledged |
| TeamMailbox.FailedDeliveryCanBeRepeated | cmd/sta/team.go:1065-1078 | so after a dispatch that failed at whatever step |
| TeamMailbox.PendingSurvivesCrash | cmd/sta/team.go:1229-1258 | and after a crash, for every message that the rebuilt board shows as pending |
| TeamMailbox.NewMessageCanBeDelivered | cmd/sta/team.go:988-1063 | and for a new message, which stands in no log until then |
| TeamMailbox.TeamSession.DispatchNow | cmd/sta/team.go:991-1063 | receipt before acknowledgement; each is appended only if missing; delivered means both are there; without failures a live target gets both |
| TeamMailbox.TeamSession.RedeliverOne | cmd/sta/team.go:1233-1254 | one delivery appends exactly what is missing of the message's two entries, the receipt first, and acknowledges the message only with both there |
| TeamMailbox.TeamSession.RedeliverPending | cmd/sta/team.go:1229-1258 | a pass appends only entries that were missing of messages pending for roster members, each once and no delivered event without its receipt, and acknowledges only messages with both; without failures over a live roster nothing is left pending for its members |
| TeamPendingOrder.RedeliveredInSendOrder | internal/team/board.go:1129-1140 | of two pending messages the earlier is redelivered first exactly if its number is at most the number formed by equally many leading digits of the later |
| TeamPendingOrder.LessIsTotal | internal/team/board.go:1129-1140 | the order on ids decides between any two different ones |
| TeamPendingOrder.TenOvertakesTwo | internal/team/board.go:1129-1140 | the tenth message is redelivered before the second |
| ClosedPrefix.ClosedSessionPrefix | cmd/sta/team.go:638-674 | the scanning loop computes the prefix that the lemmas below are about |
| ClosedPrefix.PhaseExactlyWhen | cmd/sta/team.go:638-662 | the automaton is in a turn, or in a step, exactly if one has begun and not ended since, ends of turns inside a step not counting |
| ClosedPrefix.ClosesExactlyWhen | cmd/sta/team.go:656-662 | an event closes the log exactly if it ends an open turn outside a step |
| ClosedPrefix.PrefixIsTheLongestClosed | cmd/sta/team.go:636-674 | the whole log without lifecycle events; else empty or ending at a turn end with the automaton idle, and no longer prefix ends so |
| ClosedPrefix.PrefixIsIdempotent | cmd/sta/team.go:638-674 | the closed prefix of a closed prefix is itself |
| ClosedPrefix.PrefixGrowsExactlyWhen | cmd/sta/team.go:638-674 | more events keep the prefix a prefix, except when a log without lifecycle events gets its first ones and none closes a turn |
| BoundedWalk.WalkStaysExactlyWhen | cmd/sta/team.go:1308-1327 | walking from an id returns it exactly if it comes back to itself within 64 steps |
| BoundedWalk.SmallLineageIsIdempotent | cmd/sta/team.go:1290-1328 | with fewer than 64 reachable ids, cyclic or not, the walk ends on the cycle at the first repeated id and walking again stays |
| BoundedWalk.WalkArrivesExactlyAt | cmd/sta/team.go:1308-1327 | with fewer than 64 reachable ids the walk ends at an id exactly if that is the first on the way that lies on a cycle |
| LineageRoot.WalkUp | cmd/sta/team.go:1308-1328 | the loop terminates, after at most 64 ids, with the walk's result: a root, the first repeated id, or the id after 64 |
| LineageRoot.RootSession | cmd/sta/team.go:1295-1328 | the lookup, with recorded lineage or without, returns the root that the next lemmas are about |
| TextTrim.TrimIsTheMiddle | cmd/sta/team.go:1296 | trimming cuts off all white space on both sides and nothing else |
| TextTrim.TrimIsBlankExactlyWhen | cmd/sta/agent_runtime.go:132 | an id counts as blank exactly if all its characters are white space |
| LineageRoot.LegacyParentExactlyWhen | cmd/sta/team.go:1332-1342 | the parent told by a name is the non-empty text between its prefix and the next colon |
| LineageRoot.LineageIsFollowed | cmd/sta/team.go:1308-1328 | along a chain of at most 64 different ids, each the recorded parent of the one before or the one its name tells, the lookup comes to the last one if that has no parent |
| LineageRoot.LongLineageIsCutOff | cmd/sta/team.go:1308-1328 | of a longer chain it comes to the id behind the first 64 |
| LineageRoot.RootIsIdempotent | cmd/sta/team.go:1290-1342 | with fewer than 64 ids reachable, whose name-told parents have no outer space, the root of the root is the root |
| LineageRoot.TrimmedRootStaysExactlyWhen | cmd/sta/team.go:1295-1328 | at any length of lineage, an id without outer space is its own root exactly if it is blank or comes back to itself within 64 steps |
| LineageRoot.RootStaysExactlyWhen | cmd/sta/team.go:1295-1328 | any id is its own root exactly if it is blank or the first id on a cycle on the way from its trimmed form |
| LineageRoot.SpacedRootStaysExactlyWhen | cmd/sta/team.go:1295-1328 | a parentless id with outer space is its own root exactly if the way from its trimmed form leads to it |
| LineageRoot.RootByNameIsIdempotentExactlyWhen | cmd/sta/team.go:1296-1306 | without recorded lineage the root of the root is the root exactly if the name tells no parent or one without outer space |
| LineageRoot.LegacyParentIsARoot | cmd/sta/team.go:1332-1342 | the parent told by a generated name tells no further parent |
| LineageRoot.SpacedNameMoves | cmd/sta/team.go:1332-1342 | a name with a space after the colon has a root whose own root differs |
| WakeRecovery.SessionInbox.Put | internal/agent/inbox.go:94-118 | a message is journalled and queued, or fails without a trace; one with the same trimmed key still waiting makes it a no-op |
| WakeRecovery.SessionInbox.ReadReceipts | cmd/sta/agent_runtime.go:104-122 | a pass reads back the trimmed keys of all splices, and fails exactly if one does not decode |
| WakeRecovery.SessionInbox.Recover | cmd/sta/agent_runtime.go:98-149 | a pass appends one splice for each of a set of facts without receipt or waiting message, no two alike; it succeeds exactly if all was readable and no append failed, and then no fact is left out |
| WakeRecovery.RecordedExactlyWhen | cmd/sta/agent_runtime.go:104-122 | a key counts as recorded exactly if some splice in the log lists a key that trims to it |
| WakeRecovery.EndsPass | cmd/sta/agent_runtime.go:98-149 | a pass over ended subagents fails exactly over an append or an undecodable splice or end; it inserts only for ends in the log with a visible id and no receipt; and with success every such end has a receipt |
| WakeRecovery.ReportsPass | cmd/sta/agent_runtime.go:156-209 | the same for reports that name their message and child and have no parent or the owner as parent |
| WakeRecovery.JobsPass | cmd/sta/agent_runtime.go:216-284 | the same for finished jobs |
| WakeRecovery.EveryFactHasAReceipt | cmd/sta/agent_runtime.go:156-209 | after a pass that succeeds, every eligible end, report and finished job has a receipt |
| WakeRecovery.PassesReachEveryFact | cmd/sta/agent_runtime.go:98-284 | the same at any point of any history of facts, claims, crashes, failed and successful passes |
| WakeRecovery.InsertedAtMostOnce | cmd/sta/agent_runtime.go:98-284 | over any such history recovery inserts each key without outer space at most once |
| WakeRecovery.SecondPassIsIdle | cmd/sta/agent_runtime.go:216-284 | a second successful pass appends nothing exactly if every eligible key is its own trimmed form or still waits in the inbox |
| WakeRecovery.TrimOfKey | cmd/sta/agent_runtime.go:264-270 | such a key is changed by trimming exactly if the id in it ends in white space |
| WakeRecovery.SpacedJobIsNotRecognized | cmd/sta/agent_runtime.go:264-270 | a job id ending in a space gives such a key |
| WakeRecovery.SpacedJobIsDeliveredTwice | cmd/sta/agent_runtime.go:216-284 | a concrete history in which such a job is delivered, claimed and delivered again |
| JobWakes.WakeBudget.Reset | cmd/sta/jobs.go:230-240 | the owner's count is gone, the others stay |
| JobWakes.WakeBudget.Admit | cmd/sta/jobs.go:245-268 | a delivery may open a turn exactly if delivery is by wake-up, the owner is idle and fewer than its limit, or three by default, have been admitted, and spends one |
| JobWakes.WakesAreBounded | cmd/sta/jobs.go:230-268 | since its last reset an owner has had at most the limit of turns opened by wakes, plus those admitted before the reset and carried out after it |
| JobWakes.BoundIsReached | cmd/sta/jobs.go:230-268 | after every reset with f wakes under way, a continuation without a reset that opens exactly the limit plus f turns |
| JobWakes.FailedWakesSpendTheBudget | cmd/sta/jobs.go:252-265 | wakes whose turn fails to open are spent all the same |
| JobWakes.LimitIsExceededExactlyWhen | cmd/sta/jobs.go:230-268 | more turns than the limit can be opened between a reset and the next exactly if a wake was under way at the reset |
| JobWakes.CarriedWakeExceedsTheLimit | cmd/sta/jobs.go:252-265 | for every limit, a concrete run to such a reset |
| JobWakes.JobLog.EnsureDone | cmd/sta/jobs.go:184-195 | the terminal row is there afterwards, appended only if it was missing or the id is blank, or the log is unchanged |
| JobWakes.OneDoneRowPerJob | cmd/sta/jobs.go:181-228 | however often its completion is reported, a job gets one terminal row; a blank id one per report |
| SurfaceEstimator.MergeRanges | cmd/sta/compact.go:82-98 | merging in place, while the rest of the same array is still being read, gives the merge of the original ranges |
| SurfaceEstimator.MergedIsRight | cmd/sta/compact.go:82-98 | merged start-sorted ranges are sorted, pairwise not adjacent and cover the same numbers, with no overflow at an end's successor |
| SurfaceEstimator.SeparatedCoverIsUnique | cmd/sta/compact.go:82-98 | only one list of separated ranges covers given numbers, so the order of equal starts cannot matter |
| SurfaceEstimator.IsShadowed | cmd/sta/compact.go:100-103 | binary search finds a covering range exactly if there is one |
| SurfaceEstimator.Replacements | cmd/sta/compact.go:51-67 | the collected ranges cover exactly the numbers inside some valid replacement event, and their ends have successors |
| SurfaceEstimator.ShadowedExactlyWhen | cmd/sta/compact.go:51-67 | a number is covered exactly if a user message replaces a valid stretch that it lies in |
| SurfaceEstimator.TokensAreConserved | cmd/sta/compact.go:70-78 | the tokens of visible and of hidden events together are those of the log |
| SurfaceEstimator.Estimate | cmd/sta/compact.go:46-78 | the fast total is the sum over the events that no replacement covers, for every log |
| McpResync.Registry.RegisterWithInfo | internal/tools/tools.go:523-548 | a free name gets the tool under a fresh or given generation; a taken name or a bad schema changes nothing |
| McpResync.Registry.ReplaceWithInfo | internal/tools/tools.go:604-631 | replaced exactly if the holder is the same and the generation advances |
| McpResync.Registry.RestoreWithInfo | internal/tools/tools.go:635-655 | the earlier registration is back, at its lower generation, if the holder is the same |
| McpResync.NormalizedOrigin | internal/tools/tools.go:887-904 | a registration names its origin: what the caller said, or that of its plugin or owner, or the built-in one if nothing was said |
| McpResync.RegisteredIsFresh | internal/tools/tools.go:530-547 | a registration without a generation of its own gets one that exceeds every registered one |
| McpResync.RunStaysBehind | internal/tools/tools.go:530-655 | in every run that does not exhaust the counter no registration is ahead of it, so that the lemma before applies |
| McpResync.McpBridge.Resync | cmd/sta/mcps.go:270-383 | the refresh, with its rollback, has the effect and the outcome that the lemmas below are about |
| McpResync.RollbackRestores | cmd/sta/mcps.go:321-330 | rolling back a partial publication leaves exactly the registrations there were |
| McpResync.FailedResyncChangesNothing | cmd/sta/mcps.go:270-383 | on any error every registration, the published names of all servers and the whitelist are as before |
| McpResync.ResyncSucceedsExactlyWhen | cmd/sta/mcps.go:270-383 | a refresh succeeds exactly if the server answers without a name collision and each tool compiles and is free, or held by the server with a generation that can advance |
| McpResync.SuccessfulResync | cmd/sta/mcps.go:366-383 | exactly the advertised names are published, with their new tools; replaced generations pass every old one; stale names are gone; other names are untouched; the whitelist grows by the names |
| McpResync.RefreshIsCoherent | cmd/sta/mcps.go:303-312 | if the server had published anything before, all names it publishes have one and the same generation, one past the highest old one |
| McpResync.McpBridge.RemoveTools | cmd/sta/mcps.go:388-395 | all published tools of a server are withdrawn and its list is empty |
| McpResync.McpBridge.Bridge | cmd/sta/mcps.go:156-208 | the start-up publication, with its withdrawal on failure, has the effect that the next lemmas are about |
| McpResync.StartSucceedsExactlyWhen | cmd/sta/mcps.go:156-208 | a start-up publication succeeds exactly if the public names are distinct and each tool compiles and is free |
| McpResync.FailedStartup | cmd/sta/mcps.go:195-201 | one that is refused a tool restores the registrations, empties the server's list and keeps the names it got through on the whitelist; nothing has changed exactly if the list was empty and those names were allowed |
| McpResync.StartMatches | cmd/sta/mcps.go:195-201 | it keeps registry and lists in agreement exactly if it is not refused a tool over a server that already has names |
| McpResync.SecondStartForgets | cmd/sta/mcps.go:195-201 | a concrete run: the same tool published twice at start-up stays registered and is no longer listed |
| McpResync.PublishedMatchesRegistry | cmd/sta/mcps.go:270-395 | in every other run of refreshes, removals, start-ups and foreign registrations, the tools registered to a server are exactly its published names |
| PlanMode.PlanSwitch.HasOpenTurn | cmd/sta/plan_mode_runtime.go:25-36 | the loop finds whether a turn has begun and none has ended since |
| PlanMode.PlanSwitch.FoldLog | cmd/sta/plan_mode_runtime.go:196-248 | the scan finds the last mode set, and the mode selected since by the last plan command that ended, if it ended in success and asked for the other mode |
| PlanMode.OpenTurnExactlyWhen | cmd/sta/plan_mode_runtime.go:25-36 | the recursive form of the scan says the same as the condition on the events |
| PlanMode.ModeExactlyWhen | cmd/sta/plan_mode_runtime.go:42-55 | plan mode is on exactly if the last mode event of the log switches it on |
| PlanMode.SelectedExactlyWhen | cmd/sta/plan_mode_runtime.go:196-248 | a selection is recovered exactly if a plan command ended in success asking for a mode not in force, and since then no other ended and no mode was set |
| PlanMode.PlanSwitch.SetPlanMode | cmd/sta/plan_mode_runtime.go:70-119 | case by case, from the last mode event and whether a turn is open: what is selected already drops the map entry (noop or cancelled); in a turn the entry is set and the log left alone (queued or cancelled); else the mode is appended (committed) or, if that fails, nothing changes |
| PlanMode.PlanSwitch.ApplyPending | cmd/sta/plan_mode_runtime.go:155-179 | the map's selection, or else the fold's, becomes the logged mode, without an append if it is already |
| PlanMode.LatestRequestWins | cmd/sta/plan_mode_runtime.go:66-179 | whenever no command or boundary is under way, a boundary leaves the mode at the latest request, live and after a crash, and a second one changes nothing |
| PlanMode.LatestLoggedRequestWins | cmd/sta/plan_mode_runtime.go:196-248 | the same from the log alone: over every run in which no crash interrupts a command, the mode reached is the request of the last plan command whose success is logged |
| PlanMode.CommandEndingInsideABoundary | cmd/sta/plan_mode_runtime.go:155-179 | a command that ends between a boundary's read and its append is lost exactly if it asked for the other mode |
| PlanMode.BoundaryCanLoseACommand | cmd/sta/plan_mode_runtime.go:155-179 | from every state in which a boundary has read and not yet appended, a command that asks for the other mode and runs to its end is lost |
| PlanMode.BoundaryHasLooked | cmd/sta/plan_mode_runtime.go:155-179 | a concrete run to such a state |
| PlanMode.FailedCommand | cmd/sta/plan_mode_runtime.go:230-240 | whether the earlier request survives a command that fails, before it has switched or after: live exactly if the map holds a mode other than the command's doing, or is empty and the request in force; after a crash exactly if it is in force; and when the two differ |
| PlanMode.FailureAfterQueueing | cmd/sta/main.go:2026-2062 | a command that queues its switch in an open turn and then fails takes effect live and is lost in a crash |
| SchemaTypes.TranslationIsSound | cmd/sta/codemode_prompt.go:91-181 | every value a schema accepts inhabits its generated type, if of what the translation reads no union loses a `true`, no `items` stands beside prefix schemas and no `additionalProperties` beside patterns |
| SchemaTypes.TranslationIsExact | cmd/sta/codemode_prompt.go:91-181 | the type has exactly the accepted values, for enums, unions, scalars other than integers, arrays without prefix, records and objects of known properties, nested at will |
| SchemaTypes.EnumTypeHas | cmd/sta/codemode_prompt.go:95-106 | whatever stands beside it, an enum is described by exactly its values |
| SchemaTypes.CoarseTypes | cmd/sta/codemode_prompt.go:118-134 | integers are described as numbers, and a list of type names or none as any value |
| TypeCoverage.AdmitsEverythingExactlyWhen | cmd/sta/codemode_prompt.go:91-181 | a type admits every value exactly if its structure covers each of null, false, true, numbers, strings, arrays and objects: for all but objects one alternative does so alone; object types together leave no object that violates a member of each |
| SchemaGaps.UnionIsSoundExactlyWhen | cmd/sta/codemode_prompt.go:107-117 | a union, beside a `type` keyword or alone, is sound exactly if it loses no `true` or the types of its other members cover every kind of value that keyword lets through |
| SchemaGaps.LossyUnionIsSoundExactlyWhen | cmd/sta/codemode_prompt.go:107-117 | the same for a union that loses a `true`, whatever is lost inside its other members |
| SchemaGaps.TrueOrString | cmd/sta/codemode_prompt.go:107-117 | true-or-string accepts null, and its type does not |
| SchemaGaps.TypeOnlyWithinExactlyWhen | cmd/sta/codemode_prompt.go:118-134 | what a schema of a type keyword alone accepts inhabits a type exactly if the type covers each kind that keyword lets through |
| SchemaGaps.ItemsAreSoundExactlyWhen | cmd/sta/codemode_prompt.go:127-129 | an array schema with `items` is sound exactly if at every place of its prefix, and behind it, that an array can reach, what that place's schema lets through inhabits the type of `items` |
| SchemaGaps.TypedPrefixIsSoundExactlyWhen | cmd/sta/codemode_prompt.go:127-129 | for prefix schemas that say a type only, exactly if the type of `items` covers every kind they let through |
| SchemaGaps.PrefixIsMisread | cmd/sta/codemode_prompt.go:127-129 | a string in front of number items is accepted, and the type is an array of numbers |
| SchemaGaps.AdditionalIsSoundExactlyWhen | cmd/sta/codemode_prompt.go:137-144 | an object schema of additional properties is sound exactly if whatever may stand under a name, by the patterns that match it or else by `additionalProperties`, inhabits the type of the latter, or no object is accepted at all |
| SchemaGaps.TypedPatternIsSoundExactlyWhen | cmd/sta/codemode_prompt.go:137-144 | for one pattern that matches some name and says a type only, exactly if the type of `additionalProperties` covers every kind it lets through |
| SchemaGaps.PatternIsMisread | cmd/sta/codemode_prompt.go:137-144 | a string under a pattern beside additional numbers is accepted, and the type is a record of numbers |
| TypeText.SchemaText | cmd/sta/codemode_prompt.go:91-135 | the recursive writer, with its loops over enum values and union members, writes the text of the schema's type, property names quoted and escaped |
| TypeText.ObjectText | cmd/sta/codemode_prompt.go:137-181 | the builder loop writes each property with its key, optional mark and type |
| TypeText.TextReadsBackExactlyWhen | cmd/sta/codemode_prompt.go:71-181 | read by TypeScript's rules, the text of a type gives back that type, with nothing left over, exactly if no property name in it has a bell or an unprintable character beyond 16 bits |
| TypeText.ReadBackMeansTheSame | cmd/sta/codemode_prompt.go:91-181 | with such names it reads back as a type with the same inhabitants |
| TypeText.GeneratedTextAdmits | cmd/sta/codemode_prompt.go:91-181 | end to end, with such names and under the conditions of `TranslationIsSound`: an accepted value inhabits the type read from the generated text |
| TypeText.GeneratedTextIsSoundExactlyWhen | cmd/sta/codemode_prompt.go:91-181 | for every schema with such names, the type read from its text has all accepted values exactly if the translation is sound, so that the conditions in `SchemaGaps` are conditions on the text |
| TypeText.GeneratedTextIsExact | cmd/sta/codemode_prompt.go:91-181 | the type read from the text has exactly the accepted values, for the schemas described in full |
| TypeText.BellSchemaIsMisread | cmd/sta/codemode_prompt.go:71-181 | a schema that requires a property named by a bell accepts a value that the type read from its text refuses |
| TypeKeys.KeyIsBareExactlyWhen | cmd/sta/codemode_prompt.go:71-89 | a property name is written without quotes exactly if it is an ASCII identifier name of ECMAScript |
| TypeKeys.KeyReadsBack | cmd/sta/codemode_prompt.go:71-89 | a property name reads back as itself exactly if it has no bell and no unprintable character beyond 16 bits |
| TypeKeys.BellIsLost | cmd/sta/codemode_prompt.go:71-76 | a bell reads back as the letter a |
| ShellQuoting.ReplacementsArePerCharacter | cmd/sta/terminal_tools.go:117-120 | the replacements one after another are one escape per character |
| ShellQuoting.BashReadsTheCommand | cmd/sta/terminal_tools.go:117-121 | for every command, the quoted text decodes to it, and the quote that closes it is the one behind it |
| ShellQuoting.QuotedIsOneLine | cmd/sta/terminal_tools.go:117-121 | the quoted text holds no line break |
| ShellQuoting.TicksArePerCharacter | cmd/sta/terminal_tools.go:110-114 | the PowerShell replacements are one escape per character too |
| ShellQuoting.PowerShellReadsTheCommand | cmd/sta/terminal_tools.go:109-115 | the expandable string decodes to the command without carriage returns exactly if it has no typographic double quote |
| ShellFraming.IndexIsFirst | cmd/sta/terminal_tools.go:129-137 | the search for a mark finds its first occurrence, or there is none |
| ShellFraming.LastIndexIsLast | cmd/sta/terminal_tools.go:125-143 | the search from the end finds the last occurrence, or there is none |
| ShellFraming.TrimBreaksIsPrefix | cmd/sta/terminal_tools.go:138 | exactly the line breaks at the end of the output are cut off |
| ShellFraming.ScreenIsCutExactlyWhen | cmd/sta/terminal_tools.go:124-151 | a screen whose last start mark is the command's own gives its output without the last line breaks, and its exit code unless that is zero, exactly if the first end mark behind it is the command's own too |
| ShellFraming.OutputIsReturnedExactlyWhen | cmd/sta/terminal_tools.go:124-151 | the same when the output may print start marks: exactly if it prints none, and the first end mark is the command's own |
| ShellFraming.UnmarkedScreenIsReturned | cmd/sta/terminal_tools.go:125-128 | a screen without a start mark is returned as it is |
| ShellFraming.UnfinishedLineGivesNothing | cmd/sta/terminal_tools.go:129-132 | while the line of the last start mark has not ended, nothing is returned |
| ShellFraming.UnfinishedOutputIsTrimmed | cmd/sta/terminal_tools.go:133-137 | while no end mark has come, what stands behind that line is returned, trimmed |
| ShellFraming.PrintedEndMarkIsLost | cmd/sta/terminal_tools.go:133-138 | a concrete screen of a command that prints an end mark, and whose outcome is lost |
| ShellFraming.PrintedStartMarkIsLost | cmd/sta/terminal_tools.go:125-132 | a concrete screen of a command that prints a start mark, and whose outcome is lost |
| ShellFraming.OwnMarkCutsOff | cmd/sta/terminal_tools.go:133-138 | an output that prints an end mark of its own is cut off there, with an exit code at most behind it, and is not the outcome |
| TerminalClaims.SessionLog.RecoverClaims | cmd/sta/terminal_tools.go:703-770 | nothing is appended over a live terminal or an undecodable edge; else one stop per released claim in order of first start, up to the first failing append |
| TerminalClaims.ReleasedExactlyWhen | cmd/sta/terminal_tools.go:722-764 | a claim is released, once, exactly if both its first and its last edge are starts |
| TerminalClaims.ScanFailsExactlyWhen | cmd/sta/terminal_tools.go:723-752 | the recovery fails exactly over a terminal event that does not decode or has a blank id |
| TerminalClaims.ReleasedInOrder | cmd/sta/terminal_tools.go:743-764 | claims are released in the order in which their terminals first occur |
| TerminalClaims.RecoveryReleases | cmd/sta/terminal_tools.go:698-770 | afterwards released claims are closed, other terminals unchanged, and a second recovery appends nothing |
| TerminalClaims.StopBeforeStartIsLost | cmd/sta/terminal_tools.go:745-752 | a log that begins with a stop leaves an open claim unreleased |

## Left out

- Decoding and encoding of events: payloads are typed records, with a `Broken` case where the code tells undecodable ones apart; undecodable payloads inside receipts, and plan events that the projection would reject, are not modelled.
- Session, message, server and tool names are numbers where the code only compares them; the name a server's tool is published under (`PublicToolName`) is taken as given.
- Wall-clock time, timeouts and fairness: cancellation is a step, and only safety, conservation and what holds at rest is claimed.
- Overflow of the 64-bit counters for permission ids, session ids and event sequence numbers; generation numbers of the tool registry and range ends of the estimator do wrap.
- `Scope.Close` on the heap: overlapping calls and disposers that call back into the tree; the lock-level interleaving is in `ScopeInterleaving`, over values.
- ScopeTree.Scope.Close: the map of values is cleared with the scope, and is not part of its tree value.
- Team mailbox: blocks and frames of messages, withdrawal of a queued message and reuse of its id, snapshots of the board, and the order of messages within one member's pass, which is `TeamPendingOrder`.
- TeamMailbox.TeamSession.RedeliverPending: says nothing of messages whose target is not on the roster, which the pass does not visit.
- The synchronous job tool appends its own terminal row without looking for an earlier one; `OneDoneRowPerJob` is about completion reports only.
- JobWakes.WakeBudget.Admit: the owner's status is read before the lock and may be out of date; the wake itself, or the quiet injection, is a step of its own or left out.
- SdkEvents.OnTimeExactlyWhen: the per-session subscription that writes events without waiting, and notices about subagents, which are written behind events.
- WakeRecovery.InsertedAtMostOnce: says nothing of keys with outer space, which are inserted again; `SecondPassIsIdle` says when.
- Job labels and message texts of wakes; messages carry their dedupe key only.
- McpResync.SuccessfulResync: other registrants act between refreshes, not between the registry calls of one.
- McpResync: starting, listing and closing the client; the schemas of a tool either compile every time or never.
- SurfaceEstimator.Estimate: the token estimate of a single event is given, and the library sort is an insertion sort.
- SchemaTypes.TranslationIsSound: object literals in an enum admit their own value only, though TypeScript also admits wider objects; whether a pattern matches a name is a parameter; the other keywords of JSON Schema 2020-12 that the translation never reads can only make a schema accept less; earlier dialects, in which `$ref` replaces the keywords beside it, are not modelled.
- SchemaGaps.UnionIsSoundExactlyWhen: unions beside keywords other than `type`; those can make a schema accept so little that a lost `true` does no harm.
- TypeText: punctuation, type words and the JSON text of an enum value are one token each; property names are written and read character by character; line breaks and indentation carry no meaning.
- ShellQuoting.BashReadsTheCommand: what the terminal's line discipline or the shell's line editor does with control characters, and characters a shell cannot hold, such as NUL.
- ShellFraming.OutputIsReturnedExactlyWhen: how the command line, echoed by the terminal, gets onto the screen; it stands in the text before the last start mark.
- TypeKeys.KeyReadsBack: which characters are printable is a parameter; names are valid Unicode text.
- Composition, configuration, prompts, provider adapters, web search, language servers, subprocesses, file systems and SQLite, the approval engine, schedules and the web front end.
