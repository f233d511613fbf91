# Ikigai: a verified model of the agent runtime

Ikigai is a terminal program that runs a tree of LLM agents. This project models the parts of it
where state, interleaving and text handling meet, and proves what they promise.

- **Turns** (`turn.dfy`, `turn_effects.dfy`, `turn_agent.dfy`, `tool_call_extraction.dfy`). An agent is IDLE, waiting for
  the LLM, or executing a tool in a worker thread. `Turn` interleaves the steps of the main loop with
  those of the worker and proves the protocol over whole runs; `TurnEffects` says what each step stores
  and starts; `TurnAgent` holds the handlers as they update an agent in place, each proved against its
  effect in `Turn`.
- **Conversation** (`conversation.dfy`, `message_store.dfy`). Messages, checkpoints, rewinding,
  clearing and forking; rollback is exact and tool calls stay paired with their results.
- **Mail** (`mail_wait.dfy`, `shared_waits.dfy`, `mail_db.dfy`, `fanin_wait.dfy`). Senders insert and
  notify, a waiter listens, looks and sleeps; no wake-up is lost while the calls succeed and no two
  waits use one connection, and no mail disappears unreported.
- **Agents** (`forest.dfy`, `forest_runs.dfy`, `command_targets.dfy`, `agent_registry.dfy`,
  `agent_list.dfy`). The flat array of agents stays a forest with a living root under fork, kill, reap
  and switch, and each command reaches the agents it names; the listing walks the tree breadth first.
- **Input** (`input.dfy`, `input_parser.dfy`, `key_reports.dfy`, `key_sequences.dfy`). UTF-8 (section 3
  of RFC 3629) and terminal escape sequences, byte by byte, and the key each of them means.
- **Text** (`streaming.dfy`, `stream_events.dfy`, `stream_writer.dfy`, `paths.dfy`, `path_words.dfy`,
  `path_restore.dfy`, `path_buffer.dfy`, `path_collisions.dfy`, `path_round_trip.dfy`, `path_texts.dfy`,
  `key_inject.dfy`).
  Streamed lines, `ik://` translation and escaped keys.
- **Lists** (`history.dfy`, `layer_cake.dfy`). The command history and the stacked display.

Code that only computes is a function here. Code that updates fields or arrays is a class or a method
with its loops, proved equal to such a function; the properties are lemmas about the function.

## Assumptions

- Submissions and `/wait` start in IDLE. The program asserts this for submissions
  (apps/ikigai/agent_state.c:32) and takes it for granted for `/wait`
  (apps/ikigai/commands_wait.c:212); key handling checks neither.
- A provider reports the end of a request with its last handle, reports `tool_use` only together
  with a tool call (`Turn.Reliable`), and delivers no tool call to a request that was interrupted
  (`Turn.Cancels`). The Anthropic, Google and OpenAI providers remove a cancelled request without a
  completion callback (apps/ikigai/providers/common/http_multi_info.c:144).
  `Turn.IdleRunIsSafe` needs no more; `Turn.StepExact` says what is needed without these.
- The finish reason of the last reply is kept across turns, so a finished `/wait` can re-enter the
  tool loop; it is modelled that way.
- A queued notification makes `select` ready, and calls on one connection do not overlap.
- Agent ids are 22 characters long and never issued twice; mail ids are never used again, and only
  the waiting agent deletes its own mail.
- A layer renders the rows it is asked for.

## Where the code and the intent differ

- IDLE is not gate enough for `/wait` with a provider that has no cancel operation: after an
  interrupted request whose reply still carried a tool call, that call is pending and the wait is
  harvested as if it were the call (`Turn.StaleCallCrashes`). No provider in the repository is of
  that kind.
- Tails of `ik://` URIs that contain neither directory do not suffice for the round trip: a tail may
  end with the beginning of the state directory and be completed by the next URI
  (`PathTexts.OverlapFails`). The exact condition is `PathRoundTrip.Clean`.
- System URIs do not survive when the data directory lies below the state directory
  (`PathRoundTrip.BelowFails`), but do when the two are the same.
- A cascade kill whose notification fails after the commit leaves later victims alive in memory that
  the database has dead (`ForestRuns.FailedNotificationShows`); `ForestRuns.MemoryAgreesExactly` says
  when it does not show.
- A failed inbox query reads as an empty inbox and can leave the waiter asleep over its mail
  (`MailWait.FailedLookLosesWakeUp`).
- Every `/wait` uses the same connection (apps/ikigai/commands_wait.c:175), and reading from it takes the
  notifications of all channels, so of two agents in `/wait` one can take what the other needs
  (`SharedWaits.SharingLosesWakeUp`); connections used by one agent each are exactly the safe ones
  (`SharedWaits.NobodyOversleepsExactly`). The wait tool has a connection for each agent.
- The stream-start event keeps an unfinished line; only a submission drops it. An interrupt in the middle
  of a line leaves one behind, and the stream that a finished `/wait` may then start
  (`Turn.WaitReentersLoop`) shows it in front of its response (`StreamEvents.InterruptedLineIsJoined`).
  `StreamEvents.StreamShowsItsOwnText` gives the exact condition.
- An arrow key with modifiers other than none or Ctrl, such as Shift, leaves the parser inside its
  sequence, so that keys typed behind it are swallowed (`KeySequences.KeyBehindShiftedArrowIsLost`, for all
  modifiers `KeySequences.OtherArrowsStick`).
- The mouse wheel stops scrolling where column and row have more than seven digits together, because the
  report does not fit the buffer (`KeySequences.WheelScrolls`).
- The outcome of deleting a reported mail is ignored, so a target named twice may be answered twice
  by one mail (`FaninWait.FailedDeleteServesTwice`); lists that name nobody twice are exactly the safe
  ones (`FaninWait.ServesOnceExactly`).
- The reverse translator counts a directory that starts at a slash right behind another one, but drops
  that slash while it builds the output, finds no match there and can write beyond the buffer sized
  from the counts (`PathBuffer.JoinedOverruns`). `PathBuffer.FitsExactly` says when the result fits;
  it always does when no two directories are joined by a slash (`PathBuffer.UnjoinedFits`).

## Model

| member | source | states |
|---|---|---|
| Turn.RunIsSafe | apps/ikigai/repl_tool_completion.c:24-62 | From start-up, a fork or a restore, in every interleaving of main loop and worker whose steps are gated: no transition assertion fails, at each main-loop boundary the agent is EXECUTING_TOOL exactly while its thread runs, complete implies running, each harvested result is the one its own worker stored and in order, started = completed + interrupted + running, continuations stay within max_tool_turns, calls and results stay paired |
| Turn.IdleRunIsSafe | apps/ikigai/commands_wait.c:112-217 | With providers that cancel interrupted requests and report tool_use only with a tool call, starting submissions and /wait in IDLE is gate enough: every such run, from any conversation with paired calls, is gated and has all of those properties, and no call is pending without its worker |
| Turn.StepExact | apps/ikigai/repl_event_handlers.c:327-355 | From a good state any step leads to a good state if and only if it is gated: submit in IDLE, /wait in IDLE with no pending call, no bare tool_use reply that restarts a request |
| Turn.RunIsSafeUntilUngated | apps/ikigai/agent_state.c:26-71 | The first ungated step of a run, and no earlier one, breaks the protocol |
| Turn.RunKeepsInv | apps/ikigai/repl.c:79-195 | Gated runs keep the whole invariant, whatever conversation with paired calls the agent begins with |
| Turn.SubmitExact | apps/ikigai/repl_actions_llm.c:92-192 | A submission keeps the invariant exactly when it starts in IDLE (or no model is configured); it resets the iteration count |
| Turn.FinishedExact | apps/ikigai/repl_event_handlers.c:227-247 | The end of a request keeps the invariant exactly when the reply does not strand a resubmitted request |
| Turn.BeginWaitExact | apps/ikigai/commands_wait.c:191-217 | /wait keeps the invariant exactly when it starts in IDLE without a pending tool call |
| Turn.ReliableIsGated | apps/ikigai/repl_event_handlers.c:239-246 | A provider that reports tool_use only with a tool call never strands a request |
| Turn.PollHarvests | apps/ikigai/repl_tool.c:168-247 | Harvesting a finished tool appends two messages behind the old ones: an assistant message that ends with its own call, the thinking in front, and a tool message with exactly what its own worker stored; it clears the thread and the pending call |
| Turn.PollCuts | apps/ikigai/repl_tool_completion.c:64-128 | An interrupted tool leaves no pair, flags the turn, clears flag, thread and pending call, and ends in IDLE |
| Turn.WaitReentersLoop | apps/ikigai/repl_tool_completion.c:24-62 | A finished /wait starts a stream, without a submission, if and only if the last reply asked for a tool, the limit allows it and the request can be started |
| Turn.PollKeeps | apps/ikigai/repl_tool_completion.c:215-248 | Polling in any good state leads to a good state, for tool and /wait workers, interrupted or not |
| Turn.WorkerKeeps | apps/ikigai/repl_tool.c:39-69 | The worker may store and signal at any point between main-loop steps |
| Turn.OtherKeeps | apps/ikigai/repl_actions.c:195-212 | Interrupt requests, marks, rewinds, clears and the late store of EXECUTING_TOOL keep the invariant |
| Turn.WorkerComesHome | apps/ikigai/repl_tool_completion.c:215-247 | From any good state with a running worker, at most two worker steps and one poll end it, in a good state |
| Turn.StaleCallCrashes | apps/ikigai/commands_wait.c:211-215 | Concrete run with a provider that has no cancel operation: a call left pending by an interrupted reply makes a later /wait in IDLE harvest as that call without a result, which fails an assertion; every other step of the run is gated |
| Turn.BareToolUseStrands | apps/ikigai/repl_event_handlers.c:243-246 | Concrete run: tool_use without a tool call ends IDLE with a request in flight |
| TurnEffects.SubmitStores | apps/ikigai/repl_actions_llm.c:92-112 | A submission appends one user message with the text typed, and nothing without a model |
| TurnEffects.FinishedStores | apps/ikigai/repl_event_handlers.c:227-325 | The end of a request appends the streamed text as an assistant message if there is any; an error stores nothing; an interrupt flags exactly the messages with no later user message and one at or before them |
| TurnEffects.PollStores | apps/ikigai/repl_tool_completion.c:24-128 | Polling appends the pair of a finished tool, flags the last turn of an interrupted one, and stores nothing for a /wait |
| TurnEffects.OthersStoreNothing | apps/ikigai/repl_tool.c:39-69 | No other step but a mark, a rewind or a clear touches the conversation |
| TurnEffects.CallStartsWorker | apps/ikigai/repl_event_handlers.c:239-242 | A reply starts exactly one worker, for its first tool call |
| TurnEffects.FinishedContinues | apps/ikigai/repl.c:281-303 | A reply without a call starts another request exactly if it says tool_use and fewer than max_tool_turns were made |
| TurnEffects.PollContinues | apps/ikigai/repl.c:281-303 | A harvested worker starts another request on exactly those terms, by the reply that was kept |
| TurnEffects.FinishedStopsIdle | apps/ikigai/repl_event_handlers.c:249-355 | An interrupted or failed request leaves the agent idle with nothing in flight; finish reason and pending call stay |
| TurnEffects.SubmitStarts | apps/ikigai/repl_actions_llm.c:136-192 | A submission is in flight or the agent idle again; the count of the tool loop starts over |
| TurnEffects.EscapeAsks | apps/ikigai/repl_actions.c:195-212 | ESC sets the flag in every state but IDLE and changes nothing else |
| TurnAgent.AgentContext.TransitionToWaitingForLlm | apps/ikigai/agent_state.c:26-45 | From IDLE only; the whole new state |
| TurnAgent.AgentContext.TransitionToIdle | apps/ikigai/agent_state.c:47-61 | From WAITING_FOR_LLM only; the whole new state |
| TurnAgent.AgentContext.TransitionToExecutingTool | apps/ikigai/agent_state.c:63-71 | From WAITING_FOR_LLM only; the whole new state |
| TurnAgent.AgentContext.TransitionFromExecutingTool | apps/ikigai/agent_state.c:195-203 | From EXECUTING_TOOL only; the whole new state |
| TurnAgent.AgentContext.SendToLlm | apps/ikigai/repl_actions_llm.c:92-192 | User message appended, response and count reset, request started or back to IDLE |
| TurnAgent.AgentContext.SubmitToolLoopContinuation | apps/ikigai/repl_tool_completion.c:175-213 | Request in flight, or IDLE when it cannot be started |
| TurnAgent.AgentContext.StartToolExecution | apps/ikigai/repl_tool.c:122-160 | Flags set before the thread is created |
| TurnAgent.AgentContext.CompleteToolExecution | apps/ikigai/repl_tool.c:168-247 | In place: both messages, pending cleared, thread fields cleared, back to WAITING_FOR_LLM |
| TurnAgent.AgentContext.HandleToolCompletion | apps/ikigai/repl_tool_completion.c:24-62 | Harvest, then continue within the limit or go IDLE |
| TurnAgent.AgentContext.HandleInterruptedToolCompletion | apps/ikigai/repl_tool_completion.c:64-173 | Drop the call, clear the thread, flag the turn, go IDLE; a /wait flags nothing |
| TurnAgent.AgentContext.PollCompletion | apps/ikigai/repl_tool_completion.c:215-247 | Acts only on a complete worker in EXECUTING_TOOL |
| TurnAgent.PollToolCompletions | apps/ikigai/repl_tool_completion.c:215-248 | Every agent of the array, or the current one while the array is empty, gets its own completion |
| TurnAgent.AgentContext.HandleRequestSuccess | apps/ikigai/repl_event_handlers.c:227-247 | Response kept if not empty; tool, continuation or neither |
| TurnAgent.AgentContext.HandleInterruptedLlmCompletion | apps/ikigai/repl_event_handlers.c:249-325 | Response dropped, turn flagged, IDLE |
| TurnAgent.AgentContext.ProcessCompletedRequest | apps/ikigai/repl_event_handlers.c:327-355 | Branch order after the last handle: state, interrupt, error, success |
| TurnAgent.AgentContext.CompletionCallback | apps/ikigai/repl_callbacks.c:143-168 | What the final callback stores: error, finish reason, and the call extracted from the blocks of the reply |
| TurnAgent.AgentContext.InterruptRequest | apps/ikigai/repl_actions.c:195-212 | Sets the flag except in IDLE |
| TurnAgent.AgentContext.BeginWait | apps/ikigai/commands_wait.c:191-210 | Flags around the creation of the wait worker |
| ToolCallExtraction.StoredCallIsExtracted | apps/ikigai/repl_tool.c:179-221 | The message stored for a call gives the call back when extracted again, exactly if no signature of unstored thinking is lost |
| ToolCallExtraction.PendingFields.ExtractToolCalls | apps/ikigai/repl_response_helpers.c:161-237 | The first tool call and the last thinking given before it become pending; nothing older survives |
| ToolCallExtraction.ExtractIsExact | apps/ikigai/repl_response_helpers.c:161-237 | The call extracted is the first one, and thinking, signature and redacted data are each the last given before it |
| Conversation.RewindIsExact | apps/ikigai/marks.c:107-185 | After any run, rewinding to a surviving mark restores the messages present when it was made (up to the interrupted flag), keeps that mark and the older ones, and rewinding again changes nothing; an unknown label changes nothing |
| Conversation.RunIsPaired | apps/ikigai/repl_tool.c:179-221 | In every reachable conversation each call is followed at once by its result and no result stands alone; marks are ordered, in range and split no pair |
| Conversation.ApplyKeepsSound | apps/ikigai/marks.c:138-185 | Each operation (say, tool pair, interrupt, mark, rewind, clear, fork) keeps all of that |
| Conversation.TrackedApplyRemembers | apps/ikigai/marks.c:81-86 | Each surviving mark still has the messages in front of it that were there at its creation |
| Conversation.RewindTwice | apps/ikigai/marks.c:146-185 | Rewinding to the same label twice is rewinding once |
| Conversation.Find | apps/ikigai/marks.c:107-136 | The latest mark with the label, or the latest of all; nothing only if none carries it |
| Conversation.LastUser | apps/ikigai/repl_tool_completion.c:94-112 | The last user message, or none |
| Conversation.CloneIsExact | apps/ikigai/agent_messages.c:49-113 | A copy equals the original if and only if no message is interrupted and no call carries a thought signature |
| Conversation.CloneLosesOnly | apps/ikigai/agent_messages.c:49-113 | A copy keeps everything but the interrupted flag and the thought signatures of calls |
| Conversation.CloneKeepsIds | apps/ikigai/agent_messages.c:49-85 | A copy keeps every call id and every answered id |
| MessageStorage.MessageStore.AddMessage | apps/ikigai/agent_messages.c:12-30 | Growing array: the message is appended, all others stay |
| MessageStorage.MessageStore.ClearMessages | apps/ikigai/agent_messages.c:32-44 | No messages; marks untouched |
| MessageStorage.MessageStore.ClearAll | apps/ikigai/commands_basic.c:48-64 | Messages and marks go together |
| MessageStorage.MessageStore.CreateMark | apps/ikigai/marks.c:47-105 | A mark at the present end, or nothing without a timestamp |
| MessageStorage.MessageStore.FindMark | apps/ikigai/marks.c:107-136 | The backward search finds the mark that the label names |
| MessageStorage.MessageStore.RewindToMark | apps/ikigai/marks.c:138-185 | Truncates messages and later marks in place |
| MessageStorage.MessageStore.Rewind | apps/ikigai/marks.c:234-248 | Search and rewind together, or no change |
| MessageStorage.MessageStore.InterruptLastTurn | apps/ikigai/repl_tool_completion.c:94-128 | Flags exactly the messages from the last user message on |
| MessageStorage.MessageStore.CloneFrom | apps/ikigai/agent_messages.c:115-136 | All messages of the source, copied into a fresh array |
| MailWait.NoLostWakeUp | apps/ikigai/commands_wait_core.c:96-168 | For an agent that shares its connection with no other wait, in every interleaving of senders that notify with its waits, whose looks succeed: asleep over a non-empty mailbox only while a notification is queued or a sender is between insert and notify |
| MailWait.StepExact | apps/ikigai/commands_wait_core.c:124-168 | The invariant survives a step if and only if it is neither a send that stays silent towards a sleeping waiter nor a failed look over mail of which no notification is queued or due |
| MailWait.RunKeepsInv | apps/ikigai/commands_wait_core.c:96-110 | Runs without such steps keep the invariant |
| MailWait.WaitTakesOnlyWhatItReports | apps/ikigai/commands_wait_core.c:103-110 | In every run, silent sends and failed calls included: a wait deletes at most one mail, the one it reports; all other mail is conserved; a finished wait has a report and no longer listens |
| MailWait.ReportedIsDeleted | apps/ikigai/commands_wait_core.c:103-110 | A wait that has reported a mail has deleted it, and reports its sender and body, unless the delete failed |
| MailWait.HeadIsNewest | apps/ikigai/db/mail.c:75-79 | The mail at the head of the inbox is unread unless all are read, and the newest among its kind |
| MailWait.SilentSendLosesWakeUp | apps/ikigai/commands_send.c:104-111 | Concrete run: a send inside a transaction leaves the waiter asleep over its mail |
| MailWait.FailedLookLosesWakeUp | apps/ikigai/commands_wait_core.c:51-53 | Concrete run: a failed inbox query leaves the waiter asleep over its mail |
| SharedWaits.NobodyOversleepsExactly | apps/ikigai/db/notify.c:102-121 | Any number of agents waiting over any connections: with sends that notify and looks that succeed, nobody is left asleep over its mail in any run if and only if no two agents wait on one connection |
| SharedWaits.MoveExact | apps/ikigai/db/notify.c:102-121 | Over any connections, shared or not, a step keeps all waits in a good state if and only if it loses no wake-up of its own agent and does not read from a connection whose notifications another sleeping agent needs |
| SharedWaits.SharedWaitsConserve | apps/ikigai/commands_wait_core.c:103-110 | Sharing loses no mail: in every run over any connections each wait deletes at most the mail it reports |
| SharedWaits.SharingLosesWakeUp | apps/ikigai/commands_wait.c:174-175 | A run for any two agents on one connection: all calls succeed, the first agent takes the notification of the second, which stays asleep over its mail |
| MailDatabase.Database.SendCore | apps/ikigai/commands_send.c:43-114 | Validation order, insert before notify, notify only outside a transaction, no change on an error |
| MailDatabase.Database.CheckMail | apps/ikigai/commands_wait_core.c:40-55 | The first row of the inbox order, or none exactly when there is none or the query fails |
| MailDatabase.Database.UpdateTargetStatus | apps/ikigai/commands_wait_core.c:58-86 | Mail first, then dead (not reaped), then idle; deletes nothing but the mail it reports |
| MailDatabase.FaninRound | apps/ikigai/commands_wait_core.c:175-291 | One round over the entries, each call succeeding or not: every mail deleted is reported by exactly one newly resolved entry, all other mail stays, resolved entries stay, all-resolved is exact |
| FaninWait.EntryIsExact | apps/ikigai/commands_wait_core.c:240-262 | Over any number of rounds, with mail coming in between: an entry is received exactly when one mail to this agent from that target answered it, and carries its body; otherwise it carries nothing |
| FaninWait.StatusIsExact | apps/ikigai/commands_wait_core.c:72-86 | An entry is reported dead, or idle, exactly if some round found it open, without mail, and its agent dead, or not dead but idle |
| FaninWait.ServesOnceExactly | apps/ikigai/commands_wait_core.c:58-86 | All waits over a target list, whatever calls fail, answer with each mail at most once if and only if no target is named twice |
| FaninWait.SecondAnswerSameTarget | apps/ikigai/commands_wait_core.c:58-70 | Two answers by one mail are for two entries that name the same target |
| FaninWait.EachMailServesOnce | apps/ikigai/commands_wait_core.c:58-70 | A mail answers a second time only if deleting it after the first answer failed |
| FaninWait.FailedDeleteServesTwice | apps/ikigai/commands_wait_core.c:66-69 | Concrete round: a target named twice and a failing delete let one mail answer both entries |
| FaninWait.ResolvedStays | apps/ikigai/commands_wait_core.c:254-262 | An entry once answered, idle or dead stays as it is and takes no more mail |
| FaninWait.WaitConserves | apps/ikigai/commands_wait_core.c:240-282 | Mail there at the start is still there at the end or answered an entry |
| Forest.CollectIsSubtree | apps/ikigai/commands_kill.c:31-54 | The listing is exactly the agents below the target, each once, each behind everything below it |
| Forest.CollectIsPostOrder | apps/ikigai/commands_kill.c:40-50 | Depth-first order for every partial scan |
| Forest.SiblingsApart | apps/ikigai/commands_kill.c:40-45 | Two children of one agent share no descendant |
| Forest.FindIsExact | apps/ikigai/repl_agent_mgmt.c:66-126 | An agent is found if and only if the text has four characters, is a prefix of its id, and is the whole id or fits no other agent; a failed search that fits somebody is ambiguous |
| ForestRuns.RunIsSafe | apps/ikigai/commands_reap.c:139-150 | After any run of fork, fork tool, kill, kill tool, reap and switch, cut short anywhere: the first agent is still the living root and the only root, the current agent is in the array, ids are unique, no parent stands behind its child |
| ForestRuns.StepKeepsInv | apps/ikigai/internal_tools.c:113-155 | Every single command keeps that, and the first agent |
| ForestRuns.KillIsExact | apps/ikigai/commands_kill.c:57-167 | A completed kill over at most 256 descendants marks the target and its subtree and nobody else; ids and parents stay; the view moves to the present parent exactly when the current agent was the target |
| ForestRuns.KillExactIff | apps/ikigai/commands_kill.c:110-164 | Over at most 256 descendants a committed kill marks exactly the subtree if and only if everyone whose marking a failing notification prevents was dead already |
| ForestRuns.MemoryAgreesExactly | apps/ikigai/commands_kill.c:69-108 | Over any number of descendants, everyone the database holds killed is dead in memory under the same condition and no other |
| ForestRuns.FailedNotificationShows | apps/ikigai/commands_kill.c:130-137 | Concrete tree: the grandchild is dead in the database and alive in memory |
| ForestRuns.VictimsAreClosed | apps/ikigai/commands_kill.c:66-67 | However many victims fit, whoever is a victim has everything below it among the victims |
| ForestRuns.ReapIsExact | apps/ikigai/commands_reap.c:161-202 | Reaping removes exactly the recorded victims and keeps the survivors in order |
| ForestRuns.BulkReapLeavesTheLiving | apps/ikigai/commands_reap.c:107-119 | A complete bulk reap of at most 256 leaves exactly the living, one of them current |
| ForestRuns.AffectedIsAncestor | apps/ikigai/commands_reap.c:62-96 | The walk up the parents answers true if and only if the agent or an ancestor of it is a victim |
| ForestRuns.VictimsSpareRoot | apps/ikigai/commands_reap.c:107-150 | The root is never a victim |
| ForestRuns.AddKeepsMemory | apps/ikigai/repl_agent_mgmt.c:10-29 | Appending an agent with a new id keeps the forest, the root and the current agent |
| ForestRuns.SwitchKeepsInv | apps/ikigai/repl_navigation.c:32-57 | Switching keeps the current agent in the array |
| ForestRuns.KillToolKeepsInv | apps/ikigai/internal_tools.c:152-165 | The kill tool cannot reach the root |
| CommandTargets.KillMeansItsTarget | apps/ikigai/commands_kill.c:200-255 | A completed kill over at most 256 descendants kills exactly the agent its text names (a full id or a unique prefix of four characters; the current agent without a text) and everyone below it, and the view leaves a killed agent for its parent |
| CommandTargets.KillRefused | apps/ikigai/commands_kill.c:204-247 | A kill that names nobody or a root, or is not committed, changes nothing |
| CommandTargets.AmbiguousKillsNobody | apps/ikigai/commands_kill.c:217-233 | A prefix of two agents kills nobody |
| CommandTargets.KillToolMeansItsTarget | apps/ikigai/internal_tools.c:139-235 | The kill tool marks the agent with the id given and nobody else, and only if the database has it running, it is neither a root nor the parent of the caller, and the caller is known |
| CommandTargets.ForkAddsChild | apps/ikigai/commands_fork.c:225-325 | The fork command appends a living child of the current agent; a complete fork records it and moves there |
| CommandTargets.ForkToolAddsChild | apps/ikigai/internal_tool_fork.c:60-120 | The fork tool appends and records a living child of the given parent; the current agent stays |
| CommandTargets.SwitchMoves | apps/ikigai/repl_navigation.c:32-57 | Switching makes the agent current that is named, if it is present |
| CommandTargets.ReapMeansItsTarget | apps/ikigai/commands_reap.c:120-202 | A reap that names a dead agent removes exactly it and everyone below it, and the view leaves a removed agent for the root |
| CommandTargets.ReapRefused | apps/ikigai/commands_reap.c:124-143 | A reap that names nobody or a living agent changes nothing |
| CommandTargets.BelowByParent | apps/ikigai/commands_kill.c:40-45 | Being below an agent is being its child or below a child of it |
| AgentRegistry.Registry.RemoveAgent | apps/ikigai/repl_agent_mgmt.c:31-64 | Exactly the named agent goes, later ones move down, current becomes NULL only if it was removed |
| AgentRegistry.Registry.FindAgent | apps/ikigai/repl_agent_mgmt.c:66-100 | Two passes: exact match, then a unique prefix |
| AgentRegistry.Registry.UuidAmbiguous | apps/ikigai/repl_agent_mgmt.c:102-126 | True if and only if two agents have the prefix and it has four characters |
| AgentRegistry.Registry.CollectDescendants | apps/ikigai/commands_kill.c:31-54 | Recursive fill of the output array: the first max agents of the listing, the rest of the array untouched; terminates |
| AgentRegistry.Registry.MarkVictims | apps/ikigai/commands_kill.c:110-164 | Dead flags in order until a notification fails |
| AgentRegistry.Registry.KillCascade | apps/ikigai/commands_kill.c:110-198 | A committed kill marks the collected victims and the target in place, in order, up to a failing notification, and moves the view to the parent if the target was current; one that does not commit leaves memory alone |
| AgentRegistry.Registry.CmdKill | apps/ikigai/commands_kill.c:200-255 | Target lookup and root guards |
| AgentRegistry.Registry.KillOnComplete | apps/ikigai/internal_tools.c:211-235 | Marks the stored id dead, if present |
| AgentRegistry.Registry.FindFirstLiving | apps/ikigai/commands_reap.c:51-59 | The first agent that is not dead |
| AgentRegistry.Registry.IsAffected | apps/ikigai/commands_reap.c:62-96 | The loops decide whether the agent or an ancestor is a victim; terminates |
| AgentRegistry.Registry.CollectDead | apps/ikigai/commands_reap.c:106-112 | The first 256 dead agents |
| AgentRegistry.Registry.RemoveVictims | apps/ikigai/commands_reap.c:171-202 | Victims removed one by one until a database write fails; current stays |
| AgentRegistry.Registry.ReapVictims | apps/ikigai/commands_reap.c:152-202 | Switch away first, then remove; current is never NULL |
| AgentRegistry.Registry.CmdReap | apps/ikigai/commands_reap.c:98-213 | Both modes and their refusals |
| AgentRegistry.Registry.CmdFork | apps/ikigai/commands_fork.c:227-329 | Child appended under the current agent; switched to only after the commit |
| AgentList.ListAgents | apps/ikigai/commands_agent_list.c:66-157 | The queue never overflows, the walk terminates, visits every agent that hangs below a root exactly once, at its tree depth, in non-decreasing depth; the two counters sum to the visits |
| AgentList.RunningIsCount | apps/ikigai/commands_agent_list.c:92-97 | The first counter is the number of agents visited whose status is running |
| AgentList.DepthIsUnique | apps/ikigai/commands_agent_list.c:138-147 | With unique ids an agent has one depth |
| AgentList.QueueChildren | apps/ikigai/commands_agent_list.c:138-147 | Children of the agent taken out join once; there is room for them |
| AgentList.NotYetIn | apps/ikigai/commands_agent_list.c:138-147 | A child is not queued before its parent is taken out |
| AgentList.AllFound | apps/ikigai/commands_agent_list.c:82-92 | Nobody below a root is missed |
| Input.TextComesThrough | apps/ikigai/input.c:149-267 | For every text of scalar values from U+0020 on except U+007F: feeding its UTF-8 byte by byte delivers it and ends in the ground state |
| Input.DeliveredIsText | apps/ikigai/input.c:121-145 | What is delivered is that text, with nothing but UNKNOWN in between |
| Input.DecodeEncode | apps/ikigai/input.c:51-112 | Decoding the UTF-8 encoding of a scalar value gives it back |
| Input.EncodeDecode | apps/ikigai/input.c:88-111 | Only the shortest encoding of a scalar value decodes to it; everything else well-formed gives U+FFFD |
| Input.AnyStreamIsSafe | apps/ikigai/input_escape.c:239-273 | For any bytes: never in both modes, buffers have room, every character is a scalar value or from the keyboard layout |
| Input.Utf8ModeEnds | apps/ikigai/input.c:115-146 | UTF-8 mode ends within the bytes still expected, at most three |
| Input.EscapeModeEnds | apps/ikigai/input_escape.c:239-250 | An escape sequence with a byte ends within 15 minus its length more bytes |
| Input.StepValid | apps/ikigai/input.c:149-267 | One byte keeps the parser well-formed and makes progress in either mode |
| KeyReports.ReportComesThrough | apps/ikigai/input_escape.c:125-193 | For all numbers: feeding the report ESC [ keycode ; modifiers u gives UNKNOWN until its last byte, then the action of exactly those numbers, and ends in the ground state, if and only if the report fits the buffer (or is one byte too long for a key that means nothing) |
| KeyReports.PlainKeyComesThrough | apps/ikigai/input_escape.c:168-181 | An unmodified printable key up to 50000 arrives as its own character |
| KeyReports.ReportReadsBack | apps/ikigai/input_escape.c:132-152 | Both decimal numbers are read back from the report |
| KeyReports.FeedBody | apps/ikigai/input_escape.c:239-273 | No part of a report is taken for another sequence |
| KeySequences.PlainArrows | apps/ikigai/input_escape.c:57-66 | ESC [ A, B, C and D are Up, Down, Right and Left, delivered once, with the parser back in the ground state |
| KeySequences.ModifiedArrows | apps/ikigai/input_escape.c:67-91 | With modifiers 1 they are the same keys and with 5 they move to parent, child, next and previous sibling, NumLock or not |
| KeySequences.OtherArrowsStick | apps/ikigai/input_escape.c:67-93 | With any other modifiers an arrow delivers nothing and the parser stays inside the sequence |
| KeySequences.KeyBehindShiftedArrowIsLost | apps/ikigai/input_escape.c:239-273 | Concrete bytes: Shift and Up, and the letter typed behind it is swallowed |
| KeySequences.HomeAndEnd | apps/ikigai/input_escape.c:202-222 | Home and End go to the ends of the line, whatever modifiers are reported |
| KeySequences.NumberedKeys | apps/ikigai/input_escape.c:223-237 | ESC [ n ~ is Home, Delete, End, Page Up or Page Down for n = 1, 3, 4, 5, 6 and nothing for other n, whatever modifiers are reported |
| KeySequences.WheelScrolls | apps/ikigai/input_escape.c:96-122 | Buttons 64 and 65 scroll up and down, pressed or released, exactly if column and row have at most seven digits together |
| KeySequences.ControlBytes | apps/ikigai/input.c:165-232 | Each control byte is its own key, and every other one below 32 but ESC is nothing |
| KeySequences.EscapeKey | apps/ikigai/input_escape.c:29-47 | ESC twice is the escape key and opens a sequence again; ESC and another byte but the bracket are nothing |
| KeySequences.KeyCodes | apps/ikigai/input_escape.c:152-193 | What a report ESC [ code ; modifiers u delivers, for every code and all modifiers: named keys, characters, Ctrl letters, shifted keys, and nothing else |
| InputParsing.InputParser.ParseByte | apps/ikigai/input.c:149-267 | The parser object does one step of the parser value, in its fixed buffers |
| InputParsing.InputParser.ParseUtf8Continuation | apps/ikigai/input.c:115-146 | Continuation bytes in place |
| InputParsing.InputParser.ParseEscapeSequence | apps/ikigai/input_escape.c:239-273 | Order of the sub-parsers, reset and overflow |
| InputParsing.InputParser.ParseArrowKeys | apps/ikigai/input_escape.c:49-93 | Plain and modified arrows |
| InputParsing.InputParser.ParseMouseSgr | apps/ikigai/input_escape.c:96-122 | Button scan and scroll buttons |
| InputParsing.InputParser.ParseTildeSequences | apps/ikigai/input_escape.c:196-237 | Home, End and numbered keys |
| InputParsing.InputParser.ParseCsiU | apps/ikigai/input_escape.c:125-193 | Keycode and modifiers |
| InputParsing.InputParser.ScanNumber | apps/ikigai/input_escape.c:131-151 | The digit loop reads the number that is written and stops at the first other byte |
| Streaming.ChunkingInvariance | apps/ikigai/repl_callbacks.c:23-148 | However the response of a turn is cut into deltas: its lines are shown once, in order, leading empty ones dropped, the prefix on the first, an empty last one omitted, a blank line behind text with ink; the stored response is the whole text |
| Streaming.StreamShows | apps/ikigai/repl_callbacks.c:31-38 | The same for a stream that starts over an unfinished line: that line is shown in front of the response |
| StreamEvents.StreamShowsItsOwnText | apps/ikigai/repl_callbacks.c:31-38 | After any history of submissions, streams, completions and interrupts a stream shows exactly its own response if and only if the text since the last submission or completion is empty or ends with a newline; otherwise the rest of that text stands in front of its first line |
| StreamEvents.BufferIsLeftover | apps/ikigai/repl_response_helpers.c:72-106 | After any history the unfinished line is what stands behind the last newline of the text since the last submission or completion |
| StreamEvents.InterruptedLineShows | apps/ikigai/repl_event_handlers.c:249-305 | Whatever an interrupted stream left of a line is shown by the next stream that starts without a submission |
| StreamEvents.InterruptedLineIsJoined | apps/ikigai/repl_event_handlers.c:249-305 | Concrete history: the line abc, interrupted, and the next response x are shown as one line |
| Streaming.ShownIsExact | apps/ikigai/repl_response_helpers.c:44-66 | Of lines that begin with empty ones the rest is shown, with the sign of the model in front |
| Streaming.InkIsExact | apps/ikigai/repl_callbacks.c:104-113 | Ink is any character but blank, tab, newline and return |
| Streaming.DeltaExtends | apps/ikigai/repl_response_helpers.c:72-106 | One delta moves the display of the text so far to that of the longer text |
| Streaming.FlushOne | apps/ikigai/repl_response_helpers.c:18-70 | A newline moves the display to that of the terminated line |
| Streaming.SplitJoins | apps/ikigai/repl_response_helpers.c:84-92 | Splitting loses nothing |
| Streaming.SplitIsUnique | apps/ikigai/repl_response_helpers.c:84-92 | The split is the only way to write a text as lines |
| StreamWriting.StreamWriter.TurnStart | apps/ikigai/repl_actions_llm.c:136-144 | Old response and old unfinished line gone |
| StreamWriting.StreamWriter.StreamStart | apps/ikigai/repl_callbacks.c:31-38 | Old response gone, prefix due again, the unfinished line stays |
| StreamWriting.StreamWriter.Interrupted | apps/ikigai/repl_event_handlers.c:256-305 | Response gone, scrollback made anew, the unfinished line stays |
| StreamWriting.StreamWriter.FlushLine | apps/ikigai/repl_response_helpers.c:18-70 | Buffer and segment become one line; a leading empty line is dropped |
| StreamWriting.StreamWriter.TextDelta | apps/ikigai/repl_response_helpers.c:72-106 | The loop over one delta has the effect of its split |
| StreamWriting.StreamWriter.CompleteResponse | apps/ikigai/repl_callbacks.c:102-148 | Rest flushed, blank line only behind visible content |
| Paths.UriToPath | apps/ikigai/paths.c:176-299 | Two passes compute the one-pass rewriting: word boundary, system namespace, slash; every write and the terminator fit the size computed from the counts |
| Paths.CountUris | apps/ikigai/paths.c:202-229 | The counting pass finds exactly the occurrences that are rewritten |
| Paths.RewriteFits | apps/ikigai/paths.c:239-242 | The rewritten text never exceeds the computed size |
| Paths.NoOverlap | apps/ikigai/paths.c:203-229 | No URI starts inside another one or inside ik://system |
| PathWords.EverySchemeBecomes | apps/ikigai/paths.c:168-293 | Every ik:// of a text, wherever it stands: behind a letter, a digit or an underscore it is copied; otherwise it becomes the system directory if the first part of its path is "system", and else the state directory, with a slash where neither side has one |
| PathWords.SchemeBecomes | apps/ikigai/paths.c:240-292 | The same for the translation from that position on |
| PathWords.RestIsCopied | apps/ikigai/paths.c:240-250 | Every other character is copied |
| PathWords.WordsAreLeftAlone | apps/ikigai/paths.c:168-172 | A text whose every ik:// stands inside a word is left alone |
| PathWords.WordCharacters | apps/ikigai/paths.c:168-172 | Word characters are the letters of both cases, the digits and the underscore |
| PathBuffer.PathToUri | apps/ikigai/paths.c:301-420 | In a buffer of the size computed from the counts the reverse translator computes the one-pass restoring (state directory first at equal position, a slash behind it dropped, a slash behind the system directory kept) exactly when result and terminator fit; otherwise it would write beyond the buffer |
| PathBuffer.CountPaths | apps/ikigai/paths.c:328-348 | The counting pass counts the matches that follow one another in the text, of either kind |
| PathBuffer.PassesAgree | apps/ikigai/paths.c:405-412 | The build pass makes the matches that were counted if and only if no directory starts at a slash that stands right behind a match |
| PathBuffer.UnjoinedFits | apps/ikigai/paths.c:359-365 | Where no two directories are joined like that the result and its terminator fit, for all directories and texts |
| PathBuffer.FitsExactly | apps/ikigai/paths.c:359-363 | They fit if and only if the matches made and the slashes dropped save as much as the counted matches were to save |
| PathBuffer.ResultLength | apps/ikigai/paths.c:397-412 | The length of the result, from the matches made and the slashes dropped |
| PathBuffer.JoinedOverruns | apps/ikigai/paths.c:405-412 | Concrete text, itself a forward translation: two directories joined by a slash give 19 places for 21 characters and the terminator |
| PathCollisions.StaysLost | apps/ikigai/paths.c:407-412 | What a match took too much of the text is never made up for later, if it names no scheme |
| PathCollisions.NothingSwallowed | apps/ikigai/paths.c:371-413 | With the data directory below the state directory, what a match took too little of the text is never swallowed later |
| PathRoundTrip.RoundTrip | apps/ikigai/paths.c:371-413 | path_to_uri(uri_to_path(t)) = t if and only if t is clean, for separate directories and for all normalised absolute ones, nested in either order or equal |
| PathRoundTrip.CleanReturns | apps/ikigai/paths.c:240-292 | For any directories, relative ones included, a clean text comes back |
| PathRoundTrip.SystemRootReturns | apps/ikigai/paths.c:380-382 | For all absolute directories: ik://system comes back if and only if the state directory does not stand at the start of the system path, or is the data directory itself |
| PathRoundTrip.ReturnsTogether | apps/ikigai/paths.c:383-412 | A state directory equal to the data directory hides no system URI |
| PathRoundTrip.BelowFails | apps/ikigai/paths.c:380-382 | A data directory further below the state directory hides every system URI |
| PathRoundTrip.InsideFails | apps/ikigai/paths.c:380-382 | A state directory below the system directory hides the system URIs whose tails complete it |
| PathTexts.PlainRoundTrip | apps/ikigai/paths.c:176-420 | For all absolute directories, every text in which no directory occurs, no generic tail starts with a slash, a foreign character stands before each URI and no system URI is hidden comes back |
| PathTexts.OverlapFails | apps/ikigai/paths.c:371-379 | Concrete text: tails without the state directory complete it together with the next URI, and the text does not come back |
| PathTexts.CrossingComesBack | apps/ikigai/paths.c:371-413 | Concrete text with a URI behind a tail that completes a state directory below the system directory: it is not clean and comes back |
| PathTexts.RootComesBack | apps/ikigai/paths.c:407-412 | Concrete directories: with the root for both, a text that is not clean comes back |
| History.HistoryIsTail | apps/ikigai/history.c:31-85 | After any stream of adds the history is the last capacity entries of the stream with empties removed and only last occurrences kept; no entry twice |
| History.LargerExtendsSmaller | apps/ikigai/history.c:31-85 | A larger history ends with the smaller one |
| History.LastOccurrencesIsExact | apps/ikigai/history.c:39-62 | That list holds each non-empty entry of the stream once |
| History.UpAndDown | apps/ikigai/history.c:119-161 | Going up shows the entries newest first, each step down shows the next newer one, and the last the input that was pending |
| History.HistoryList.Add | apps/ikigai/history.c:31-85 | Search, shift and append in the array; browsing ends |
| History.HistoryList.Prev | apps/ikigai/history.c:119-132 | One entry older, or nothing |
| History.HistoryList.Next | apps/ikigai/history.c:134-161 | One entry newer, then the input, then nothing |
| History.HistoryList.GetCurrent | apps/ikigai/history.c:177-188 | Entry at the index, or the input |
| LayerCake.Cake.Render | apps/ikigai/layer.c:144-189 | The output is exactly the viewport rows of the stacked visible layers; early exit loses nothing |
| LayerCake.Cake.RenderPart | apps/ikigai/layer.c:163-181 | Clipping without going below zero, within the rows of the layer |
| LayerCake.Cake.TotalHeight | apps/ikigai/layer.c:129-141 | The height of the stack |
| LayerCake.StackGrows | apps/ikigai/layer.c:129-141 | Layers stand below each other in order; an invisible one takes no room |
| LayerCake.WindowRows | apps/ikigai/layer.c:144-189 | The viewport holds its height of rows from its first row on, or as many as there are |
| LayerCake.WindowGrows | apps/ikigai/layer.c:160-178 | A taller stack shows the old window and the clipped part of the new layer |
| LayerCake.RenderStops | apps/ikigai/layer.c:184-187 | Once the viewport is full nothing below it shows |
| LayerCake.OutputBuffer.Append | apps/ikigai/layer.c:30-58 | Growing buffer: appended behind what was there |
| KeyInject.EscapeRoundTrip | apps/ikigai/pp_helpers.c:62-82 | Unescaping what the printer escapes gives the bytes back if and only if they hold no double quote |
| KeyInject.BackLength | apps/ikigai/pp_helpers.c:72-73 | Each double quote comes back with one byte too many |
| KeyInject.Unescape | apps/ikigai/key_inject.c:100-104 | Never longer than its input |
| KeyInject.UnescapeKeys | apps/ikigai/key_inject.c:93-166 | The two-index loop computes the unescaping inside an array as long as the input |
| KeyInject.OneKey | apps/ikigai/key_inject.c:110-158 | All escapes, and the backslash that starts none |
| KeyInject.PrintEscaped | apps/ikigai/pp_helpers.c:62-82 | The loop prints the escape of each byte |
| KeyInject.HexReads | apps/ikigai/key_inject.c:130-148 | A hexadecimal escape stands for its byte, in lower or upper case |
| KeyInject.LettersRead | apps/ikigai/key_inject.c:110-158 | The escapes by letter, and a backslash in front of anything else |
| KeyInject.PrintedAs | apps/ikigai/pp_helpers.c:62-82 | How newline, return, tab, backslash, quote and printable bytes are printed |
| KeyInject.InOrderOnce | apps/ikigai/key_inject.c:37-83 | Over any run of appends and drains the keys come out in order, each once |
| KeyInject.InjectBuffer.Append | apps/ikigai/key_inject.c:37-59 | Behind the keys still waiting, growing as needed |
| KeyInject.InjectBuffer.Drain | apps/ikigai/key_inject.c:61-83 | The oldest key, or none; positions reset when empty |
| KeyInject.InjectBuffer.Pending | apps/ikigai/key_inject.c:85-91 | How many keys wait |

## Left out

- PostgreSQL, libcurl, JSON, talloc, xkbcommon and the logger: the database is a mailbox with a
  notification queue or a set of rows, allocation always succeeds, shifted keys are a parameter.
- Completion hooks of internal tools: only the dead flags set by the kill tool and the child added by
  the fork tool are modelled.
- Failures that make the program panic, such as a tool thread that cannot be created.
- Integer widths: sizes and counts are unbounded, numbers in escape sequences do not overflow
  32 bits, and output sizes above 4 GiB are not truncated.
- A fan-in wait with timeout 0, which ends before it looks for mail, and the sleep between rounds.
- When a fan-in wait stops: the clock and the interrupt flag; every number of rounds is covered.
- PathRoundTrip.RoundTrip: nested directories are covered if they are normalised (absolute, no "//",
  no "ik:", the state directory not the root); for a state directory below the system directory also
  the text must be straight: no URI within or right behind a tail that completes the state directory.
  Without these an equivalence in these terms is false (`PathTexts.RootComesBack`,
  `PathTexts.CrossingComesBack`).
  PathRoundTrip.CleanReturns gives one direction for all directories.
- NULL arguments of the path translators and of the key buffer, which are refused before anything else.
- AgentRegistry.Registry.KillCascade: the failures up to and including the commit are one flag, because
  none of them touches memory.
- AgentRegistry.Registry.AddAgent: the capacity of the agent array is not modelled; the same growth is
  modelled for messages and for the output buffer.
- AgentRegistry.Registry.RemoveVictims: victims are always found, because a listing holds nobody
  twice, so the branch for an agent already removed is not modelled.
- Conversation.Find: marks are named by position where the program uses the mark's address.
- Dead agents below a living one and living agents below a dead one both occur, because the kill tool
  does not cascade; nothing is claimed about them beyond the invariant.
- The layout of the `/agents` lines, scrollback wrapping, the status line, spinner and colours.
- Token cache, templates, session restore, sibling navigation, completion, pins and tool filters.
