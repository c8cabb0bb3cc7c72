# Verified models of the gateway's durable work, bridge, peer store and fixtures

Dafny 4.11 models of the parts of the repository that keep state across crashes,
retries and rotations, or that transform data under a promise. Each operation
follows the code it cites, branch by branch; what the code works out by changing
fields or looping is a class or a loop here too, proved equal to a function, and the
promises are proved about that function over every input or every run.
`dafny verify dfyconfig.toml` checks the whole project.

A lemma whose name ends in `Say` or `Says` states what a function of the model answers
without using that function: over stored columns, list entries, characters or numbers.
So what an operation means does not rest on its own definition.

| file | models |
|---|---|
| `WorkTable.dfy`, `WorkStore.dfy` | the durable-work table, its transactions, and `SqliteWorkStore` in place |
| `WorkRuns.dfy` | all runs of those transactions: terminal once, nothing lost, fencing, attempt budget |
| `WorkRows.dfy` | what each of them does to the rows, column by column |
| `LeaseTiming.dfy` | handlers, heartbeats and renewals of several workers against one clock |
| `WorkerLoop.dfy` | one worker's loop with enqueuers, wake permit and shutdown interleaved |
| `ItemTask.dfy` | worker limits, handler registry, processing of one claimed item |
| `Outbox.dfy` | outbox statements, pushes, one tick of the retry loop |
| `Bridge.dfy` | pushers, sessions, replies, deletions and restarts interleaved over the outbox rows |
| `PendingRequests.dfy` | correlation of bridge requests with replies |
| `UrlPolicy.dfy` | peer origins and their resolutions |
| `Peers.dfy`, `PeerTokens.dfy` | the peer file's operations, and the life of one bearer token |
| `PeerEdits.dfy` | what each operation does to the peer file, entry by entry |
| `PeerRaces.dfy` | several processes that load, edit and replace the peer file without a lock |
| `TextOrder.dfy`, `JsonShape.dfy` | texts in code-point order, and the JSON shape sanitizer |
| `EventCounters.dfy` | event sequences and the counters kept beside them |
| `EnvVars.dfy` | the `${NAME}` rewriting loop |
| `GraphRepair.dfy` | the local graph repair |
| `Indenter.dfy` | the streaming indenter |
| `Recorder.dfy`, `Replay.dfy` | recording of a session and its replay |

## What the proofs found

Promises that hold only under a condition are proved with that condition exactly,
and with an input or a run on which they fail without it.

- Two workers can never run one item at once exactly when every handler starts so soon
  after the stamp of its claim that two heartbeats, or its timeout if that is shorter,
  still fit into the lease; the worker has no such bound
  (`LeaseTiming.ExclusiveExactlyWhenPromptlyStarted`).
- The worker's limits accept a lease with a sub-second part, which the store then
  refuses in every claim (`ItemTask.AcceptedLeaseIsClaimableIffWholeSeconds`).
- Rows are stranded inflight, with nobody left to reset them, exactly by a step that
  breaks off while rows are inflight and nobody else is at work for the adapter: a lost
  HelloAck, an aborted push, or one of the three resets failing
  (`Bridge.StrandsExactlyWhen`, `Bridge.NeverStrandedExactly`). Each of the five does
  strand a row in some run.
- `sent` is not final: a second pusher that had read the row marks it inflight again
  (`Bridge.SentIsNotFinal`; exactly when: `Bridge.SentLeavesExactlyBy`).
- An outbox row is gone exactly when a cleanup found it sent after its Ack, or the
  session it was inserted for was deleted, acknowledged or not
  (`Bridge.GoneExactlyWhen`, `Bridge.LostExactlyBySession`, `Bridge.PendingRowIsLost`).
  The cleanup has no caller but the tests.
- A retry tick ends with all of its rows inflight or none of the adapter's, exactly when
  every send of its last pass got through or the last one failed
  (`Outbox.AllOrNoneExactly`); otherwise it leaves a mixture (`Outbox.TickEndsMixed`).
- A failed peer-store operation leaves the file alone, except that a permission
  change that fails after the rename reports an error with the new file in place
  (`Peers.FailureLeavesFileExactlyUnless`).
- A clock set back can lock the peer file: four credentials of two rotations count as
  active together, and no operation loads the file (`Peers.ClockSetBackLocksFile`).
  No token is accepted then, however good (`PeerTokens.ClockSetBackShutsTokensOut`);
  exactly when one is: `PeerTokens.TokenWorksExactlyUntil`.
- Two processes can overwrite each other's edit of the peer file: a revocation that was
  answered with success is undone exactly by a write that had loaded the file before it
  (`PeerRaces.RevocationHoldsExactly`, `PeerRaces.RevocationIsLost`). What is left is
  always what some of the operations, one after another, would have left
  (`PeerRaces.LineageIsARun`).
- `${NAME}` rewriting never ends on a variable whose value names itself
  (`EnvVars.SelfReferenceNeverHalts`). It ends for all values exactly on templates in
  which it meets no reference that can have a value; the empty name never has one. And
  keeping one character out of the values makes it end on all templates exactly when
  that character is `$`, `{` or `}`, or every name that can have a value holds it
  (`EnvVars.HaltsForAllValuesExactly`, `EnvVars.HaltsWithoutExactlyMarks`). It differs
  from a single pass exactly when something left behind a `$` can become a reference
  (`EnvVars.RescanIsPassExactly`, `EnvVars.DollarMakesReference`).
- The repair's dry run does not count relationships of NULL type that it deletes
  (`GraphRepair.NullTypeIsNotCounted`). The tables the repository creates rule such rows
  out (`stores/zbot-engram-adapter/src/stores/knowledge_graph.rs:1139`); the tool checks
  the names of the tables only.
- A tool call in the middle of a line indents the rest of that line again
  (`Indenter.MarkerWithinLine`).
- The recorder groups replies by execution, so the replay in plain order is not the
  "original execution order" that e2e/mock_llm/replay.py:67-69 promises once an
  execution speaks again after another one (`Recorder.DelegationBreaksOrder`). The
  code is followed here, not that comment.

## Assumptions stated in the models

- One clock for all workers. In `LeaseTiming` a due heartbeat is taken when it is due,
  a renewal is abandoned when its budget is spent, the deadline ends either wait, and
  an abort takes no time; a renewal
  may reach the store long after the worker gave up on it. That no handler runs longer
  than its timeout is that assumption read back; exclusion and lease cover are not.
- Ids, lease tokens, request ids, credential ids and token hashes are fresh when
  drawn. `PeerTokens.FreshDraws` says so; the other runs carry it in their steps.
- The peer file is replaced in one step (a rename), so a load sees one whole version.
  In `Peers` and `PeerTokens` operations follow one another; `PeerRaces` lets them
  overlap and reduces what is left to such a sequence.
- Which names can hold an environment value is a parameter of `EnvVars`, for any set of
  names: the empty name, names with a NUL and, on some platforms, names with a `=`
  cannot.
- Which sessions a deletion takes along (descendants and continuations) is a parameter
  of `Bridge.DropSessions`, as any set of session ids.
- `UrlPolicy.ParsesWhatItPrints`: the URL parser reads an origin it was printed from
  back to the same scheme, host and port. `UrlPolicy.SomeParserPrintsBack` shows that
  the assumption can be met.
- JSON text, hashing and URL, IP and time parsing are parameters or stored facts.
  `JsonShape.ShapeOf` sorts item shapes by an arbitrary text of each shape; when the
  text determines the shape the arrangement is the only sorted one
  (`TextOrder.ArrangeIsTheSortedOrder`).
- "Due for retry" is an arbitrary predicate of a row, because
  gateway/gateway-bridge/src/outbox.rs:193 and :262 compare two different text forms
  of a time.
- `EnvVars.ResolveEnvVars` requires that the rewriting stops at all. The code requires
  nothing and loops for ever otherwise; the precondition is exactly termination.
- Session rows have unique ids (primary key) in `EventCounters`.

## Model

| member | source | states |
|---|---|---|
| `WorkTable.FirstExistsAndIsUnique` | services/execution-state/src/work.rs:1135-1242 | whenever a row is claimable, the claim order (priority, availability, creation, id) names exactly one first row |
| `WorkStore.SqliteWorkStore.EnqueueWork` | services/execution-state/src/work.rs:891-953 | inserts unless id or dedupe key conflicts; on a conflict answers with the row the key names, or StoredDataInvalid if that does not decode, or StorageUnavailable if there is none; a fault changes nothing |
| `WorkStore.SqliteWorkStore.RecoverInPlace` | services/execution-state/src/work.rs:1479-1557 | the pass over leased rows rewrites the whole table as the per-row rule says, and counts exactly what it requeued and dead-lettered |
| `WorkStore.SqliteWorkStore.RecoverExpired` | services/execution-state/src/work.rs:1412-1430 | recovery of a valid target, all or nothing, with its two counts; which error otherwise |
| `WorkStore.SqliteWorkStore.ClaimNextCancellable` | services/execution-state/src/work.rs:1135-1242 | recovers, leases the first candidate (which one that is: `WorkRows.ClaimGrantsTheFirst`) or discards a damaged one, or reports that there is none; nothing changes when cancelled, refused or faulted; the answered row is leased to the caller |
| `WorkStore.SqliteWorkStore.RenewLease` | services/execution-state/src/work.rs:1243-1288 | extends exactly the unexpired lease of the presented id, owner and token, else StaleLease and no change |
| `WorkStore.SqliteWorkStore.CompleteWork` | services/execution-state/src/work.rs:1289-1333 | completes under the same fence, else StaleLease and no change |
| `WorkStore.SqliteWorkStore.FailWork` | services/execution-state/src/work.rs:1334-1411 | requeues with backoff or dead-letters (which of the two, and until when: `WorkRows.FailureSays`) under the same fence, else StaleLease and no change |
| `WorkStore.SqliteWorkStore.CancelScoped` | services/execution-state/src/work.rs:1046-1118 | cancels the only row in scope when it is pending or leased; NotFound, AlreadyCanceled, NotCancelable and each error exactly when |
| `WorkRows.EnqueueSays` | services/execution-state/src/work.rs:891-953 | the row stored for a new item, column by column, and nothing when its id, or its key within its source, is taken |
| `WorkRows.ClaimGrantsTheFirst` | services/execution-state/src/work.rs:1167 | of all claimable rows after the recovery, none has a higher priority than the granted one; none equal in that was available earlier; none equal in both is older; none equal in all three has a smaller id |
| `WorkRows.GrantSays` | services/execution-state/src/work.rs:1135-1242 | the granted row is leased to the caller for exactly the lease asked for, with one attempt more, and no other row changes but by the recovery |
| `WorkRows.NoGrantSays` | services/execution-state/src/work.rs:1135-1242 | a claim that grants nothing found nothing claimable, or dead-letters a damaged row |
| `WorkRows.FailureSays` | services/execution-state/src/work.rs:1362-1367 | a failure by the holder requeues exactly when retryable with attempts left, claimable exactly after 1, 2, 4, ... at most 300 seconds; else dead-letters; the code is recorded |
| `WorkRows.CancellationSays` | services/execution-state/src/work.rs:1046-1118 | the only item of that source, kind, actor and correlation becomes canceled when it is pending or leased; nothing else changes |
| `WorkRows.CancelAnswersSay` | services/execution-state/src/work.rs:1046-1118 | the answer for none, for several, and for the one item by the state it is in |
| `WorkRuns.TerminalIsFinal` | services/execution-state/src/work.rs:1046-1557 | over every run, a completed, dead-lettered or canceled row never changes again |
| `WorkRuns.EndsAtMostOnce` | gateway/gateway-bus/src/worker.rs:820-1094 | an item ends at most once in any interleaving of workers, crashes and recoveries |
| `WorkRuns.CompletedExactlyByHolder` | services/execution-state/src/work.rs:1289-1333 | an item becomes completed exactly by a complete call of the holder of its unexpired lease |
| `WorkRuns.NothingIsLost` | services/execution-state/src/work.rs:880-1557 | an enqueued item stays in the table, in exactly one status, with its envelope unchanged |
| `WorkRuns.NothingIsInvented` | services/execution-state/src/work.rs:891-953 | every item present was enqueued with exactly its envelope |
| `WorkRuns.LostTokenIsDead` | services/execution-state/src/work.rs:1243-1411 | a token once off a row never returns, and calls presenting it change nothing |
| `WorkRuns.RecoveredHolderIsFenced` | gateway/gateway-bus/src/worker.rs:820-1094 | once a recovery or a claim of the target found its lease expired, a worker can no longer change the item |
| `WorkRuns.GoodForever` | services/execution-state/src/work.rs:1892-1920 | every run keeps every stored row decodable and consistent, and one token on at most one row |
| `WorkRuns.DedupeForever` | services/execution-state/src/work.rs:891-953 | no run stores two items of one source under one dedupe key |
| `WorkRuns.AttemptsCountGrants` | services/execution-state/src/work.rs:1135-1242 | the attempts of a row count exactly the claims that granted it |
| `WorkRuns.HandedOutWithinBudget` | services/execution-state/src/work.rs:1135-1242 | an item is handed out at most its maximum number of attempts, over all crashes and recoveries |
| `WorkRuns.EmptyClaimMeansDrained` | services/execution-state/src/work.rs:1135-1242 | an empty claim leaves neither a claimable row nor an expired lease of its target |
| `LeaseTiming.SafeForever` | gateway/gateway-bus/src/worker.rs:896-1003 | with prompt starts (`startDelay + min(2 * heartbeat, timeout) < lease`), at every instant no two handlers run for one item, a running handler's lease is unexpired, and none runs longer than its timeout |
| `LeaseTiming.LateStartRun` | gateway/gateway-bus/src/worker.rs:820-1003 | without that bound there is a run in which two workers run one item at once |
| `LeaseTiming.ExclusiveExactlyWhenPromptlyStarted` | gateway/gateway-bus/src/worker.rs:422-428 | exclusion over all runs holds if and only if starts are prompt in that sense |
| `ItemTask.AcceptedLimitsLeaveAStartWindow` | gateway/gateway-bus/src/worker.rs:403-443 | every accepted configuration leaves a start window in which exclusion holds, and exactly how wide it is |
| `ItemTask.AcceptedLeaseIsClaimableIffWholeSeconds` | services/execution-state/src/work.rs:1439-1462 | an accepted lease can be claimed with exactly when it is a whole number of seconds; 1.5 s is accepted and cannot |
| `ItemTask.FromHandlers` | gateway/gateway-bus/src/worker.rs:313-331 | the registry exists exactly when all keys are valid and none repeats, and maps each key to its handler; else the first offender's error |
| `ItemTask.KeysSay` | gateway/gateway-bus/src/worker.rs:313-331 | a key is valid exactly when both texts have 1 to 128 units and none of the 25 white-space characters |
| `ItemTask.RegistrySays` | gateway/gateway-bus/src/worker.rs:313-331 | which error the first key that cannot be added gets, and that there is one exactly when the keys up to it cannot be registered |
| `ItemTask.ProcessItem` | gateway/gateway-bus/src/worker.rs:820-1046 | the select loop performs exactly the actions of the recursive specification for every sequence of signals; recorded completed exactly when the handler finished, failed for good exactly when it gave up, failed for now exactly when it asks for that, panicked or was too late, each with its code; and the code for each refusal of the gate |
| `ItemTask.LogIs` | gateway/gateway-bus/src/worker.rs:840-1044 | the whole log: spawn, one renewal per heartbeat that succeeds, and then what the first other signal calls for |
| `ItemTask.AtMostOneWriteAfterTheHandler` | gateway/gateway-bus/src/worker.rs:840-1094 | at most one terminal write, last, with the claim's own token, and never while the handler runs |
| `ItemTask.WriteExactlyWhenNotAbandoned` | gateway/gateway-bus/src/worker.rs:892-1044 | an admitted item gets its write exactly when the handler ended or met its deadline outside a renewal |
| `WorkerLoop.LoopDiscipline` | gateway/gateway-bus/src/worker.rs:577-787 | in every state of every run: active tasks within the concurrency, a shutdown that aborts a claim in flight never settles, nothing active at the end |
| `WorkerLoop.ClaimFollowsRecovery` | gateway/gateway-bus/src/worker.rs:596-655 | a claim is called for only after a recovery that succeeded since the last claim that came back empty, failed or was cancelled |
| `WorkerLoop.NoLateCommit` | gateway/gateway-bus/src/worker.rs:646-681 | no claim commits after the shutdown settled |
| `WorkerLoop.ClaimedIsDispatched` | gateway/gateway-bus/src/worker.rs:683-693 | an item that a claim handed over is still in hand or was spawned, unless the shutdown was signalled by then |
| `WorkerLoop.DispatchedWasClaimedInTime` | gateway/gateway-bus/src/worker.rs:683-693 | an item is spawned only if a claim handed it over before the shutdown was signalled |
| `WorkerLoop.SomeItemIsDispatched` | gateway/gateway-bus/src/worker.rs:577-693 | whatever the configuration, some run recovers, claims and spawns a task |
| `WorkerLoop.NoLostWakeup` | gateway/gateway-bus/src/work.rs:49-171 | while the worker idles, every fresh claimable item has its publish still to come or the wake permit set |
| `Outbox.WhereKeepsExactly` | gateway/gateway-bridge/src/outbox.rs:81-100 | a query returns exactly the rows that match, each once |
| `Outbox.WhereKeepsOrder` | gateway/gateway-bridge/src/outbox.rs:81-100 | a query's rows come in the order of creation |
| `Outbox.PushSingleItem` | gateway/gateway-bridge/src/push.rs:32-69 | one push: unparseable skipped, marked before the send, all inflight rows of the adapter reset when the send fails |
| `Outbox.PushItems` | gateway/gateway-bridge/src/push.rs:26-28 | the loop's whole effect on the table and the channel: which sends failed is what the link answered |
| `Outbox.PushedRow` | gateway/gateway-bridge/src/push.rs:47-68 | a pushed row ends inflight exactly when its own send and all later ones got through, else pending |
| `Outbox.ForeignRow` | gateway/gateway-bridge/src/outbox.rs:209-221 | rows of other adapters are untouched by a pass |
| `Outbox.PushQuery` | gateway/gateway-bridge/src/push.rs:13-29 | fetching and pushing a query's rows has the whole effect of one pass |
| `Outbox.RetryTick` | gateway/gateway-bridge/src/push.rs:84-99 | the tick performs the two passes: the due failures, then everything unacknowledged; an id of the table is sent exactly when its row is the adapter's, parses, and is pending, inflight, or failed, due and failed less than five times |
| `Outbox.RowAfterTick` | gateway/gateway-bridge/src/push.rs:47-99 | how every row of the table ends, by the numbers of the sends that got through; rows that do not parse and other adapters' rows included |
| `Outbox.EveryEligibleIsSent` | gateway/gateway-bridge/src/push.rs:84-99 | every pending, inflight or due failed row with fewer than five failures that parses is sent at least once |
| `Outbox.TickSendsExactly` | gateway/gateway-bridge/src/outbox.rs:253-268 | which ids a tick sends, over the columns of the rows |
| `Outbox.UnsentIsUnmarked` | gateway/gateway-bridge/src/push.rs:84-99 | a row that is not to be sent is left alone, but for a reset if it was inflight |
| `Outbox.SentIsMarked` | gateway/gateway-bridge/src/push.rs:47-68 | a row that is sent ends inflight with the time of the tick, or pending without one, and is otherwise as before |
| `Outbox.AllInflightExactly` | gateway/gateway-bridge/src/push.rs:26-29 | all of them end inflight exactly when every send of the last pass got through |
| `Outbox.NoneInflightExactly` | gateway/gateway-bridge/src/push.rs:59-68 | no row of the adapter ends inflight exactly when the last send failed, or nothing was sent and none was before |
| `Outbox.AllOrNoneExactly` | gateway/gateway-bridge/src/push.rs:84-99 | the tick ends all or none exactly when every send of the last pass got through or the last one failed |
| `Outbox.TickEndsMixed` | gateway/gateway-bridge/src/push.rs:84-99 | a table of two rows and a link that end mixed |
| `Bridge.StrandsExactlyWhen` | gateway/gateway-bridge/src/handler.rs:268-276 | a step strands rows of an adapter exactly when it is one of the five breaks, rows are inflight and nobody else will reset them |
| `Bridge.StrandedExactlySinceBreak` | gateway/gateway-bridge/src/push.rs:47-68 | in every reachable state rows are stranded exactly when a break stranded them and they have been since |
| `Bridge.NeverStrandedExactly` | gateway/gateway-bridge/src/handler.rs:268-276 | no row is ever stranded in a run exactly when none of its steps is such a break |
| `Bridge.NoRowIsStranded` | gateway/gateway-bridge/src/handler.rs:268-276 | with no open session and no push in mid-row, and no break for the adapter so far, none of its rows is inflight |
| `Bridge.LostHelloAckStrands` | gateway/gateway-bridge/src/handler.rs:147-161 | a run in which a lost HelloAck strands a row |
| `Bridge.AbortedPushStrands` | gateway/gateway-bridge/src/push.rs:47-59 | a run in which a push aborted between mark and send strands a row |
| `Bridge.UnresetPushStrands` | gateway/gateway-bridge/src/push.rs:59-68 | a run in which a failed send with a failed reset strands a row |
| `Bridge.UnresetCloseStrands` | gateway/gateway-bridge/src/handler.rs:268-276 | a run in which the reset at the end of a session fails and strands a row |
| `Bridge.UnresetRestartStrands` | gateway/src/server.rs:117 | a run in which the reset at start-up fails and strands a row |
| `Bridge.SentLeavesExactlyBy` | gateway/gateway-bridge/src/outbox.rs:157-206 | a stored sent row leaves `sent` exactly by a pusher marking it or a Fail for it |
| `Bridge.SentIsNotFinal` | gateway/gateway-bridge/src/outbox.rs:157-168 | a run in which an acknowledged row becomes inflight again |
| `Bridge.EventsSay` | gateway/gateway-bridge/src/outbox.rs:157-250 | what each event does to each stored row, column by column |
| `Bridge.RowsKeepTheirHistory` | gateway/gateway-bridge/src/outbox.rs:46-250 | inserted columns never change, retry_count counts the Fail replies, sent_at agrees with the status, sent rows were acknowledged |
| `Bridge.GoneExactlyWhen` | services/execution-state/src/repository.rs:1058-1120 | an inserted row is gone exactly when a cleanup found it sent after an Ack for it, or its session was deleted while it was stored |
| `Bridge.LostExactlyBySession` | services/execution-state/src/repository.rs:1100-1118 | a row that was never acknowledged is gone exactly when the session it was inserted for was deleted |
| `Bridge.PendingRowIsLost` | gateway/src/http/sessions.rs:180-190 | a run in which a pending row, never sent or acknowledged, disappears with its session |
| `PendingRequests.PendingMap.RegisterRequest` | gateway/gateway-bridge/src/pending_requests.rs:28-34 | a new receiver waits under the id; one that waited there before is dropped |
| `PendingRequests.PendingMap.ResolveRequest` | gateway/gateway-bridge/src/pending_requests.rs:36-45 | true exactly when an entry was there; it leaves with its answer |
| `PendingRequests.PendingMap.RejectRequest` | gateway/gateway-bridge/src/pending_requests.rs:47-56 | true exactly when an entry was there; it leaves with its refusal |
| `PendingRequests.PendingMap.CancelEverything` | gateway/gateway-bridge/src/pending_requests.rs:58-64 | the drain empties the map and cancels every waiting receiver |
| `PendingRequests.ExactlyOnce` | gateway/gateway-bridge/src/pending_requests.rs:28-64 | in every order of operations a receiver has no outcome exactly while it waits, and an outcome never changes |
| `PendingRequests.DeliveredExactly` | gateway/gateway-bridge/src/pending_requests.rs:28-64 | over a run, a receiver has an outcome exactly when an operation that means that outcome met it waiting: its own data or reason, a disconnect, or its id registered again |
| `PendingRequests.EntryLeavesExactlyBy` | gateway/gateway-bridge/src/pending_requests.rs:28-64 | an entry leaves in a step exactly by a reply, a rejection or a disconnect for it |
| `PendingRequests.EntryStaysExactlyUntilAnswered` | gateway/gateway-bridge/src/provider.rs:88-122 | over a run, a request's entry is in the map exactly until something answers it; so a failed send leaves it behind |
| `PendingRequests.DroppedExactlyByReuse` | gateway/gateway-bridge/src/pending_requests.rs:28-34 | a receiver is dropped without an answer exactly when its id is registered again |
| `UrlPolicy.OriginRevalidatesToItself` | gateway/gateway-a2a/src/url_policy.rs:94-147 | a stored origin validates again to the very same origin |
| `UrlPolicy.RebindAcceptedExactlyWhenSame` | gateway/gateway-a2a/src/url_policy.rs:59-91 | a later resolution is accepted exactly when it names the same addresses, none prohibited but a configured loopback |
| `Peers.ValidatesExactly` | gateway/gateway-a2a/src/peers.rs:463-508 | the first-error scan accepts exactly the files all of whose peers are in order |
| `Peers.PeerStore.StoreFile` | gateway/gateway-a2a/src/peers.rs:319-333 | validates, then replaces the file; which failures leave the old file |
| `Peers.PeerStore.IssueCredential` | gateway/gateway-a2a/src/peers.rs:177-220 | new file and answer for every request, file, clock and file-system behaviour; the credential answered expires exactly the days asked for, 90 if none, after it was issued |
| `Peers.PeerStore.AddPeer` | gateway/gateway-a2a/src/peers.rs:222-261 | likewise, updating in place or appending |
| `Peers.PeerStore.RemovePeer` | gateway/gateway-a2a/src/peers.rs:263-271 | likewise, or PeerNotFound |
| `Peers.PeerStore.RevokeCredential` | gateway/gateway-a2a/src/peers.rs:273-292 | likewise, stamping the first credential with the id |
| `PeerEdits.IssueSays` | gateway/gateway-a2a/src/peers.rs:177-220 | one credential with the lifetime asked for, 90 days if none was, goes to the named peer, which is appended first if it is new |
| `PeerEdits.AddSays` | gateway/gateway-a2a/src/peers.rs:222-261 | the fields of the named peer after an add; its credentials stay |
| `PeerEdits.RemoveSays` | gateway/gateway-a2a/src/peers.rs:263-271 | the list without the entry of that peer, in its order |
| `PeerEdits.EditRefusalsSay` | gateway/gateway-a2a/src/peers.rs:177-292 | each refusal of an edit over the entries of the list: 256 peers, two active credentials, an unknown peer or credential |
| `PeerEdits.ActiveSays` | gateway/gateway-a2a/src/peers.rs:489-496 | the active count is the number of places with a credential neither revoked nor run out |
| `PeerEdits.FaultsSay` | gateway/gateway-a2a/src/peers.rs:294-333 | what each failure of the file system turns the answer and the file into |
| `Peers.FailureLeavesFileExactlyUnless` | gateway/gateway-a2a/src/peers.rs:319-333 | a failed operation leaves the file unchanged, unless only the final permission change failed |
| `Peers.EditPeerByPeer` | gateway/gateway-a2a/src/peers.rs:177-292 | an edit keeps nodes unique and the cap, touches only the named peer, and what becomes of it |
| `Peers.EveryFileReloads` | gateway/gateway-a2a/src/peers.rs:294-333 | over every run on a nondecreasing clock, read anew for every credential, the file loads on all later readings, with unique nodes, at most 256 peers, valid origins, and two active credentials each from then on |
| `Peers.LoadsExactlyWithinCap` | gateway/gateway-a2a/src/peers.rs:463-508 | on any clock a written file loads exactly when no peer shows more than two active credentials, and is refused for nothing else |
| `Peers.ClockSetBackLocksFile` | gateway/gateway-a2a/src/peers.rs:489-496 | a run of four issues after which the file does not load at an earlier clock |
| `Peers.AddSucceedsExactly` | gateway/gateway-a2a/src/peers.rs:222-261 | adding succeeds exactly for well-formed requests with room |
| `Peers.IssueSucceedsExactly` | gateway/gateway-a2a/src/peers.rs:177-220 | issuing succeeds exactly for well-formed requests with room, a lifetime of 1 to 365 days and fewer than two active credentials |
| `PeerTokens.CollectsAll` | gateway/gateway-a2a/src/peers.rs:337-346 | the snapshot map holds exactly the peers of the file, by node |
| `PeerTokens.PeerMatches` | gateway/gateway-a2a/src/peers.rs:374-383 | the fold without short circuit says whether some active credential matches |
| `PeerTokens.Authenticate` | gateway/gateway-a2a/src/peers.rs:370-393 | a peer is returned exactly when precisely one accepts the token, and it is that one, in any visiting order |
| `PeerTokens.TokenWorksExactlyUntil` | gateway/src/http/a2a.rs:322-329 | over every run and on any clock: authentication answers an error exactly while some peer shows too many active credentials; else an issued token is accepted by its own peer and no other, exactly until the days asked for, 90 if none, are over, or its revocation or the removal of its peer |
| `PeerTokens.TokenWorksOnForwardClock` | gateway/gateway-a2a/src/peers.rs:177-292 | on a clock that runs forward the error never occurs |
| `PeerTokens.ClockSetBackShutsTokensOut` | gateway/gateway-a2a/src/peers.rs:489-496 | a run of four issues after which, on the earlier clock, all four tokens are unexpired and none is accepted |
| `PeerRaces.LineageIsARun` | gateway/gateway-a2a/src/peers.rs:294-333 | however loads and stores of several processes interleave, the file is what the calls it goes back to leave behind when made one after another |
| `PeerRaces.SurvivesExactlyUnlessStale` | gateway/gateway-a2a/src/peers.rs:263-333 | a write is still in effect exactly when no write the file goes back to came after it having loaded the file before it |
| `PeerRaces.NothingLostExactly` | gateway/gateway-a2a/src/peers.rs:263-333 | no write is lost exactly when each had loaded the version before it |
| `PeerRaces.RacedFileReloads` | gateway/gateway-a2a/src/peers.rs:294-333 | in every interleaving on a forward clock each file written loads on all later readings, with unique nodes and both caps |
| `PeerRaces.RacedHoldersExactly` | gateway/gateway-a2a/src/peers.rs:370-393 | in every interleaving a token is held by its own peer alone, exactly while its issue is in effect, it has not run out, and no write in effect after it ends it |
| `PeerRaces.RacedAdmitsExactly` | gateway/gateway-a2a/src/peers.rs:337-346 | in every interleaving the file is refused for too many active credentials only, and else those peers are accepted |
| `PeerRaces.RevocationHoldsExactly` | gateway/gateway-a2a/src/peers.rs:273-292 | a revocation keeps the token out exactly unless a write that had not seen it came later |
| `PeerRaces.RevocationIsLost` | gateway/gateway-a2a/src/peers.rs:273-292 | an interleaving in which a revocation succeeds and the token works again afterwards |
| `TextOrder.ArrangeIsTheSortedOrder` | scripts/rig_parity_baseline.py:503 | the arrangement is the only sorted order of the shapes |
| `JsonShape.SameShapeIffSimilar` | scripts/rig_parity_baseline.py:496-519 | equal shapes exactly for values equal up to list order and leaves of the same type and length bucket |
| `JsonShape.LeafIsWritten` | scripts/rig_parity_baseline.py:496-519 | the length that is bucketed is that of the value's ASCII-only JSON text, escapes and surrogate pairs written out |
| `JsonShape.ListKindsSay` | scripts/rig_parity_baseline.py:496-519 | a list's shape counts its items by kind |
| `JsonShape.ListItemsSay` | scripts/rig_parity_baseline.py:496-519 | a list's shape holds its items' shapes, sorted |
| `JsonShape.ObjectsSay` | scripts/rig_parity_baseline.py:496-519 | an object's shape lists its keys once each, sorted, and counts its values by the kinds that occur |
| `JsonShape.AllowedExactly` | scripts/rig_parity_baseline.py:481-493 | key validation passes exactly when every key at every depth is allowed |
| `JsonShape.ShapeRevealsKeysOnly` | scripts/rig_parity_baseline.py:496-519 | the texts in a shape are exactly the keys of the value |
| `JsonShape.PublicExactlyWhenValidated` | scripts/rig_parity_baseline.py:469-519 | validation of a column passes exactly when the shape is of the column's kind and shows allowed keys only |
| `EventCounters.CountSessions` | scripts/rig_parity_baseline.py:596-611 | openings logged, endings noted, each counter exact |
| `EventCounters.CountMessage` | scripts/rig_parity_baseline.py:617-640 | one message appends exactly its events and its tool tally, a bare tool message counting as one result |
| `EventCounters.MessagesSay` | scripts/rig_parity_baseline.py:617-640 | how often each variant occurs among one message's events, and which come first and last |
| `EventCounters.CountMessages` | scripts/rig_parity_baseline.py:613-640 | each session gets exactly its own messages' events in order, with its tallies |
| `EventCounters.CountPairs` | scripts/rig_parity_baseline.py:642-649 | balanced and unbalanced partition the sessions with messages |
| `EventCounters.CountExecutions` | scripts/rig_parity_baseline.py:651-665 | executions raise the counters by exactly their own events |
| `EventCounters.ExecutionsSay` | scripts/rig_parity_baseline.py:651-665 | how often each variant is counted for one execution |
| `EventCounters.AppendEndings` | scripts/rig_parity_baseline.py:667-668 | each noted ending is appended to its session |
| `EventCounters.BuildEventSignatures` | scripts/rig_parity_baseline.py:588-679 | each counter is the number of occurrences over all sequences plus what executions add; balanced is judged on the sequences themselves |
| `EventCounters.EndsOnceAndLast` | scripts/rig_parity_baseline.py:596-668 | a final event occurs exactly last and exactly for final statuses; an opening exactly first |
| `EventCounters.ExecutionsCountOnly` | scripts/rig_parity_baseline.py:651-665 | executions add to four variants only, so all other counters are occurrence counts |
| `EnvVars.ResolveEnvVars` | gateway/gateway-bridge/src/plugin_config.rs:201-219 | the loop ends in the text at which the rewriting stops |
| `EnvVars.StopIsUnique` | gateway/gateway-bridge/src/plugin_config.rs:201-219 | that text is unique and final |
| `EnvVars.StopsExactlyWithoutRefs` | gateway/gateway-bridge/src/plugin_config.rs:204-217 | the loop stops exactly when no closed reference is left |
| `EnvVars.HaltsWithoutMark` | gateway/gateway-bridge/src/plugin_config.rs:204-217 | it ends when one of `$`, `{`, `}` occurs in no value, within as many turns as the template has such marks |
| `EnvVars.SelfReferenceNeverHalts` | gateway/gateway-bridge/src/plugin_config.rs:204-217 | it never ends on a variable whose value is its own reference |
| `EnvVars.HaltsForAllValuesExactly` | gateway/gateway-bridge/src/plugin_config.rs:204-217 | it ends whatever the values are exactly on templates in which, erasing references without a possible value, it meets none that can have one |
| `EnvVars.HaltsWithoutExactlyMarks` | gateway/gateway-bridge/src/plugin_config.rs:204-217 | keeping a character out of the values makes it end on every template exactly for the three marks, or when every name that can be spelled and have a value holds it |
| `EnvVars.RescanIsPassExactly` | gateway/gateway-bridge/src/plugin_config.rs:201-219 | for values without `$` it ends, and agrees with a single pass for all of them exactly when no value, and no `{` with a later `}`, comes behind a `$` over references that have none |
| `EnvVars.DollarMakesReference` | gateway/gateway-bridge/src/plugin_config.rs:201-219 | a template and environment on which the loop's result and the single pass differ |
| `EnvVars.NamelessReferences` | gateway/gateway-bridge/src/plugin_config.rs:206-207 | `${}` always ends, `$${}` agrees with the pass, `$${}{}` does not |
| `GraphRepair.Database.CountRelationships` | tools/engram_local_graph_repair.py:101-117 | counts the rows its WHERE clause selects, NULL selected by neither IN nor NOT IN |
| `GraphRepair.CountsSay` | tools/engram_local_graph_repair.py:97-117 | the three numbers of a report as sizes of sets of rows |
| `GraphRepair.UnknownSays` | tools/engram_local_graph_repair.py:73-74 | an entity is unknown exactly when its type is that word in either case, between any number of blanks |
| `GraphRepair.Database.RelationshipUnknownEntityIds` | tools/engram_local_graph_repair.py:77-90 | the ids of unknown entities that some relationship mentions |
| `GraphRepair.Database.DeleteRelationships` | tools/engram_local_graph_repair.py:120-130 | deletes exactly the selected rows and counts them |
| `GraphRepair.Database.DeleteUnknownEntities` | tools/engram_local_graph_repair.py:133-140 | deletes exactly the listed unknown entities and counts them |
| `GraphRepair.Database.RepairDatabase` | tools/engram_local_graph_repair.py:38-63 | a dry run or a failure changes nothing, success leaves the repaired graph, and the report is exact |
| `GraphRepair.EntitySurvivesExactly` | tools/engram_local_graph_repair.py:51-58 | an entity survives exactly when it is not unknown or nothing mentions it |
| `GraphRepair.RelationshipSurvivesExactly` | tools/engram_local_graph_repair.py:56-57 | a relationship survives exactly when its type is in the vocabulary or NULL and no end is unknown |
| `GraphRepair.ReferencesSurvive` | tools/engram_local_graph_repair.py:51-58 | no surviving relationship loses an end |
| `GraphRepair.DryRunExactlyWithoutNulls` | tools/engram_local_graph_repair.py:43-63 | deletions are the counted ones plus the untyped ones; the counts are exact if and only if there are none of those |
| `GraphRepair.NullTypeIsNotCounted` | tools/engram_local_graph_repair.py:101-117 | a graph on which the dry run counts nothing and the repair deletes |
| `GraphRepair.SecondRepairDoesNothing` | tools/engram_local_graph_repair.py:38-63 | repairing twice is repairing once, and the second dry run counts nothing |
| `Indenter.Turn.WriteDelta` | apps/cli/src/stream.rs:66-84 | the nested loop writes what the character-wise specification says, for any cut of the text |
| `Indenter.Turn.RunTurn` | apps/cli/src/stream.rs:58-132 | the output of a turn is that of the messages heard, with a newline after any text |
| `Indenter.ToolCallIndentsAgain` | apps/cli/src/stream.rs:66-94 | text, a tool call and text, written out for every indentation |
| `Indenter.StreamIsWholeExactly` | apps/cli/src/stream.rs:66-94 | the stream equals the whole text indented line by line exactly when nothing is indented or no tool call falls within a line |
| `Indenter.StreamedLength` | apps/cli/src/stream.rs:66-94 | every tool call within a line costs exactly one more indentation |
| `Indenter.CutsDoNotMatter` | apps/cli/src/stream.rs:66-84 | without tool calls the output depends on the text alone |
| `Indenter.UnindentRecovers` | apps/cli/src/stream.rs:66-84 | taking the indentation away gives the text back |
| `Indenter.MarkerWithinLine` | apps/cli/src/stream.rs:85-94 | a stream that differs from its text indented |
| `Recorder.GroupAssistantMessages` | e2e/scripts/record-fixture.py:204-213 | groups in the order in which executions first speak |
| `Recorder.ExtractLlmResponses` | e2e/scripts/record-fixture.py:248-258 | the records of the groups, numbered within each |
| `Recorder.NumbersSay` | e2e/scripts/record-fixture.py:248-258 | a record's number is that of the earlier records of its execution, and it carries no hash |
| `Recorder.GroupingKeepsEachOrder` | e2e/scripts/record-fixture.py:204-213 | each execution keeps exactly its own replies in order |
| `Recorder.RecordedInOrderExactly` | e2e/scripts/record-fixture.py:248-258 | the fixture is in the log's order exactly when no execution speaks again after another |
| `Recorder.DelegationBreaksOrder` | e2e/scripts/record-fixture.py:248-258 | a root that speaks before and after its delegate is recorded out of order |
| `Recorder.ExtractToolResults` | e2e/scripts/record-fixture.py:267-296 | the queues and cursors yield every result in the order of the messages that brought it, and for every execution exactly what its own messages give |
| `Recorder.InterleavingDoesNotMatter` | e2e/scripts/record-fixture.py:267-296 | extraction from the interleaved log is extraction per execution |
| `Recorder.PairedInOrder` | e2e/scripts/record-fixture.py:286-295 | indices have no gaps and the j-th result answers the j-th call |
| `Replay.ReplayStore.constructor` | e2e/mock_llm/replay.py:43-59 | loading indexes each execution's records by place, in order |
| `Replay.ReplayStore.NextAny` | e2e/mock_llm/replay.py:64-86 | new state and the reply served, the execution's cursor moving when it stood on that very record |
| `Replay.ReplayStore.NextResponse` | e2e/mock_llm/replay.py:88-113 | new state and the reply served, or the reason and both hashes, with the drift noted in each failing case |
| `Replay.ReceivedIsServedPlusDrift` | e2e/mock_llm/replay.py:64-113 | in every run, received requests are served ones plus drift |
| `Replay.CursorNearPrefix` | e2e/mock_llm/replay.py:64-113 | in every mixed run a cursor lies between its share of the consumed prefix and that plus its own served requests |
| `Replay.PlainOrderServesFixture` | e2e/mock_llm/replay.py:64-86 | in plain order the n-th request gets the n-th record and cursors equal their share of the prefix |
| `Replay.EachExecutionInOrder` | e2e/mock_llm/replay.py:88-113 | however executions interleave, strictly or not, each request gets the record its execution has come to by its own requests, and one that is not served moves no cursor and is noted |
| `Replay.EachRequestGetsTheNext` | e2e/mock_llm/replay.py:88-113 | unless hashes were recorded and are checked, the k-th request of an execution gets its k-th record, and drifts exactly when it has no more |
| `Replay.StrictHoldsExactlyUntil` | e2e/mock_llm/replay.py:102-112 | a strict store keeps an execution at a record with a hash exactly until a request brings that hash |
| `Replay.ReplayGivesEachItsReplies` | e2e/scripts/record-fixture.py:248-258 | recorded then replayed by execution, strictly or not, the k-th request gets the k-th reply of the log |
| `Replay.PlainReplayIsOriginalExactly` | e2e/mock_llm/replay.py:64-86 | recorded then replayed in plain order, the log comes back exactly when no execution speaks again after another |

## Left out

- WorkerLoop.NoLostWakeup: speaks of items never claimed before; an item that fails or is recovered wakes nobody in the code either, and waits for the poll interval.
- Outbox.PushSingleItem: does not model SQL errors; `Bridge` does, as a skipped item and as a reset that fails unnoticed.
- EventCounters.CountPairs: leaves out the counter of bucketed calls and results that the same loop keeps.
- EventCounters.BuildEventSignatures: leaves out the lifecycle and delegation-transition counters, the sequence hashes, and the bucketed counters of sequence lengths and tool pairs.
- JsonShape.SameShapeIffSimilar: has no `null` bucket, because the lengths in a shape are never missing, and treats a shape's fixed labels as field names.
- Indenter.Turn.RunTurn: leaves out the standard error stream, token totals and write errors.
- Payload size limits, provenance columns, scoped queries and counts of the work store: reads and checks without effect on the lease protocol.
- Panic redaction, tracing and the unpacking of gate errors in the worker.
- Outbox replay after a resume point, apart from the fact that it may push any row not yet sent.
- SQLite's limit on bound variables, and writers between a dry run and its repair.
- Backups, integrity checks, permissions, hashing and random draws: parameters that say whether or what.
- Plugin manager, standard-input plugins, discovery, connectors, cron, A2A message checks, configuration precedence and user interface: plumbing or easy members.
