# A verified model of MreNetherNet

MreNetherNet is a partial C++ re-implementation of the NetherNet transport on top of WebRTC. This
project models its complete algorithms in Dafny and proves what they promise over every input or
every run. `dafny verify dfyconfig.toml` checks all of it.

| file | models |
|---|---|
| `RunLoop.dfy` | the run-loop mutex and condition-variable protocol as interleaved atomic events |
| `JsonObject.dfy` | the JSON object: a vector searched by binary search (sorted mode) or linearly (keep-order mode) |
| `SessionChannels.dfy` | a session's two data channels and its queues of deferred packets |
| `SessionHistory.dfy` | what those channels are, hold and have handed on, told from the tasks alone |
| `SessionNegotiation.dfy` | a session's negotiation phases, timeout and death |
| `DeferredCandidates.dfy` | the passes over a session's deferred ICE candidates |
| `NetworkSession.dfy` | the session object that ties these together, and the tasks it posts to the signal thread |
| `SessionManager.dfy` | the session table with its dead-session filter, and the packet entry point in front of it |
| `Envelope.dfy` | the sealed envelope (tag, padding, block-wise encryption) and the socket adapter |
| `DnsCache.dfy`, `PeerRecordTable.dfy` | the two tables whose entries expire |
| `StatsCollection.dfy` | the owning list of statistics reports and the id comparison |
| `FieldTrials.dfy` | the field-trial string parser |
| `IcePriority.dfy` | the 32-bit ICE candidate priority |
| `EventLog.dfy` | the size-limited event log file |
| `Common.dfy`, `Sequences.dfy` | shared types; ordered subsequences |

Objects that the source updates in place are classes here. Their methods are proved equal to a
function on values (`OnTask`, `OnFields`, `Lookup`, ...), and the theorems over whole runs are lemmas
about those functions. Concurrency is an event system: one event is one atomic action of one thread,
and a theorem quantifies over every sequence of enabled events. Clock readings, answers of the
operating system, of WebRTC and of other threads are parameters.

## Where the code differs from its purpose

The code is modelled as it stands. Where the intended form is clear it is modelled beside it, through
a parameter.

- `UpdateSharedState` locks a mutex it already owns, which throws. `Locking.Twice` is that code: no
  request ever takes effect (`DoubleLockFreezesTheState`). `Locking.Once` drops the second lock:
  requests end (`RequestsEnd`, `RequestProgress`) and are delivered (`EveryRequestDelivers`,
  `StateIsLastWritten`).
  The safety and termination results hold for both.
- `CheckSendDeferredData` sends deferred unreliable packets on the reliable channel
  (NetworkSession.cpp:167). `Routing.AsWritten` is that code, `AsIntended` uses their own channel.
  Either way unreliable packets are thrown away when a callback finds no unreliable channel, and
  `UnreliableExactly` says which are.
  `WrittenRunsExactly` says, from the tasks alone, exactly which runs of the code keep every packet on
  its own channel and which never dereference the null reliable channel; `WrittenGoesWrong` shows both
  failures. `ReliableFifo` holds on every intended run and on every run of the code without that
  dereference.
- `InitializeOutgoing` names its channels "&ReliableDataChannel" and "*UnreliableDataChannel"
  (NetworkSession.cpp:595, 618), and `OnDataChannel` takes neither for reliable: a peer of this code
  never hands on a reliable packet (`OwnLabelsAreNeverReliable`).
- `InitializeOutgoing` goes on to use the peer connection after failing to create it, and
  `InitializeIncoming` moves it out of its field, so an incoming session drops every packet
  (`IncomingDropsEverything`). The success callback of `InitializeIncoming`
  (NetworkSession.cpp:289-294) calls `ProcessIceCandidates` on the emptied field; that dereferences
  null exactly if candidates are deferred. Nothing in the code fills `mDeferredIceCandidates`, so today
  no pass has anything to offer.
- `IsConnectionAlive` asks `mConnectionStat`, which nothing writes; ICE states are stored in
  `mIceConnectionState`. `Liveness.AsksStat` is that code: reports never change the verdict
  (`ReportsNeverMatter`), an answered session that did not start
  out failed never dies (`AnsweredNeverDies`), and a failed one lives
  on (`IceFailureIsIgnored`). `AsksIce` is the intended form; `WrittenAgreesExactly` says when the two
  agree.
- `AesContext::Open` computes a tag and compares it with nothing, so any 32 bytes before a valid body
  open (`AnyTagOpens`). With the comparison an envelope opens exactly if it is the sealing of what it
  opens to (`CheckedOpenExact`).
- Lengths are narrowed to `int` on the way to OpenSSL: opening gives back what was sealed exactly
  below 2^31 - 48 bytes (`RoundTripExactly`).
- `PeerRecordTable` sweeps one table and reads another. `Sweep.Unswept` is that code, and
  `UnsweptAgreesExactly` says on which runs it still answers as intended; `Swept` is the intended table.
  The table the code sweeps stays empty (`Valid`), so its erasing while iterating is never reached.
- The dead-session filter clears a record at once only on the signal thread; `ReportedTwiceExactly`
  says over runs that mix threads exactly when a session is reported twice.
- Different statistics ids can match: a plain id asked about a directed one of its type and name, and
  a bandwidth-estimation id, which inherits its comparison, asked about anything of its type
  (`DifferentIdsMatch`). A merge then replaces a report by one with another id, whose own id is lost
  (`MixedClassesLoseAnId`). `MergeOverridesExactly` says which merges lose nothing, and
  `OverridesAllMeans` reads that off the ids.
- The session-open callback is made by every data-channel callback that finds both channels open, so it
  repeats (`OpenIsRepeated`); `OpenedOnceExactly` says when it does not.
- Nothing ends a statistics request, so a session asks for statistics at most once
  (`AskedAtMostOnce`).

## Model

| member | source | states |
|---|---|---|
| RunLoop.StepKeepsInv | NetherNet/NetherNet/Controller.cpp:13-65 | every atomic step of any worker or poster keeps mutual exclusion, the truth of what a lock holder remembers of the state, and the wake-up guarantee |
| RunLoop.NoLostWakeupInAnyRun | NetherNet/NetherNet/Controller.cpp:13-65 | in every reachable interleaving of any number of workers and posters, a worker blocked in the wait implies that the state is Suspended or that the poster which changed it still owes its notify_all |
| RunLoop.ReturnsAreTruthful | NetherNet/NetherNet/Controller.cpp:5-34 | KeepGoing returns only while the state is not Suspended, and true exactly for Running |
| RunLoop.SuspendedBlocks | NetherNet/NetherNet/Controller.cpp:13-28 | a worker that acts on what it read blocks exactly if the state is Suspended, and the mutex is free then |
| RunLoop.BlockedStep | NetherNet/NetherNet/Controller.cpp:13-17 | a blocked worker is woken by a notify_all or a spurious wake and by nothing else, and the latter can always come |
| RunLoop.BlockedUntilWoken | NetherNet/NetherNet/Controller.cpp:13-17 | over any run without those a blocked worker stays blocked and makes no move |
| RunLoop.UndisturbedCall | NetherNet/NetherNet/Controller.cpp:5-34 | from any state with a free mutex an undisturbed call runs to its end: true in Running, blocked in Suspended, false otherwise, nothing else changed |
| RunLoop.StillExactly | NetherNet/NetherNet/Controller.cpp:13-65 | the loop stands still exactly if every worker inside is blocked and no request is under way, and then a blocked worker means Suspended |
| RunLoop.SettledStep | NetherNet/NetherNet/Controller.cpp:13-34 | once the state is settled, every step, spurious wakes included, strictly lowers a measure over all threads |
| RunLoop.SettledProgress | NetherNet/NetherNet/Controller.cpp:13-65 | a settled state with a worker inside KeepGoing always has a next step: no deadlock |
| RunLoop.SettledRunsReturn | NetherNet/NetherNet/Controller.cpp:13-34 | from a settled state every schedule is finite with an explicit bound, and when nothing more can happen every worker that was inside has returned, true exactly for Running |
| RunLoop.SettledWorkerReturns | NetherNet/NetherNet/Controller.cpp:13-34 | even while other workers keep calling, a worker inside makes at most four moves before it leaves with the settled answer |
| RunLoop.DoubleLockFreezesTheState | NetherNet/NetherNet/Controller.cpp:57-65 | with the second lock as written, no run ever changes the shared state, and workers of a Suspended loop never return |
| RunLoop.RequestsEnd | NetherNet/NetherNet/Controller.cpp:57-65 | whatever everybody else does, a request is over after at most five moves of its own |
| RunLoop.RequestProgress | NetherNet/NetherNet/Controller.cpp:57-65 | every reachable state with a request under way has a next step: requests are never stuck |
| RunLoop.StateIsLastWritten | NetherNet/NetherNet/Controller.cpp:45-65 | in every run the shared state is what the poster that wrote last had asked for, or the first value if none wrote |
| RunLoop.EveryRequestDelivers | NetherNet/NetherNet/Controller.cpp:57-65 | with one acquisition, in every schedule: a request that has come to its end has written the state it asked for, and has called notify_all since exactly if that changed the state |
| RunLoop.EveryRequestThrows | NetherNet/NetherNet/Controller.cpp:57-59 | as written, in every schedule: a request past its start is still waiting, holds the mutex or has thrown |
| RunLoop.UndisturbedRequest | NetherNet/NetherNet/Controller.cpp:57-65 | from any state with a free mutex an undisturbed request runs to its end: with one acquisition it leaves its state and wakes all exactly on a change, as written it throws and changes nothing |
| JsonObject.LocateDecides | NetherNet/includes/libHttpClient/json_cpp/json.h:1192-1235 | in either mode a search hits a key exactly when the map of the object holds it, and the field hit carries the map's value |
| JsonObject.StepRefinesMap | NetherNet/includes/libHttpClient/json_cpp/json.h:1094-1152 | each operation on the vector is the same operation on a finite map, with the same answer, and keeps keys distinct (sorted mode: strictly sorted) |
| JsonObject.RunRefinesMap | NetherNet/includes/libHttpClient/json_cpp/json.h:1094-1152 | over any sequence of subscript, assignment, erase and lookup the object answers like the map and stays well-formed |
| JsonObject.StepWorksOnFirst | NetherNet/includes/libHttpClient/json_cpp/json.h:1094-1152 | with duplicate keys too, in both modes: an operation answers from and works on the first value of its key, and leaves every other key alone |
| JsonObject.RunWorksOnFirst | NetherNet/includes/libHttpClient/json_cpp/json.h:1094-1152 | so over any operations, each key following only the operations on it; a sorted object stays sorted |
| JsonObject.KeepOrderKeepsOrder | NetherNet/includes/libHttpClient/json_cpp/json.h:1094-1205 | over any operations on a keep-order object the order of its keys is told by the operations alone: a new key comes last, an erased one is dropped, nothing else moves |
| JsonObject.ModesAgree | NetherNet/includes/libHttpClient/json_cpp/json.h:1192-1235 | sorted and keep-order objects of equal contents cannot be told apart by any sequence of operations |
| JsonObject.EqualityIsCanonical | NetherNet/includes/libHttpClient/json_cpp/json.h:1670-1676 | element-wise equality is map equality for sorted objects; for keep-order objects it is map equality plus equal key order, both directions |
| JsonObject.InsertionOrderIsForgotten | NetherNet/includes/libHttpClient/json_cpp/json.h:1142-1152 | two histories of a sorted object that end in the same map end in the same vector |
| JsonObject.KeepOrderIsNotCanonical | NetherNet/includes/libHttpClient/json_cpp/json.h:1670-1676 | a concrete pair of keep-order objects with one map and unequal vectors |
| JsonObject.LessIsLexicographic | NetherNet/includes/libHttpClient/json_cpp/json.h:1184-1190 | the order of keys: at the first difference the smaller character or the end of the string comes first |
| JsonObject.Object.FromElements | NetherNet/includes/libHttpClient/json_cpp/json.h:963-968 | sorts unless order is kept, loses no element, and from distinct keys yields a well-formed object standing for the map of the elements |
| JsonObject.Object.FindInsertLocation | NetherNet/includes/libHttpClient/json_cpp/json.h:1192-1205 | the binary search returns what a linear scan for the first key not below returns, also with duplicate keys; keep-order mode returns the first equal key |
| JsonObject.Object.FindByKey | NetherNet/includes/libHttpClient/json_cpp/json.h:1207-1235 | the index of the key, and the end exactly when the map lacks it |
| JsonObject.Object.Subscript | NetherNet/includes/libHttpClient/json_cpp/json.h:1142-1152 | the new vector and value are those of the specification whose map meaning is proved; the vector stays searchable |
| JsonObject.Object.Assign | NetherNet/includes/libHttpClient/json_cpp/json.h:1142-1152 | assigning through the subscript is the specified assignment |
| JsonObject.Object.Erase | NetherNet/includes/libHttpClient/json_cpp/json.h:1094-1103 | erases as specified, or reports a missing key and changes nothing |
| JsonObject.Object.At | NetherNet/includes/libHttpClient/json_cpp/json.h:1110-1135 | the value as specified, or the missing-key error |
| JsonObject.Object.IsEqual | NetherNet/includes/libHttpClient/json_cpp/json.h:1670-1676 | the comparison loop decides vector equality, hence map equality for sorted objects |
| SessionChannels.ReliableFifo | NetherNet/NetherNet/connection/NetworkSession.cpp:22-62 | over any tasks of an outgoing session, as intended always and as written for every run that stays clear of the null channel, packets handed on as reliable followed by the queue are the submitted ones in order, and an open cached state means all were handed on; in every run those are a prefix of the submitted ones, and unreliable packets leave in submission order without repetition |
| SessionHistory.UnreliableExactly | NetherNet/NetherNet/connection/NetworkSession.cpp:138-171 | over any run (as written: clear of the null channel) the unreliable packets handed on, then the queue, are those submitted after the last callback that found no unreliable channel; the ones before it are thrown away, and no others |
| SessionHistory.LogFollowsTasks | NetherNet/NetherNet/connection/NetworkSession.cpp:38-171 | over any such run, from the tasks alone: exactly which packet was handed on when, on which channel and in which order, and which are queued |
| SessionHistory.FlushExactly | NetherNet/NetherNet/connection/NetworkSession.cpp:138-171 | one flush hands on the whole reliable queue, then the whole unreliable one, of each channel that exists, and leaves only reliable packets without a channel queued |
| SessionChannels.TaskAccounted | NetherNet/NetherNet/connection/NetworkSession.cpp:138-171 | one task keeps that account and the rule that an open cached state has its channel and an empty queue |
| SessionHistory.SentAtOnceExactly | NetherNet/NetherNet/connection/NetworkSession.cpp:38-59 | after any run of an outgoing session (as written: clear of the null channel) a packet goes straight out on its own channel exactly if the last callback found that channel there and open, and is otherwise queued last |
| SessionChannels.IncomingDropsEverything | NetherNet/NetherNet/connection/NetworkSession.cpp:274-308 | without a peer connection nothing is ever queued or handed on, so the FIFO law holds exactly for runs that submit no reliable packet |
| SessionChannels.FlushKeepsChannels | NetherNet/NetherNet/connection/NetworkSession.cpp:138-171 | the exact condition before the flush under which deferred packets keep to their own channel, and the exact condition for the null dereference |
| SessionChannels.IntendedKeepsChannels | NetherNet/NetherNet/connection/NetworkSession.cpp:138-171 | with the intended channel no run misroutes a packet or dereferences null |
| SessionChannels.WrittenRunsExactly | NetherNet/NetherNet/connection/NetworkSession.cpp:138-171 | for the code as written and any tasks: no null dereference exactly if no callback that finds an unreliable channel and no reliable one comes while an unreliable packet waits; packets on their own channel besides exactly if no callback that finds an unreliable channel comes while one waits |
| SessionChannels.WrittenGoesWrong | NetherNet/NetherNet/connection/NetworkSession.cpp:156-168 | a run of the code as written that puts an unreliable packet on the reliable channel, and one that dereferences the null reliable channel |
| SessionChannels.LogOnlyGrows | NetherNet/NetherNet/connection/NetworkSession.cpp:138-171 | in any run what was handed on stays handed on, and a crash is final |
| SessionHistory.OwnLabelsAreNeverReliable | NetherNet/NetherNet/connection/NetworkSession.cpp:427-444 | a session that is offered only channels with the labels InitializeOutgoing gives never has a reliable channel and never hands on a reliable packet |
| SessionHistory.GetsChannelExactly | NetherNet/NetherNet/connection/NetworkSession.cpp:427-444 | from any state, in any run that does not crash, a channel is there in the end exactly if it was there or one with its label was offered |
| SessionHistory.ChannelsFollowTasks | NetherNet/NetherNet/connection/NetworkSession.cpp:371-385 | from the tasks alone: which channels exist, which cached states are open, and how often the session-open callback was made |
| SessionHistory.CachesExactly | NetherNet/NetherNet/connection/NetworkSession.cpp:371-380 | from any state without channels: the cached state of a channel is what the last callback found, Closed without a channel |
| SessionHistory.PeerlessFollowsTasks | NetherNet/NetherNet/connection/NetworkSession.cpp:354-444 | the channels of a session without a peer connection come, open and are announced like any other, while nothing is handed on |
| SessionHistory.OpenedOnceExactly | NetherNet/NetherNet/connection/NetworkSession.cpp:382-384 | the session-open callback is made at most once exactly if no two callbacks find both channels there and open |
| SessionHistory.OpenIsRepeated | NetherNet/NetherNet/connection/NetworkSession.cpp:354-357 | a run in which a state change of an open session announces it a second time |
| SessionNegotiation.MaskTest | NetherNet/NetherNet/connection/NetworkSession.cpp:310-312 | over all 32-bit values the mask test fails exactly for connection states 4 and 6 |
| SessionNegotiation.PhasesOnlyAdvance | NetherNet/NetherNet/connection/NetworkSession.cpp:64-79 | in any run from initialisation a session is in its own waiting phase or in ICEProcessing, never leaves the latter, its timer restarts only on the way there, and its connection stat is never written |
| SessionNegotiation.AdvancesExactly | NetherNet/NetherNet/connection/NetworkSession.cpp:697-708 | the negotiation is over exactly if some signal of the run was a response, or an acceptance of an incoming session; the timer runs from the last response, and the ICE state is the last one reported |
| SessionNegotiation.TimedOutMeans | NetherNet/NetherNet/connection/NetworkSession.cpp:328-336 | the comparison of whole milliseconds is a comparison of exact times, one millisecond past the timeout |
| SessionNegotiation.DeathIsExact | NetherNet/NetherNet/connection/NetworkSession.cpp:322-352 | after any run a session is dead exactly if the state asked (as written the stat it started with, as intended the last ICE state reported) is 4 or 6, or one whole millisecond past its timeout with the negotiation unanswered, reported as 14 for outgoing and 15 for incoming sessions |
| SessionNegotiation.WrittenAgreesExactly | NetherNet/NetherNet/connection/NetworkSession.cpp:310-352 | the code as written judges a session as intended exactly when its first stat and the last reported ICE state are both failures or both not |
| SessionNegotiation.ReportsNeverMatter | NetherNet/NetherNet/connection/NetworkSession.cpp:310-352 | as written, removing every ICE report from a run changes no verdict |
| SessionNegotiation.AnsweredNeverDies | NetherNet/NetherNet/connection/NetworkSession.cpp:322-352 | as written, an answered session that did not start out failed is alive at every later time |
| SessionNegotiation.IceFailureIsIgnored | NetherNet/NetherNet/connection/NetworkSession.cpp:446-461 | a session told of ICE state 4 after its answer: alive as written, dead with the ICE error as intended |
| DeferredCandidates.PassConserves | NetherNet/NetherNet/connection/NetworkSession.cpp:490-523 | one pass splits the deferred candidates into accepted and kept, none lost or doubled |
| DeferredCandidates.RefusedKeepOrder | NetherNet/NetherNet/connection/NetworkSession.cpp:490-523 | the candidates a pass keeps are an ordered subsequence of those it found |
| DeferredCandidates.OwnAnswerDecides | NetherNet/NetherNet/connection/NetworkSession.cpp:490-523 | the candidates a pass keeps are those at the places of refused offers, the ones it takes those at the places of accepted offers, in order |
| DeferredCandidates.PlacesAre | NetherNet/NetherNet/connection/NetworkSession.cpp:498-521 | a place is among those of an answer exactly if its own offer got that answer |
| DeferredCandidates.PassesConserve | NetherNet/NetherNet/connection/NetworkSession.cpp:490-523 | so does any number of passes, and the kept ones stay in their original order |
| NetworkSessions.PostedFifo | NetherNet/NetherNet/connection/NetworkSession.cpp:22-62 | over any interleaving of posts, callbacks and the signal thread (as written on runs clear of the null channel): handed on, then queued, then pending are the reliable packets posted, in order; thrown away, handed on, queued, pending are the unreliable ones |
| NetworkSessions.PostedIsExecutedOrPending | NetherNet/NetherNet/connection/NetworkSession.cpp:32-60 | every packet posted has been executed or is pending, none twice, in posting order |
| NetworkSessions.AskedAtMostOnce | NetherNet/NetherNet/connection/NetworkSession.cpp:173-190 | over checks at any times a session asks for statistics at most once, at the first check two seconds after its time stamp and only if no request was in progress, and keeps that time |
| NetworkSessions.NetworkSession.InitializeOutgoing | NetherNet/NetherNet/connection/NetworkSession.cpp:551-680 | the state its initialisation task leaves: a peer connection and no channel, or the null dereference when none was created, or nothing done without a signal thread; and the errors it reports |
| NetworkSessions.NetworkSession.InitializeIncoming | NetherNet/NetherNet/connection/NetworkSession.cpp:224-308 | the state it leaves, with the peer connection moved away, or the error and the early return before the negotiation starts |
| NetworkSessions.NetworkSession.SendPacket | NetherNet/NetherNet/connection/NetworkSession.cpp:22-62 | marks the activity and posts the packet, or drops it without a signal thread; the channels are untouched until its turn |
| NetworkSessions.NetworkSession.RunSend | NetherNet/NetherNet/connection/NetworkSession.cpp:38-59 | a packet whose turn has come takes the channels from the old to the specified new state |
| NetworkSessions.NetworkSession.RunNextTask | NetherNet/NetherNet/connection/NetworkSession.cpp:38-60 | the signal thread runs the oldest posted packet or response, and nothing else changes |
| NetworkSessions.NetworkSession.CheckSendDeferredData | NetherNet/NetherNet/connection/NetworkSession.cpp:138-171 | the two sending loops hand on each queue in order on the specified channel, and crash exactly where the specification does |
| NetworkSessions.NetworkSession.UpdateDataChannelStates | NetherNet/NetherNet/connection/NetworkSession.cpp:371-385 | the cached states follow the channels, Closed for a missing one, and the session-open callback is made exactly if both are open |
| NetworkSessions.NetworkSession.OnDataChannel | NetherNet/NetherNet/connection/NetworkSession.cpp:427-444 | attaching a channel by its label, refreshing and flushing is the specified task |
| NetworkSessions.NetworkSession.OnDataChannelStateChange | NetherNet/NetherNet/connection/NetworkSession.cpp:354-357 | refreshing and flushing is the specified task |
| NetworkSessions.NetworkSession.AcceptSession | NetherNet/NetherNet/connection/NetworkSession.cpp:64-125 | accepting moves only a session waiting for it, and posts the response exactly then |
| NetworkSessions.NetworkSession.ProcessConnectResponse | NetherNet/NetherNet/connection/NetworkSession.cpp:697-708 | a response moves to ICEProcessing and restarts the timer |
| NetworkSessions.NetworkSession.CheckUpdateStats | NetherNet/NetherNet/connection/NetworkSession.cpp:173-190 | asks when a request is due and none is in progress, and posts it exactly then |
| NetworkSessions.NetworkSession.OnIceConnectionChange | NetherNet/NetherNet/connection/NetworkSession.cpp:446-461 | a report changes the ICE state and nothing that the verdict as written depends on; the states up to Connected also check the statistics |
| NetworkSessions.NetworkSession.IsDeadSession | NetherNet/NetherNet/connection/NetworkSession.cpp:322-352 | the branches compute the verdict whose exact meaning is DeathIsExact |
| NetworkSessions.NetworkSession.ProcessIceCandidates | NetherNet/NetherNet/connection/NetworkSession.cpp:490-523 | the erasing loop ends, offers every candidate once and in order, and leaves exactly the refused ones in order; without a peer connection it dereferences null exactly if there is a candidate |
| SessionManager.LookupReportsOnce | NetherNet/NetherNet/network/NetworkSessionManager.cpp:57-61 | one lookup on the signal thread keeps the rule that no session is reported twice or still listed after its report |
| SessionManager.SignalThreadReportsOnce | NetherNet/NetherNet/network/NetworkSessionManager.cpp:141-173 | over any lookups on the signal thread each session is reported closed at most once, and the known connections are the original ones minus exactly the reported |
| SessionManager.FreshBook | NetherNet/NetherNet/network/NetworkSessionManager.cpp:71-74 | before any report and with nothing posted the book of the manager is its known ids |
| SessionManager.StepTracks | NetherNet/NetherNet/network/NetworkSessionManager.cpp:141-173 | one event keeps the set of ids that are known although reported, and repeats a report exactly if it is a dead lookup of one of them |
| SessionManager.ManagerFollowsEvents | NetherNet/NetherNet/network/NetworkSessionManager.cpp:57-173 | over any events on any threads, from the events alone: the known connections, the posted clearings, every report with its session and error, and the ids in the table; a session that stays is the one it was |
| SessionManager.ReportedTwiceExactly | NetherNet/NetherNet/network/NetworkSessionManager.cpp:141-173 | over any run that mixes threads, lookups and posted clears, a session is reported twice exactly if some dead lookup is of an id that an earlier dead lookup off the signal thread left known |
| SessionManager.LimitsHoldInAnyRun | NetherNet/NetherNet/connection/SimpleNetworkInterfaceImpl.cpp:471-487 | if only admitted packets are submitted, no queue or channel of a session ever holds a packet above 1196 (unreliable) or 15360 (reliable) bytes |
| SessionManager.NetworkSessionManager.FilterDeadSession | NetherNet/NetherNet/network/NetworkSessionManager.cpp:141-173 | true exactly for a recorded session dead at this clock reading; what is then reported with which error, cleared at once or posted, in each thread case |
| SessionManager.NetworkSessionManager.GetCurrentSession | NetherNet/NetherNet/network/NetworkSessionManager.cpp:57-61 | returns the recorded session exactly if it is alive at this clock reading; no other session is forgotten, and this one only if dead and on the signal thread |
| SessionManager.NetworkSessionManager.HasKnownConnection | NetherNet/NetherNet/network/NetworkSessionManager.cpp:71-74 | known exactly if a session is recorded; the inserted empty record changes no other |
| SessionManager.NetworkSessionManager.SendPacket | NetherNet/NetherNet/network/NetworkSessionManager.cpp:251-258 | posts to the one live session under the id and to no other, and executes nothing; true exactly if there is one |
| SessionManager.SimpleNetworkInterface.SendPacket | NetherNet/NetherNet/connection/SimpleNetworkInterfaceImpl.cpp:468-501 | oversized packets and loopback change no session; otherwise posted exactly to a known live session; only admitted packets are ever pending |
| Envelopes.UnpadExact | NetherNet/NetherNet/encryption/AesContext.cpp:36-52 | PKCS#7 unpadding of whole blocks succeeds with p exactly on the padding of p |
| Envelopes.EncryptInOneGo | NetherNet/NetherNet/encryption/AesContext.cpp:93-97 | update and final output together are the encryption of the padded plaintext |
| Envelopes.DecryptInOneGo | NetherNet/NetherNet/encryption/AesContext.cpp:35-52 | update, holding one block back, and final together are the unpadded decryption |
| Envelopes.EcbBlock | NetherNet/NetherNet/encryption/AesContext.cpp:93-94 | each block is enciphered on its own and in its place |
| Envelopes.SealedSize | NetherNet/NetherNet/encryption/AesContext.cpp:11-15 | the sealed size is 32 + 16 * (n / 16 + 1), and the buffer computed for n leaves exactly 16 + n mod 16 bytes of it unused |
| Envelopes.OpenExact | NetherNet/NetherNet/encryption/AesContext.cpp:18-63 | opening succeeds with p exactly on envelopes of at least 32 bytes whose body is the encryption of padded p |
| Envelopes.OpenSealRoundTrip | NetherNet/NetherNet/encryption/AesContext.cpp:18-103 | opening what was sealed gives it back, for every length and every block permutation |
| Envelopes.OpenedShrinks | NetherNet/NetherNet/encryption/OpenSSLAesAdapter.cpp:56-63 | what is opened is more than 32 bytes shorter than the envelope |
| Envelopes.AnyTagOpens | NetherNet/NetherNet/encryption/AesContext.cpp:47-58 | any 32 bytes before the encryption of padded p open to p: the tag computed is compared with nothing |
| Envelopes.CheckedOpenExact | NetherNet/NetherNet/encryption/AesContext.cpp:54-58 | with the comparison that is commented out an envelope opens to p exactly if it is the sealing of p |
| Envelopes.RoundTripExactly | NetherNet/NetherNet/encryption/AesContext.cpp:18-103 | with lengths narrowed to 32-bit int, Open gives back what Seal was given exactly for fewer than 2^31 - 48 bytes |
| Envelopes.SealOfExactly | NetherNet/NetherNet/encryption/AesContext.cpp:65-103 | what sealing returns in full: an error exactly for a failing call, a negative narrowed length or an envelope too long for int; else the tag of the whole plaintext before the encryption of as much of it as the int says |
| Envelopes.ShortSeals | NetherNet/NetherNet/encryption/AesContext.cpp:65-103 | below 2^31 - 48 bytes that is the sealed envelope |
| Envelopes.OpenOfExactly | NetherNet/NetherNet/encryption/AesContext.cpp:18-63 | what opening returns in full: p exactly if all calls succeed, the envelope holds a tag and as much of the body as the int says is the encryption of padded p |
| Envelopes.AesContext.Seal | NetherNet/NetherNet/encryption/AesContext.cpp:65-103 | every write stays in a buffer of the plaintext size plus 64 and the view returned is its prefix, the sealed envelope; an error exactly if some OpenSSL call fails, the narrowed length is refused or the size of the envelope leaves int |
| Envelopes.AesContext.Open | NetherNet/NetherNet/encryption/AesContext.cpp:18-63 | every write stays in the resized buffer, which ends as the plaintext returned; an error exactly for a short envelope, a failing call, a refused length or bad padding |
| Envelopes.OpenSSLAesAdapter.Send | NetherNet/NetherNet/encryption/OpenSSLAesAdapter.cpp:34-46 | with a key the socket gets the sealed data and its result is returned; without one, or if sealing fails, nothing is sent and 0 returned |
| Envelopes.OpenSSLAesAdapter.Recv | NetherNet/NetherNet/encryption/OpenSSLAesAdapter.cpp:48-64 | copies back fewer bytes than were received and leaves the rest of the caller's buffer alone; the three failure results |
| DnsCaches.StepRepresents | NetherNet/NetherNet/network/AsyncResolverFactory.cpp:10-54 | one call answers as the log of all additions, and what is missing from the cache had expired |
| DnsCaches.CacheRefinesLog | NetherNet/NetherNet/network/AsyncResolverFactory.cpp:10-54 | under a non-decreasing clock every lookup of every run gives the latest addition exactly unless its expiry is before now |
| DnsCaches.BackwardClockShowsErasure | NetherNet/NetherNet/network/AsyncResolverFactory.cpp:23-27 | with a clock that runs backwards erasure becomes visible |
| DnsCaches.CacheHoldsExactly | NetherNet/NetherNet/network/AsyncResolverFactory.cpp:10-54 | under any clock, even a backward one, the entry of a question is what was added last (for five minutes without an expiry) unless a lookup of it came too late since |
| DnsCaches.DnsCache.TryGet | NetherNet/NetherNet/network/AsyncResolverFactory.cpp:11-33 | appends the stored addresses in order on a hit, erases an expired entry, otherwise changes nothing |
| DnsCaches.DnsCache.AddUntil | NetherNet/NetherNet/network/AsyncResolverFactory.cpp:36-46 | inserts or replaces the entry of the question |
| DnsCaches.DnsCache.Add | NetherNet/NetherNet/network/AsyncResolverFactory.cpp:49-54 | replaces the entry of the question by one that expires five minutes from now |
| PeerRecordTables.StepRepresents | NetherNet/NetherNet/network/PeerRecordTable.cpp:39-104 | one call of the intended table answers as the log of all updates |
| PeerRecordTables.SweepDecides | NetherNet/NetherNet/network/PeerRecordTable.cpp:6-37 | after the sweep, with a clock reading per record, a record is there exactly if it is the latest of its id and was fresh at its own reading |
| PeerRecordTables.FreshMeans | NetherNet/NetherNet/network/PeerRecordTable.cpp:11-12 | at most 60 whole seconds means short of 61 seconds |
| PeerRecordTables.TableRefinesLog | NetherNet/NetherNet/network/PeerRecordTable.cpp:39-104 | as intended, under a non-decreasing clock, a peer is found exactly if last heard of at most 60 whole seconds ago, with its latest address, and is new exactly otherwise |
| PeerRecordTables.TableHoldsExactly | NetherNet/NetherNet/network/PeerRecordTable.cpp:6-104 | as intended, after any run the table holds exactly the peers that were fresh at the sweep of the last call and the one that call added, each with its latest record |
| PeerRecordTables.UnsweptStep | NetherNet/NetherNet/network/PeerRecordTable.cpp:39-104 | a call of the code as written answers as intended exactly when its id was never added or is not stale |
| PeerRecordTables.UnsweptAgreesExactly | NetherNet/NetherNet/network/PeerRecordTable.cpp:39-104 | a run of the code as written answers as intended exactly if no call is about a stale peer |
| PeerRecordTables.UnsweptFindsStalePeer | NetherNet/NetherNet/network/PeerRecordTable.cpp:39-51 | a peer silent for 61 seconds is still found |
| PeerRecordTables.RemoveExpiredRecords | NetherNet/NetherNet/network/PeerRecordTable.cpp:6-37 | the sweep keeps exactly the records at most 60 whole seconds old at the reading made for each |
| PeerRecordTables.PeerRecordTable.Find | NetherNet/NetherNet/network/PeerRecordTable.cpp:39-51 | the new table and the address are those of the specification; the other table stays empty |
| PeerRecordTables.PeerRecordTable.Contains | NetherNet/NetherNet/network/PeerRecordTable.cpp:53-58 | true exactly if Find would give an address; the other table stays empty |
| PeerRecordTables.PeerRecordTable.AddOrUpdate | NetherNet/NetherNet/network/PeerRecordTable.cpp:60-104 | the new table and the new-peer answer are those of the specification; the other table stays empty |
| StatsCollections.EqualsIsEquality | NetherNet/includes/webrtc/api/legacy_stats_types.cc:77-217 | where its casts are legal, the id comparison is equality but for a plain id asked about a directed one and a bandwidth-estimation id asked about anything of its type |
| StatsCollections.DifferentIdsMatch | NetherNet/includes/webrtc/api/legacy_stats_types.cc:70-125 | the two ways in which different ids match |
| StatsCollections.MergeIsOverride | NetherNet/includes/webrtc/api/legacy_stats_types.cc:854-870 | with one id class per type, merging is map override with the incoming report winning |
| StatsCollections.MergeKeepsSeparate | NetherNet/includes/webrtc/api/legacy_stats_types.cc:854-870 | whatever classes are mixed, after a merge no entry matches a later one |
| StatsCollections.PutOverridesExactly | NetherNet/includes/webrtc/api/legacy_stats_types.cc:857-866 | one incoming report overrides the map of the list exactly if the entry it matches, if any, has its very id |
| StatsCollections.MergeOverridesExactly | NetherNet/includes/webrtc/api/legacy_stats_types.cc:854-870 | for every merge whose casts are legal: it is map override with the incoming report winning exactly if no incoming report takes the place of one with another id |
| StatsCollections.OverridesAllMeans | NetherNet/includes/webrtc/api/legacy_stats_types.cc:854-870 | for a list built by legal comparisons that is so exactly if no report, present or earlier in the collection, matches a later incoming one under another id |
| StatsCollections.LostForGood | NetherNet/includes/webrtc/api/legacy_stats_types.cc:854-870 | an id displaced in a merge never returns in it |
| StatsCollections.MixedClassesLoseAnId | NetherNet/includes/webrtc/api/legacy_stats_types.cc:854-870 | a report merged with one it matches under another id is gone from the map |
| StatsCollections.MergeKeepsPositions | NetherNet/includes/webrtc/api/legacy_stats_types.cc:854-870 | old ids keep their positions and new ids are appended in order of first appearance |
| StatsCollections.MergeStaysInPlace | NetherNet/includes/webrtc/api/legacy_stats_types.cc:854-870 | whatever classes are mixed, every place of the list is kept by its report or by an incoming one it matches, and only incoming reports follow |
| StatsCollections.PutStaysInPlace | NetherNet/includes/webrtc/api/legacy_stats_types.cc:859-868 | one incoming report takes the first place that matches it, or the end if none does, and moves nothing else |
| StatsCollections.MergeConserves | NetherNet/includes/webrtc/api/legacy_stats_types.cc:854-870 | every report of both lists ends in the merged list or among the deleted, exactly once |
| StatsCollections.LookupInMap | NetherNet/includes/webrtc/api/legacy_stats_types.cc:874-880 | with one id class per type, finding an id in the list is finding it in the map of the list |
| StatsCollections.StatsCollection.Find | NetherNet/includes/webrtc/api/legacy_stats_types.cc:874-880 | the first report whose id matches, null exactly if none does |
| StatsCollections.StatsCollection.InsertNew | NetherNet/includes/webrtc/api/legacy_stats_types.cc:816-822 | appends one new report; no entry matches a later one and every report is owned or deleted once |
| StatsCollections.StatsCollection.FindOrAddNew | NetherNet/includes/webrtc/api/legacy_stats_types.cc:824-828 | the first report that matches, or a new one appended |
| StatsCollections.StatsCollection.ReplaceOrAddNew | NetherNet/includes/webrtc/api/legacy_stats_types.cc:830-843 | a new report with the matched report's own id in its place, the old one deleted once, or a new one appended |
| StatsCollections.StatsCollection.DetachCollection | NetherNet/includes/webrtc/api/legacy_stats_types.cc:845-852 | hands the whole list over and keeps none of it |
| StatsCollections.StatsCollection.MergeCollection | NetherNet/includes/webrtc/api/legacy_stats_types.cc:854-870 | the loop computes the specified merge and deletes exactly the replaced reports; no entry matches a later one and nothing is owned or deleted twice |
| FieldTrials.ReadPrefix | NetherNet/includes/webrtc/api/field_trials.cc:25-51 | a printed list that starts like another starts with it: the format is uniquely readable |
| FieldTrials.FaultIsNotPrinted | NetherNet/includes/webrtc/api/field_trials.cc:28-42 | none of the five faults can stand at the start of a printed list |
| FieldTrials.Format | NetherNet/includes/webrtc/api/field_trials.cc:25-51 | the form that is printed and parsed: key, slash, value, slash, pair after pair |
| FieldTrials.FirstBindingWins | NetherNet/includes/webrtc/api/field_trials.cc:44-47 | the map of a pair list gives each key its first value |
| FieldTrials.NoOtherKeys | NetherNet/includes/webrtc/api/field_trials.cc:44-47 | and has no other keys |
| FieldTrials.InsertIntoMap | NetherNet/includes/webrtc/api/field_trials.cc:25-51 | ends on every string, accepts exactly the printed lists of non-empty slash-free parts with the first-wins map of that list, and otherwise names the fault after a well-formed beginning |
| IcePriority.FormulaOfRfc5245 | NetherNet/includes/webrtc/api/candidate.cc:143-179 | fields that fit do not overlap or overflow: the shifts and ors give the formula of section 4.1.2.1 of RFC 5245 below 2^32 |
| IcePriority.FieldsRecoverable | NetherNet/includes/webrtc/api/candidate.cc:179-179 | the three fields can be read back exactly when each fits its width |
| IcePriority.OrderIsLexicographic | NetherNet/includes/webrtc/api/candidate.cc:179-179 | priorities compare by type preference, then local preference, then lower component |
| IcePriority.LocalPreferenceSum | NetherNet/includes/webrtc/api/candidate.cc:160-177 | within the bounds of the debug check the local preference is the plain sum and fits 16 bits |
| IcePriority.PriorityIs | NetherNet/includes/webrtc/api/candidate.cc:139-180 | the priority of a candidate in full: 2^24 * type + 2^8 * (2^8 * adapter + precedence + relay + adjustment) + 256 - component |
| IcePriority.TypeDecides | NetherNet/includes/webrtc/api/candidate.cc:139-180 | two candidates compare by type preference, then by that local sum, then by lower component |
| IcePriority.AdapterDecides | NetherNet/includes/webrtc/api/candidate.cc:148-162 | for equal type the adapter preference outweighs address precedence, relay preferences of at most 32 on either side and the adjustment together |
| IcePriority.RelayOutranksExactly | NetherNet/includes/webrtc/api/candidate.cc:164-179 | a relay candidate outranks an equal server-reflexive one in the STUN attribute exactly when its relay preference exceeds the other's by more than the adjustment, so never for at most 32 with adjustment on |
| EventLog.SizeCheckExact | NetherNet/includes/webrtc/api/rtc_event_log_output_file.cc:27-32 | the capacity check is the true comparison exactly when the sum does not wrap, which the half-range bounds ensure |
| EventLog.WriteCounted | NetherNet/includes/webrtc/api/rtc_event_log_output_file.cc:62-83 | a write succeeds exactly if it fits the limit and the operating system takes all of it, and the byte count stays exact |
| EventLog.WriteExactly | NetherNet/includes/webrtc/api/rtc_event_log_output_file.cc:62-83 | one write: success, what is added to the file (nothing if it does not fit), and the count |
| EventLog.RunsStayWithinLimit | NetherNet/includes/webrtc/api/rtc_event_log_output_file.cc:62-88 | over any run a limited file stays within its limit, holds a prefix of the attempted writes, all of them while active, and never becomes active again |
| EventLog.FileHoldsWholeWrites | NetherNet/includes/webrtc/api/rtc_event_log_output_file.cc:62-83 | over any writes the file gains every write before the first one that does not fit or is not taken whole, then the part taken of that one exactly if it fitted, and nothing after it; active in the end exactly if there was none, the count being that of the whole writes |
| EventLog.RtcEventLogOutputFile.Write | NetherNet/includes/webrtc/api/rtc_event_log_output_file.cc:62-83 | the new state and result are those of the specification, the log stays open exactly on success, and a write that does not fit leaves the file as it is |

## Left out

- Envelopes.AesContext.Seal: the view is a copy rather than a pointer into the buffer, and an `int` sum that overflows, which is undefined, is taken as a failure.
- Envelopes.OpenSSLAesAdapter.Recv: the variant that also reports a sender address, with its fill loop, is not modelled; it differs only before the bytes arrive.
- NetworkSessions.NetworkSession.InitializeIncoming: what SetRemoteDescription and its error callback do is not modelled.
- NetworkSessions.NetworkSession.SendPacket: the posted lambda captures its arguments by reference; they are taken as values.
- NetworkSessions.NetworkSession.AcceptSession: the posted response is an unfinished body that changes no modelled field.
- JsonObject.Object.FromElements: with duplicate keys only the order and the multiset of elements are stated, as std::sort leaves the rest open.
- PeerRecordTables.RemoveExpiredRecords: over a snapshot of the keys, where the code erases while it iterates; the table the code passes is always empty.
- StatsCollections.StatsCollection.Find: asks that the casts the comparison makes are legal; an illegal one is undefined in the code.
- IcePriority.LocalPreferenceSum: preferences are naturals; negative integers are not modelled.
- SessionManager.NetworkSessionManager.GetCurrentSession: on values a session is identified by its object; creating sessions is unfinished in the code and not modelled.
- JSON arrays, numbers, text formatting and parsing: easy members, or in files that are not part of this model.
- GetSessionState, IsInactiveSession and the signaling dispatch: field copies and one-branch mappings.
- LAN discovery, WebSocket signaling, connectors and the packet layouts: sockets, foreign interfaces and unfinished bodies.
- The contents of statistics reports, field-trial globals, candidate foundations and the remaining WebRTC interface code: declarations or field copies.
- Internals of AES, SHA-256 and HMAC: taken as a block permutation and a 32-byte tag.
