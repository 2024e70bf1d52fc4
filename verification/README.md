# SafeTimer in Dafny

SafeTimer detects timeouts correctly in spite of arbitrary processing delays. This project models the parts of
the SafeTimer repository in which that promise is kept or in which its two host systems, Ceph and HDFS, keep
intricate state, and proves what holds of every input, every run or every reachable state.

| modules | what they model |
|---|---|
| `BarrierCollector`, `HeartbeatTable`, `BarrierFlush`, `FlowSetup` | the receive barrier: four first-in first-out rings, the round-stamped array of barrier messages, the table of heartbeats, and the handshake that gives each ring its own flow |
| `EpochTime`, `Checker`, `EpochLists`, `PlainReceiver`, `CarryReceiver`, `EndToEnd` | the epoch heartbeat protocol: epoch arithmetic, the checker thread, the per-epoch node lists, the plain and the SafeTimer receiver, and senders, network, server and checker around one clock |
| `Lease` | the sender's lease: the netfilter gate, the completion signals and the renewals by the HDFS service loop |
| `OpQueue`, `MapStore`, `MapExchange`, `SplitTracking`, `SplitService`, `HeartbeatPeers`, `PgHistory`, `PastIntervals` | state machines of the Ceph OSD: the sharded operation queue, the OSD map store and exchange, PG splits, heartbeat peers, history projection, the parallel past-interval pass |
| `BlockReport` | the block-report scheduler of the HDFS datanode with its 64-bit clock |
| `Common` | shared definitions |

Protocols are state machines: `Next` gives the effect of one event and `Run` that of a sequence of events, where an
event that is not possible changes nothing; the lemmas quantify over all sequences, that is over all
interleavings of the threads at their locked regions. Code that updates fields, lists and arrays in place is a
class with loops, each method proved against a function on values about which the lemmas speak.
The clock, random numbers, the outcome of opening a connection, checksum failures, the answer of
SafeTimer and the order in which C++ containers are walked are inputs or left open.

Where the code does not do what one would expect, the model follows the code:

- The round stamps of the barrier array separate blocks of 100 epochs only if every message arrives while its
  block is in progress. `AgreementKeptExactly` says exactly which message keeps the array right, and
  `LateRepeatExample` shows a barrier that completes although one ring never delivered it. `BarrierFlush` begins
  the first epoch of a block only after the last epoch of the previous block was posted; `HeadIsInTurn`
  derives from this and from the order of the rings that every message is in turn.
- The first heartbeat of a node stores the time 0, so it does not count as a sign of life
  (`FirstHeartbeatIsForgotten`); it is the only exception in `FailureAnswerIsSafe`, and only as long as it is the node's
  sole processed heartbeat (`FailureAnswerIsSafeForKnown`).
- The checker thread can skip an epoch between two rounds (`AnEpochCanBeSkipped`); `NextRoundExactly` says when. A node
  expected in a skipped epoch is stranded: unless it sends another heartbeat it is never declared
  (`StrandedIsNeverDeclared`).
- The plain receiver reports a node wrongly exactly when its heartbeat for the checked epoch was overtaken by the one before
  (`ReportedExactly`).
- `st_check_timeout` of the sample receiver always returns 0. The receiver is modelled with an arbitrary answer;
  `NotSureDeclaresNobody` states what follows for the sample as it is.
- A completion signal that comes after the lease ran out can renew it (`LateSignalRevives`), and clearing the valid
  time opens the gate (`RevivalsOpen`). `ReopensExactly` says for every state whether an expired lease can come back without an
  answered call, a restart or a clear.
- A peer that is behind need not get further by what `send_incremental_map` sends it: the latest full map
  (`LatestMapIsDropped`) and a range shortened by the share limit (`ShortenedIsDropped`) are dropped by `handle_osd_map` of the
  peer. `SentAdvancesExactly` and `AdvancesByLag` give the exact conditions.
- The deadline given to `sem_timedwait` is a monotonic time taken for a real one, so the wait may time out at once; the
  model lets it time out at any moment with a zero semaphore.
- The split branch of `project_pg_history` overwrites a newer interval start with an older one
  (`SplitMovesIntervalBack`); `IntervalRightExactly` says exactly when the result is right all the same.
- A block report overdue by almost 2^63 ms is moved further into the past, and one that lies more than an interval ahead
  may be moved more than an interval beyond now; `RescheduleExactly` gives both conditions.
- The port in the netfilter rule is named `HB_SERVER_PORT`, which the common header does not define; the model uses
  5001, the port the rule's own message and `ST_HB_SERVER_PORT` give.

## Model

| member | source | states |
|---|---|---|
| BarrierCollector.ArrayRefinesSet | src/queue.c:180-204 | for every block-respecting delivery, of any length and with repeats, a cell of the array carries the current round exactly when that (epoch, ring) of the block in progress was received, all earlier blocks are complete and the posts number the complete epochs |
| BarrierCollector.ReceiveAgrees | src/queue.c:166-204 | one message in turn keeps the agreement between array and set, and reports completion exactly when it is new and makes its epoch complete |
| BarrierCollector.CompletesOnFourthRing | src/queue.c:183-194 | a message completes its epoch if and only if it is no repeat and the other three rings have reported |
| BarrierCollector.CompletesExactlyOnce | src/queue.c:183-204 | each epoch is reported complete once if all four rings delivered it, and never otherwise |
| BarrierCollector.PostsCountCompletedEpochs | src/queue.c:200-204 | the semaphore has been posted once per complete epoch |
| BarrierCollector.PostsExactly | src/queue.c:170-204 | in every state bad fields and repeats change nothing, and a completion posts once unless its epoch is suppressed |
| BarrierCollector.AgreementKeptExactly | src/queue.c:181-198 | a message, in or out of turn, keeps the agreement if and only if it belongs to the block in progress, or is old, completes nothing and finds its cell already marked |
| BarrierCollector.LateRepeatCompletesTooEarly | src/queue.c:183-198 | after a block has turned, a repeat of its last barrier completes the last epoch of the next block without the missing ring |
| BarrierCollector.LateRepeatExample | src/queue.c:183-198 | a concrete block-respecting delivery for which this happens |
| BarrierCollector.BarrierQueue.constructor | src/queue.c:28-33 | the array starts at 0 and the round at 1, so nothing is marked |
| BarrierCollector.BarrierQueue.ProcessBarrier | src/queue.c:166-204 | the code on the two-dimensional array does what `Receive` says: bad fields and repeats ignored, mark, completion test, turn of the round, post |
| HeartbeatTable.TableHoldsLast | src/st_receiver_api.c:53-87 | after any log of heartbeats the entry of a node is absent, 0 after its first heartbeat, and the time of its last one afterwards |
| HeartbeatTable.CheckExactly | src/st_receiver_api.c:21-51 | the check answers 1 exactly when the node is known and its only heartbeat or its last one does not reach back to the start time |
| HeartbeatTable.NodeTable.constructor | src/st_receiver_api.c:92-92 | the table starts empty, standing for the empty log |
| HeartbeatTable.NodeTable.ReceiveHeartbeat | src/st_receiver_api.c:53-87 | the nested tables stay the table of the log extended by this heartbeat |
| HeartbeatTable.NodeTable.SafetimerCheck | src/st_receiver_api.c:21-51 | the answer in terms of all heartbeats ever processed for the node |
| BarrierFlush.HeadIsInTurn | src/barrier.c:139-157 | a barrier at the head of a ring is always in turn for the collector |
| BarrierFlush.InvHolds | src/queue.c:134-205 | over every run: barriers lie in order in each ring, whatever lies behind a barrier arrived after its sending began, no heartbeat is lost, and the collector agrees with what was delivered |
| BarrierFlush.FlushSafety | src/queue.c:134-205 | over every run: once epoch e is posted, every heartbeat that entered any ring before the sending of e began has been processed |
| BarrierFlush.PostedExactly | src/queue.c:189-204 | over every run an epoch is posted exactly when all four rings delivered it, and the semaphore counts these epochs |
| BarrierFlush.SendReachesAllRings | src/barrier.c:139-164 | a send puts the next epoch at the end of each of the four rings, behind all heartbeats that have arrived, and changes nothing else |
| BarrierFlush.FailedSendGoesOn | src/barrier.c:149-156 | a send that stops early leaves the other rings as they are, and the next epoch can be sent |
| BarrierFlush.SentIsPosted | src/queue.c:166-204 | over every run: an epoch sent out is posted as soon as its barrier has left all rings, whatever happened in between, and every heartbeat that arrived before the send has been processed by then |
| BarrierFlush.DrainTakes | src/queue.c:134-205 | processing a ring takes its items in order from the head |
| BarrierFlush.FlushSucceeds | src/queue.c:134-205 | from every reachable state that may send, sending a barrier and processing what is in the rings posts it |
| BarrierFlush.ArrivalIsNoted | src/queue.c:134-152 | a heartbeat enters at the end of its ring with its arrival time |
| BarrierFlush.LoggedHolds | src/queue.c:134-152 | over every run the table is the table of the processed heartbeats, whose times lie between arrival and now and never go back |
| BarrierFlush.AnswerAllowsOnlyOne | src/st_receiver_api.c:21-87 | after an answer 1 a heartbeat at the start time or later can only be the node's sole heartbeat |
| BarrierFlush.FailureAnswerIsSafe | src/st_receiver_api.c:21-87 | over every run: an answer 1 after epoch e was posted means that no heartbeat of that application and node entered a ring between the start time and the sending of e, except one that is the node's only processed heartbeat |
| BarrierFlush.FailureAnswerIsSafeForKnown | src/st_receiver_api.c:21-87 | with two processed heartbeats of the node there is no exception |
| BarrierFlush.FirstHeartbeatIsForgotten | src/st_receiver_api.c:74-77 | in every state, an unknown node's first heartbeat leaves the check answering that it failed |
| FlowSetup.FirstPortAppend | kmodule/receive/barrier_ring_checker_mapping/barrier_ring_checker_mapping.c:90-100 | the first port seen on a ring does not depend on later packets |
| FlowSetup.FirstPortIs | kmodule/receive/barrier_ring_checker_mapping/barrier_ring_checker_mapping.c:90-100 | the port of a ring is that of the first packet from processor 1 with this ring number, and 0 exactly when there is none |
| FlowSetup.PortIsKept | kmodule/receive/barrier_ring_checker_mapping/barrier_ring_checker_mapping.c:94-98 | a ring that has a port keeps it through all further connection attempts |
| FlowSetup.RingPorts.constructor | kmodule/receive/barrier_ring_checker_mapping/barrier_ring_checker_mapping.c:31-31 | no ring has a port |
| FlowSetup.RingPorts.Clear | kmodule/receive/barrier_ring_checker_mapping/barrier_ring_checker_mapping.c:34-39 | clearing forgets all packets hooked so far |
| FlowSetup.RingPorts.Hook | kmodule/receive/barrier_ring_checker_mapping/barrier_ring_checker_mapping.c:90-100 | the array holds for each ring the port of the first packet that counted for it |
| FlowSetup.RingPorts.HookAll | kmodule/receive/barrier_ring_checker_mapping/barrier_ring_checker_mapping.c:67-101 | the same for all packets of an attempt |
| FlowSetup.RingPorts.ValidateConnection | src/barrier.c:283-309 | a connection is valid if and only if its port is the first one seen on some ring; the answer is the lowest such ring, else -1 |
| FlowSetup.FlowTaken | src/barrier.c:411-415 | an accepted attempt gets a ring that had no owner, and no attempt gets two |
| FlowSetup.FourOfFour | src/barrier.c:376-376 | four accepted rings are all the rings |
| FlowSetup.TryConnection | src/barrier.c:376-420 | one attempt is accepted exactly when its port is remembered for a ring, and keeps the assignment of rings to attempts right |
| FlowSetup.SetupRxQueueFlows | src/barrier.c:358-424 | after four accepted connections every ring has the socket of the attempt whose port the hook saw first on it, four different attempts, whatever redundant ones were made |
| EpochTime.EpochContains | sample_hb/helper.c:24-35 | a time belongs to epoch e if and only if it lies between the end of e-1 and the end of e |
| EpochTime.EndedExactly | sample_hb/helper.c:24-35 | epoch e has ended if and only if the current epoch is a later one |
| EpochTime.EpochIsMonotone | sample_hb/helper.c:24-30 | a later time never belongs to an earlier epoch |
| Checker.InvHolds | sample_hb/receiver.c:188-214 | the invariant of the checker loop over every run and every delay |
| Checker.NeverTooEarly | sample_hb/receiver.c:193-203 | over every run no epoch is checked before it ends |
| Checker.StrictlyIncreasing | sample_hb/receiver.c:193-211 | over every run checked epochs are strictly increasing across all rounds |
| Checker.BurstIsConsecutive | sample_hb/receiver.c:202-210 | an inner loop checks consecutive epochs and ends with the last epoch that had ended at its last clock reading |
| Checker.NextRoundExactly | sample_hb/receiver.c:193-194 | a new round continues with the next epoch if and only if no epoch ended since the last clock reading of the old round |
| Checker.AnEpochCanBeSkipped | sample_hb/receiver.c:193-211 | a run in which epoch 2 is never checked |
| EpochLists.WithoutMembers | test/correctness/normal-hb/nhb_receiver.c:134-142 | removing a node removes it and nothing else, and keeps the list free of repeats |
| EpochLists.WithoutCuts | test/correctness/normal-hb/nhb_receiver.c:137-139 | the first occurrence is cut out and the others keep their order |
| EpochLists.AdjoinMembers | test/correctness/normal-hb/nhb_receiver.c:157-163 | adding a node adds it once |
| EpochLists.HeartbeatMembers | test/correctness/normal-hb/nhb_receiver.c:132-165 | a heartbeat for e takes its node out of list e, puts it into list e+1 and changes no other membership |
| EpochLists.Server.constructor | test/correctness/normal-hb/nhb_receiver.c:60-60 | the server starts without lists |
| EpochLists.Server.HandleHeartbeat | test/correctness/normal-hb/nhb_receiver.c:114-166 | the lists become those of `Heartbeat`; a negative epoch is refused and changes nothing |
| EpochLists.Server.RemoveNode | test/correctness/normal-hb/nhb_receiver.c:137-139 | find and remove takes out the first occurrence |
| PlainReceiver.ListsExactly | test/correctness/normal-hb/nhb_receiver.c:114-166 | over every run list e holds a node exactly when the last event that concerns both was its heartbeat for e-1, and no list holds a node twice |
| PlainReceiver.ReportedWhen | test/correctness/normal-hb/nhb_receiver.c:114-234 | at the first check of e a node is in the report if and only if its heartbeat for e-1 was processed and that for e was not, or the latter was overtaken |
| PlainReceiver.ReportedExactly | test/correctness/normal-hb/nhb_receiver.c:204-234 | for every run, the report on a node at the first check of e is right if and only if its heartbeat for e was not overtaken by the one for e-1; no node is reported twice |
| PlainReceiver.OrderedReportIsRight | test/correctness/normal-hb/nhb_receiver.c:204-234 | so it is right whenever the epochs of the node are processed in increasing order |
| PlainReceiver.ReorderedHeartbeatIsReported | test/correctness/normal-hb/nhb_receiver.c:132-165 | without the order a node is reported although both heartbeats were processed |
| PlainReceiver.ExpirationCheckForEpoch | test/correctness/normal-hb/nhb_receiver.c:204-234 | the walk over the list reports all of it and drops the list, as the run's check event says |
| CarryReceiver.CarriedMembers | sample_hb/receiver.c:247-283 | exactly the nodes with answer 1 are declared, exactly the others are carried over, each once |
| CarryReceiver.CheckMembers | sample_hb/receiver.c:232-294 | what a check does to the membership of every list |
| CarryReceiver.DeclaredExactly | sample_hb/receiver.c:247-253 | a check declares exactly the nodes of its list with answer 1 |
| CarryReceiver.CheckKeepsExactly | sample_hb/receiver.c:232-294 | a check leaves a node monitored if and only if it is in a later list, or in the checked one without the answer 1 |
| CarryReceiver.StepKeepsListed | sample_hb/receiver.c:144-177 | one event takes a node out of all lists from an epoch on only by declaring it |
| CarryReceiver.MonitoringNeverLost | sample_hb/receiver.c:188-294 | over every run of heartbeats and checks of increasing epochs, with any epochs skipped, a monitored node is still in a list at or above the cursor, or has been declared since, or sits in a list left behind; no list holds a node twice |
| CarryReceiver.ConsecutiveStrandsNobody | sample_hb/receiver.c:202-210 | without skipped epochs a monitored node stays monitored until it is declared |
| CarryReceiver.StrandedIsNeverDeclared | sample_hb/receiver.c:232-294 | a node that is not monitored and sends no heartbeat is never declared |
| CarryReceiver.SkippedEpochStrands | sample_hb/receiver.c:193-203 | a skipped epoch that strands a node |
| CarryReceiver.HeartbeatStartsMonitoring | sample_hb/receiver.c:156-175 | a heartbeat not older than the cursor starts monitoring |
| CarryReceiver.NotSureDeclaresNobody | sample_hb/receiver.c:216-230 | if every answer is 0, as the sample's own function returns, nobody is ever declared, and monitoring goes on unless an epoch is skipped |
| CarryReceiver.ExpirationCheckForEpoch | sample_hb/receiver.c:232-294 | the loop with its carry-over branch yields the lists of `CheckLists` and the declared nodes |
| EndToEnd.StampIsNext | sample_hb/sender.c:116-127 | a stamp taken within one interval after waking is the epoch after the one slept through |
| EndToEnd.InvHolds | sample_hb/sender.c:116-138 | over every timely run, the joint invariant of one sender, its heartbeats on the way, the lists and the checker |
| EndToEnd.NotInDueList | test/correctness/normal-hb/nhb_receiver.c:204-225 | a timely node is not in the list of an epoch about to be checked |
| EndToEnd.NoFalseTimeout | test/correctness/normal-hb/nhb_receiver.c:114-234 | a sender whose iterations stay within one interval after waking and whose heartbeats are processed before their epoch ends is never reported, in any interleaving |
| EndToEnd.StampsAreConsecutive | sample_hb/sender.c:116-127 | the stamps of such a sender are consecutive epochs |
| EndToEnd.SenderStarts | sample_hb/sender.c:116-118 | a sender starts by reading the clock and has sent nothing |
| EndToEnd.HeartbeatTravels | sample_hb/sender.c:116-138 | an iteration sends one heartbeat, stamped with the epoch of the waking time, and when the server gets it the node is expected in the next epoch |
| EndToEnd.NoHeartbeatWhileAsleep | sample_hb/sender.c:120-124 | nothing is sent before the current epoch has ended |
| EndToEnd.ServerIsPlainReceiver | test/correctness/normal-hb/nhb_receiver.c:114-234 | over every run the lists are those of the plain receiver for the processed heartbeats and checks |
| EndToEnd.CheckerIsChecker | test/correctness/normal-hb/nhb_receiver.c:176-202 | over every run the checker is in the state of the checker thread |
| EndToEnd.CheckReports | test/correctness/normal-hb/nhb_receiver.c:211-231 | a check reports exactly the members of its list and takes the list away |
| EndToEnd.ReportedInRun | test/correctness/normal-hb/nhb_receiver.c:114-234 | over every run, timely or not: when an epoch is checked a node is reported if and only if its heartbeat for the epoch before was processed and that for the epoch was not, or the latter was overtaken; no epoch is checked twice |
| EndToEnd.SilentNodeIsReported | test/correctness/normal-hb/nhb_receiver.c:204-234 | a node that has stopped sending is reported when the epoch after its last heartbeat is checked |
| Lease.InvHolds | hdfs/BPServiceActor.java:486-518 | the lease invariant over every run |
| Lease.AcceptsExactly | kmodule/send/hb_sender_tracker_opt/st_netfilter/st_netfilter.c:22-56 | packets other than heartbeats always pass; heartbeats pass exactly until the valid time, or if none is set |
| Lease.HeartbeatPassesExactly | kmodule/send/hb_sender_tracker_opt/st_netfilter/st_netfilter.c:22-56 | a heartbeat that is sent passes and is in flight if and only if the gate is open, and leaves no trace otherwise |
| Lease.LeaseBound | kmodule/send/hb_sender_tracker_opt/st_netfilter/st_netfilter.c:22-56 | over every run a heartbeat passes the gate no later than 30000 ms after the base of the last renewal, unless no valid time is set |
| Lease.SignalsAreConserved | src/st_sender_api.c:49-64 | over every run successes plus semaphore equal signals, and signals plus packets in flight equal packets that passed |
| Lease.ReopensExactly | kmodule/send/hb_sender_tracker_opt/st_netfilter/st_netfilter.c:22-56 | for every state with an expired lease: some run without an answered call, a restart or a clear opens the gate if and only if a fresh write is due or a signal is left for a later iteration; otherwise no heartbeat passes in any such run |
| Lease.StuckForever | hdfs/BPServiceActor.java:487-518 | a state that cannot reopen stays so along every such run |
| Lease.DeadStaysDead | kmodule/send/hb_sender_tracker_opt/st_netfilter/st_netfilter.c:22-56 | the case of nothing in flight, a zero semaphore and no write due, for which no invariant is needed: no heartbeat passes in any such run |
| Lease.RevivalsOpen | kmodule/send/hb_sender_tracker_opt/st_debugfs/st_debugfs.c:85-92 | each of the three can open the gate again, an answered call only if it began less than a lease ago |
| Lease.LateSignalRevives | kmodule/send/hb_sender_tracker_opt/st_kprobe/st_kprobe.c:24-64 | with a packet in flight when the lease has expired, it can come back by itself if and only if the loop has not stopped |
| Lease.StoppedStaysShut | hdfs/BPServiceActor.java:487-518 | a loop stopped after the lease has run out never renews it |
| Lease.StSender.constructor | src/st_sender_api.c:85-85 | the sender starts as the lease machine does |
| Lease.StSender.ReceiveSignalFromKernel | src/st_sender_api.c:132-135 | the handler performs the completion event of the lease machine, and successes and semaphore still add up to the signals |
| Lease.StSender.UpdateValidTime | src/st_sender_api.c:66-78 | writing the time that is due performs the next step of the service loop in the lease machine, and the gate is open exactly until that time |
| Lease.StSender.ClearDebugfs | src/st_sender_api.c:122-130 | clearing performs the clear event: from then on the gate lets every packet pass at any time |
| Lease.WakeEffect | src/st_sender_api.c:49-51 | the wakeups of a wait, as events of the lease machine, turn packets in flight into posts and let time pass |
| Lease.StSender.AwaitSignal | src/st_sender_api.c:49-64 | the restarted wait is a run of the lease machine that ends with its success, consuming exactly one post, or with its timeout at a zero semaphore; no post is lost |
| Lease.StSender.SendHeartbeat | src/st_sender_api.c:26-64 | the packet meets the gate and its signal is awaited, as steps of the lease machine |
| Lease.HeartbeatIteration | hdfs/BPServiceActor.java:489-518 | an iteration with a heartbeat is a run of the lease machine, so all results on its runs apply; the valid time moves only on a signal or an answer, and an answer has the last word |
| OpQueue.EnqueuedDeque | ceph/OSD.cc:8925-8948 | enqueue appends to the PG's deque and to no other |
| OpQueue.EnqueuedFrontDeque | ceph/OSD.cc:8950-8978 | pushing through the processing list prepends to the PG's deque and keeps the length of the list |
| OpQueue.DequeuedDeque | ceph/OSD.cc:8865-8866 | moving an item into processing leaves every deque as it is |
| OpQueue.TakenDeque | ceph/OSD.cc:8881-8884 | taking an item removes the head of the PG's deque |
| OpQueue.InvHolds | ceph/OSD.cc:8846-8978 | the invariant of the shard and its workers over every interleaving |
| OpQueue.EnqueueDoes | ceph/OSD.cc:8925-8978 | in every reachable state enqueuing puts the operation at the right end of its deque and leaves all else alone |
| OpQueue.IdleThreadParks | ceph/OSD.cc:8865-8867 | an idle thread can take any PG's next item into processing |
| OpQueue.ParkedThreadRunsHead | ceph/OSD.cc:8871-8922 | a parked thread gets the lock of a free PG, runs the head of its deque, and leaves the PG free when it finishes |
| OpQueue.BehavesAsOneDeque | ceph/OSD.cc:8846-8978 | under every interleaving what a PG sees is a run of one plain deque with the same contents |
| OpQueue.ParkedThreadsMatchList | ceph/OSD.cc:8874-8885 | the threads between their two locked regions number the PG's list, so the list is never found gone or empty |
| OpQueue.HolderFindsWork | ceph/OSD.cc:8876-8880 | a thread that got the PG lock finds an item |
| OpQueue.OneAtATime | ceph/OSD.cc:8871-8923 | operations of a PG run one at a time and finish in the order the deque released them |
| OpQueue.ReplayInOrder | ceph/OSD.cc:8925-8948 | a deque that is only appended to releases its items in order |
| OpQueue.FirstInFirstOut | ceph/OSD.cc:8846-8948 | without front insertions, what was started followed by what waits is what was enqueued |
| OpQueue.Conserved | ceph/OSD.cc:8846-8978 | over every run, what was put at either end is what ran together with what waits |
| OpQueue.ShardData.EnqueueItem | ceph/OSD.cc:8925-8948 | the new state of the shard |
| OpQueue.ShardData.EnqueueFrontItem | ceph/OSD.cc:8950-8978 | the new state of the shard, which prepends to the deque |
| OpQueue.ShardData.BeginProcess | ceph/OSD.cc:8852-8867 | the first locked region: the deque does not change |
| OpQueue.ShardData.TakeOp | ceph/OSD.cc:8874-8885 | the second locked region: the head of the deque, or the missing list noticed with nothing changed |
| MapStore.LastGoodRange | ceph/OSD.cc:6917-6929 | maps are stored up to right before the first incremental with a bad checksum |
| MapStore.SkipStoresFirst | ceph/OSD.cc:6841-6859 | a skipping message always stores its first map |
| MapStore.OldestStaysBelow | ceph/OSD.cc:6744-6780 | trimming never overtakes what has just been stored |
| MapStore.HandledKeeps | ceph/OSD.cc:6815-6965 | one message keeps every epoch of the claimed range present and canonical, and never lowers the newest epoch |
| MapStore.TrimmedOldestIs | ceph/OSD.cc:6744-6772 | a trim never passes its bound; it reaches it, or has removed at least the target size and at least as many epochs as came in, and no more than that takes |
| MapStore.StoresExactly | ceph/OSD.cc:6831-6859 | a message leads to new maps if and only if it is newer, leaves no gap that could be filled, and its first new epoch is good; otherwise nothing is stored |
| MapStore.HandledRange | ceph/OSD.cc:6951-6964 | where the claimed range begins and ends afterwards |
| MapStore.HandledContents | ceph/OSD.cc:6864-6960 | exactly which full maps and incrementals are in the store afterwards |
| MapStore.StoreIsCanonical | ceph/OSD.cc:6782-6982 | after every sequence of honest messages each epoch in [oldest, newest] has the canonical full map |
| MapStore.NewestNeverDecreases | ceph/OSD.cc:6951-6964 | the newest epoch never decreases along a run |
| MapStore.ReachesLastExactly | ceph/OSD.cc:6831-6859 | with good checksums a message takes the store to its last epoch if and only if it leaves no gap or starts at or below an oldest map beyond the gap |
| MapStore.OSD.TrimMaps | ceph/OSD.cc:6744-6780 | the loop never passes the bound, reaches it when epochs are skipped, and otherwise reaches it or removes at least the target size and at least the number received and no more than that takes; exactly those epochs go |
| MapStore.OSD.HandleOsdMap | ceph/OSD.cc:6815-6982 | the code refines `Handled` and keeps the store canonical; the assertion on the oldest map holds |
| MapStore.OSD.StoreUsable | ceph/OSD.cc:6861-6965 | the part after the early exits |
| MapStore.OSD.Commit | ceph/OSD.cc:6957-6965 | trim, write and move the claimed range |
| MapStore.OSD.StoreMaps | ceph/OSD.cc:6864-6940 | the loop stores the canonical maps of the message up to the first bad checksum |
| MapStore.OSD.StoreOne | ceph/OSD.cc:6866-6937 | one epoch: full map taken over, or incremental applied |
| MapStore.OSD.Encode | ceph/OSD.cc:6892-6908 | the map before it with the incremental applied is the canonical map |
| MapExchange.LowestRange | ceph/OSD.cc:1212-1227 | where the walk down ends: right after the peer's epoch, or at a full map |
| MapExchange.BuiltIsWellFormed | ceph/OSD.cc:1205-1229 | every message for (since, to] is contiguous, ends at `to`, starts at since+1 or with a full map, and meets what the receiver relies on |
| MapExchange.BuildNeverFails | ceph/OSD.cc:1219-1226 | for a map the sender holds the walk never meets a missing one |
| MapExchange.RoundTrip | ceph/OSD.cc:1205-1267 | the peer that receives the message built for it ends with the sender's map, exactly under the condition stated |
| MapExchange.BuildIncrementalMapMsg | ceph/OSD.cc:1205-1229 | the loop builds that message, or fails exactly on a missing map |
| MapExchange.SentIsWellFormed | ceph/OSD.cc:1236-1267 | the first attempt succeeds with a well-formed message of new epochs: the latest full map for a peer out of reach, and otherwise one that ends exactly where the two limits say |
| MapExchange.SentAdvancesExactly | ceph/OSD.cc:1236-1267 | with good checksums the message takes the peer further if and only if it starts right after the newest map of the peer, or at or below an oldest map beyond it; it then takes it to `to` or to where the limits say, and otherwise the peer keeps what it has |
| MapExchange.AdvancesByLag | ceph/OSD.cc:1246-1264 | the epoch the peer ends at, by lag and limits alone, for a sender that has its incrementals |
| MapExchange.LatestMapIsDropped | ceph/OSD.cc:1246-1254 | a peer that misses more than one map drops a latest full map newer than the oldest map known |
| MapExchange.ShortenedIsDropped | ceph/OSD.cc:1256-1260 | a peer that can still be served from its next map on drops a shortened range |
| SplitTracking.StartedKeeps | ceph/OSD.cc:291-305 | starting a split keeps the two maps inverse |
| SplitTracking.StartedMembers | ceph/OSD.cc:291-305 | the effect of starting a split on every PG |
| SplitTracking.MarkedMembers | ceph/OSD.cc:307-326 | the effect of marking children on every PG |
| SplitTracking.CompletedMembers | ceph/OSD.cc:439-450 | exactly the completed PGs leave, every other PG stays where it is |
| SplitTracking.CancelledMembers | ceph/OSD.cc:334-351 | the effect of a cancel on every PG |
| SplitTracking.DescIsChain | ceph/OSD.cc:340-349 | a descendant is a PG from which a chain of pending parents leads up to the parent |
| SplitTracking.KidsExactly | ceph/OSD.cc:359-362 | every PG new in a grown pool is a child of its one ancestor in the old map and of no other PG |
| SplitTracking.ExpandedMembers | ceph/OSD.cc:405-430 | an expansion forgets the PGs of deleted pools, keeps the others and makes their children pending |
| SplitTracking.MarkedKeeps | ceph/OSD.cc:307-326 | marking in progress keeps them inverse, without an empty child set |
| SplitTracking.CancelledKeeps | ceph/OSD.cc:334-351 | so does removing exactly the pending descendants |
| SplitTracking.ExpandedKeeps | ceph/OSD.cc:405-430 | the loop over deleted pools restores the inverse it breaks on the way |
| SplitTracking.TrackingIsConsistent | ceph/OSD.cc:291-450 | in every reachable state the maps are mutually inverse with no empty child set, and pending and in-progress PGs are disjoint |
| SplitTracking.BoundedCanExpand | ceph/OSD.cc:291-304 | if every tracked PG exists in the old map, the assertions of an expansion hold |
| SplitTracking.ExpansionsMeetTheirAssertions | ceph/OSD.cc:291-430 | along consecutive maps whose PG numbers do not shrink, every tracked PG exists in the current map in every reachable state, so no expansion fails its assertions |
| SplitService.UnderChildrenIsDesc | ceph/OSD.cc:340-349 | the subtrees of the children are the descendants of the parent |
| SplitService.SubtreesApart | ceph/OSD.cc:340-349 | the subtrees of two children have nothing in common |
| SplitService.OneMoreChild | ceph/OSD.cc:340-349 | cancelling one more child removes exactly its subtree |
| SplitService.WalkIsComplete | ceph/OSD.cc:419-429 | a walk that met every entry, also the inserted children, split every survivor and dropped every dead one |
| SplitService.OSDService.StartSplit | ceph/OSD.cc:291-305 | the loop refines `Started`; its assertions hold |
| SplitService.OSDService.MarkSplitInProgress | ceph/OSD.cc:307-326 | the loop refines `Marked`; its assertions hold |
| SplitService.OSDService.CancelPendingSplitsForParent | ceph/OSD.cc:328-332 | removes exactly the pending descendants of the parent and keeps the invariant |
| SplitService.OSDService.CancelRecursively | ceph/OSD.cc:334-351 | the recursion terminates with exactly the descendants gone, although the maps are not inverse on the way |
| SplitService.OSDService.MaybeSplitPgid | ceph/OSD.cc:353-366 | starts the split into the children of the new map; its assertions hold |
| SplitService.OSDService.ExpandPgNum | ceph/OSD.cc:405-430 | both loops together refine `Expanded` and keep the invariant |
| SplitService.OSDService.ExpandInProgress | ceph/OSD.cc:409-418 | the first loop |
| SplitService.OSDService.ExpandPending | ceph/OSD.cc:419-429 | the second loop, which also meets the entries it inserts, terminates with every survivor split and every dead entry dropped; its assertions hold |
| SplitService.OSDService.Splitting | ceph/OSD.cc:432-437 | a PG is splitting exactly when it is tracked |
| SplitService.OSDService.CompleteSplit | ceph/OSD.cc:439-450 | exactly these PGs leave; its assertions hold |
| HeartbeatPeers.NextIsUp | ceph/OSD.cc:3833-3835 | the next up OSD by the order of the ring with wrap-around: up, another one, and none in between; -1 exactly when no other is up |
| HeartbeatPeers.PreviousIsUp | ceph/OSD.cc:3836-3838 | the previous up OSD by the order of the ring, and -1 exactly when no other is up |
| HeartbeatPeers.PreviousOfNext | ceph/OSD.cc:3833-3838 | the previous OSD of the next one is where one started |
| HeartbeatPeers.WalkStep | ceph/OSD.cc:3863-3874 | each step of the ring walk meets one more OSD, until it comes full circle and has met all |
| HeartbeatPeers.Osd.AddPeer | ceph/OSD.cc:3720-3754 | not itself; a known peer is refreshed; a new one is added if its connection opens |
| HeartbeatPeers.Osd.RemovePeer | ceph/OSD.cc:3756-3769 | the peer is gone; the assertion is a precondition that every caller meets |
| HeartbeatPeers.Osd.AddPgPeers | ceph/OSD.cc:3808-3829 | on an active OSD every up peer of a PG is a peer of this epoch or failed to connect |
| HeartbeatPeers.Osd.RemoveDown | ceph/OSD.cc:3846-3859 | exactly the down peers go, and the extras are the wanted ones and those of older epochs |
| HeartbeatPeers.Osd.AddRandom | ceph/OSD.cc:3861-3874 | the walk terminates with enough peers or with every up OSD tried, and adds none beyond the minimum |
| HeartbeatPeers.Osd.TrimExtras | ceph/OSD.cc:3876-3883 | trims extras only, never wanted peers, never below the minimum |
| HeartbeatPeers.Osd.UpdateHeartbeatPeers | ceph/OSD.cc:3799-3886 | whichever connections fail: only up peers other than itself; the next and the previous up OSD by the order of the ring and every up PG peer kept unless their connection failed; enough peers or all tried; and none given up below the minimum |
| PgHistory.LatestIs | ceph/OSD.cc:3639-3650 | what the latest change in a range means |
| PgHistory.LatestFurther | ceph/OSD.cc:3699-3701 | looking further back matters only if nothing was found |
| PgHistory.StopsExactly | ceph/OSD.cc:3699-3700 | the early stop in terms of the final values |
| PgHistory.IntervalRightExactly | ceph/OSD.cc:3660-3678 | the interval found is the right one if and only if no split is in range or the walk stops in time |
| PgHistory.NoSplitIsExact | ceph/OSD.cc:3660-3672 | with a constant number of PGs the interval start is the maximum of the input and the latest change |
| PgHistory.UpIsConstantSince | ceph/OSD.cc:3679-3686 | the up set is the current one in every map since the epoch found |
| PgHistory.PlacementIsConstantSince | ceph/OSD.cc:3660-3672 | up and acting sets and both primaries are the current ones in every map since the epoch found |
| PgHistory.NoChangeSince | ceph/OSD.cc:3673-3697 | no change of primary and no split since the epochs found |
| PgHistory.ChangedAtSince | ceph/OSD.cc:3660-3697 | each epoch found beyond the input is one at which that change happened |
| PgHistory.SplitMovesIntervalBack | ceph/OSD.cc:3673-3678 | a history in which the split branch answers an epoch that is too old |
| PgHistory.CompareMaps | ceph/OSD.cc:3660-3697 | the four comparisons of one round |
| PgHistory.ProjectPgHistory | ceph/OSD.cc:3628-3716 | despite the early break, the up and primary epochs are the maximum of input and latest change in range, and the interval is the one described, or the creation epoch if nothing was found down to it; it fails only on a missing map |
| PastIntervals.Solo | ceph/OSD.cc:3355-3410 | a PG's own pass yields an interval start within its range |
| PastIntervals.SoloFinds | ceph/OSD.cc:3362-3409 | a PG's own pass finds the last epoch with a new interval, the placement by the map of that epoch, and the past intervals as each test recorded them |
| PastIntervals.RebuiltIsRight | ceph/OSD.cc:3413-3426 | a known interval start is kept; a cleared one becomes that epoch, or the end of an empty range |
| PastIntervals.SweepStep | ceph/OSD.cc:3359-3409 | one epoch of the sweep moves a PG exactly as its own pass does |
| PastIntervals.BuildPastIntervalsParallel | ceph/OSD.cc:3308-3426 | for any PGs and ranges, the single sweep leaves each with the intervals and interval start of a loop over its own range, which are the recorded intervals and the last epoch with a new interval |
| PastIntervals.CollectRanges | ceph/OSD.cc:3312-3340 | the range swept covers that of every PG; PGs with nothing to do are finished here |
| PastIntervals.Sweep | ceph/OSD.cc:3349-3411 | after the sweep each PG is where its own pass ends |
| PastIntervals.SweepEpoch | ceph/OSD.cc:3355-3410 | one epoch for all PGs |
| BlockReport.DueExactly | hdfs/BPServiceActor.java:835-841 | for times less than 2^64 apart, the due test agrees with the comparison of the true times if and only if they are less than 2^63 apart (or exactly 2^63 overdue) |
| BlockReport.RescheduleIsTrue | hdfs/BPServiceActor.java:879-881 | the wrapped computation is the wrapped true move, at all distances below 2^63 |
| BlockReport.RescheduleExactly | hdfs/BPServiceActor.java:872-881 | the new time is on the grid; it is after now, and at most one interval after it, exactly under the conditions stated |
| BlockReport.LongOverdueMovesBack | hdfs/BPServiceActor.java:879-881 | a report overdue by 2^63-1 is moved into the past |
| BlockReport.ScheduleStaysOnGrid | hdfs/BPServiceActor.java:865-883 | over any number of reschedules and wrap-arounds the stored time stands for a true time congruent to the original schedule |
| BlockReport.Scheduler.constructor | hdfs/BPServiceActor.java:799-814 | both times are their clock readings and a reset is due |
| BlockReport.Scheduler.IsHeartbeatDue | hdfs/BPServiceActor.java:835-837 | due exactly when the true time has come, for true times whose distance fits 64 bits |
| BlockReport.Scheduler.IsBlockReportDue | hdfs/BPServiceActor.java:839-841 | due exactly when the true time has come, for true times whose distance fits 64 bits |
| BlockReport.Scheduler.ScheduleNextHeartbeat | hdfs/BPServiceActor.java:829-833 | the stored time stands for the true time one interval after now, whatever wraps around |
| BlockReport.Scheduler.ScheduleBlockReport | hdfs/BPServiceActor.java:847-857 | now or a random time later, with a reset; refused with nothing changed when the narrowed delay is not positive |
| BlockReport.Scheduler.ScheduleNextBlockReport | hdfs/BPServiceActor.java:865-883 | a random start after a reset, else the grid; refused when the narrowed interval is not positive |

## Left out

- Sockets, select and accept loops, debugfs text, signal delivery and thread cancellation; only the state changes they trigger are modelled.
- Header offsets in `process_packet`, and TCP segments shorter than the two-long payload; a decoded message is the input.
- BarrierCollector.BarrierQueue.ProcessBarrier: requires a ring number below 4, because the code indexes past its array with a larger one; the round is an unbounded integer, not a 32-bit one.
- The commented-out `barrier_flush`; it is the reason why epochs are begun one after the other in `BarrierFlush`.
- The lock and memory layout of the hash tables and lists; they are maps and sequences.
- FlowSetup.RingPorts.Hook: the two-processor configuration only, with a ring register below 4.
- FlowSetup.RingPorts.ValidateConnection: the error return when a port cannot be read.
- FlowSetup.SetupRxQueueFlows: failures of socket calls, and ports that are reused; the attempts offered by the environment are finite.
- EpochTime.EpochContains: positive intervals only; with an interval of 0 there is no epoch, and the function answers -1.
- The registration messages of the heartbeat server.
- The choice of the peer in `safetimer_send_heartbeat`, and waits that fail for other reasons than the timeout.
- Iterations of the HDFS service loop in which no heartbeat is due.
- OpQueue.BehavesAsOneDeque: one shard and one priority class; the cost and owner of items, and the removal of items when a PG is dequeued, are not modelled.
- MapStore.OSD.HandleOsdMap: the checks of cluster id, permissions and start-up that drop a message before anything happens, subscriptions, requests for full maps, and `mounted` and `clean_thru` of the superblock.
- MapStore: decoding and encoding of maps; a map is an abstract value, and the lower bound of the map cache an input that does not exceed the first epoch just stored.
- MapExchange.SentIsWellFormed: peers that are not behind, for which the code's unsigned difference wraps around, and the retry loop, which is not needed when the sender holds the map.
- SplitTracking.ExpansionsMeetTheirAssertions: splits started outside an expansion are taken to be of untracked PGs of the current map.
- SplitService.OSDService.ExpandPending: the order in which the iterator meets the entries is left open; that inserted children come after their parent is taken from the order of PG ids.
- `init_splits_between`, which walks over maps and calls `start_split`, and the bit arithmetic of `is_split`; which PG a new PG belongs to is an abstract function.
- The part of `maybe_update_heartbeat_peers` that forces an update while waiting to become healthy, and the front connection of a peer.
- PgHistory.ProjectPgHistory: the interval is described for histories in which a PG that has split since some map has split since every older map; `is_split`, `primary_changed` and the placement are abstract.
- PastIntervals: `_calc_past_interval_range`, `check_new_interval` and the placement are functions of the world outside, PGs are values, and the writing of the PG infos at the end is left out.
- BlockReport.Scheduler.constructor: a block-report interval that is not positive; the code divides by it.
- The rest of the Ceph OSD, the older sender tracker module, the drop counters, the delay and drop test modules, the Java wrappers and the rest of the HDFS actor; they would only add easy members.
