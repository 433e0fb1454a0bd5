# OpenTrustee framework and drivers: a model and its proofs

OpenTrustee's user-space framework consists of small stateful protocols whose correctness is a
property of whole runs. This project models eight of them and proves what they promise.

| part | files | what is modelled |
|---|---|---|
| driver manager | `drvmgr_*.dfy` | open, close, register, unregister and spawn, by any number of threads, over reference-counted task nodes with fd lists |
| SMC slots | `smc_*.dfy` | the round-robin scanner over memory shared with the normal world, which may write between calls or between any two reads |
| agents | `agents*.dfy`, `service_thread.dfy` | the agent lock with its queues, and the single-server request list of the service thread |
| boot TLV table | `tlv_*.dfy` | the loader that writes a table of named items and the driver that reads it |
| crypto share memory | `share_mem.dfy` | length-prefixed segments, parsed in place, shrunk by an engine, compacted in place, read back by the client |
| random cache | `random_cache.dfy` | a 4096-byte cache in front of a random engine |
| mailbox | `mailbox.dfy` | the window of normal-world memory, parameter translation, results going back |
| config segments | `config_parser.dfy` | where the parts of a TA configuration package lie |

`options.dfy` and `bytes.dfy` hold what several parts share: optional values, bytes, little-endian
words, 32-bit sums.

The driver manager is a state machine: one action is one critical section of `g_task_mtx`,
`fd_mtx` or `state_mtx`, or one call to a driver, and a thread between two actions is a program
counter with its local variables. Its invariant counts, for every node, who still owes it a
reference, a unit of `fd_count`, a spawn result or the closing of a descriptor. What whole calls
come to, from idle to idle and whatever the other threads hold, is stated beside it: an open gets
the descriptor, a failed one leaves nothing, a close undoes an open, an exit undoes all of a
caller's opens, an unregistration undoes a registration. The critical sections themselves are also written as methods of a class with loops over mutable lists, and
each is proved equal to what the state machine does. The other parts have the same two layers:
code as methods, a function that says what the code means, and lemmas about that function over
all inputs or all runs.

Some promises fail as stated. Each has its exact condition, and where the condition alone does
not show it, a concrete witness:

- Reference counts are exact in every state of a run if and only if every unregistration names a
  node that gtask itself registered (`AccountedIffDisciplined`, witness `ImplicitUnregisterFrees`).
  Nodes made on the fly for base drivers carry no token for gtask to give back.
- When a caller has exited, the descriptors that nobody will close are exactly those added by
  opens that complete late (`LeftOpenExactly`, witness `LateOpenHappens`); there are none if no
  open was in flight (`AllClosedIfNoOpening`).
- `get_last_in_cmd` delivers whenever something is deliverable, unless the slot at `last_index`
  is pending and must be skipped: its `continue` then runs into the loop test and ends the scan
  (`DeliversIff`, witness `StoppingEarlyHappens`). The next call delivers (`NextCallDelivers`).
- A slot with an unanswered command delivers no other one, as long as the three reads of a slot
  within one call agree on whether it holds an abort. In general it delivers again iff the first
  read shows an abort, or so did the third read of every delivery since the last answer
  (`TakenAgainIff`, witness `TakenTwiceHappens`).
- `process_unlock_agent` by a session that does not have the agent returns iff no other session
  waits for that agent (`UnheldReturnsIff`, witness `UnlockSpinsHappens`).
- The sessions that joined an agent's queue are those served followed by those that wait, in the
  same order, iff none was released while it waited (`ServedInOrderIff`, witness
  `LeavingHappens`). With departures, the queue is still the line of those that joined and stayed,
  and only its head is ever served (`FirstInFirstOut`, `NobodyOvertakes`).
- `hw_generate_random_ops`, when it succeeds, returns engine bytes, unless the request is served
  without a refill after the last refill failed (`EngineBytesIff`, witness `ZerosHappen`).
- An item of the boot table is found iff it is the first match and neither it nor an item before
  it has an empty value (`LookupIff`); its value comes back iff its owner list is not empty or
  the value is all zero (`StoredIff`).
- The search of the boot table stays inside its memory on every table of the loader
  (`WalkOnTable`). On other memory it leaves it iff there are items to go and fewer bytes left
  than an item header (`WalkLeavesIff`, witness `WalkLeavesHappens`).
- An item found in such memory ends outside it iff the 32-bit sum of its lengths wraps
  (`FoundOutsideIffWraps`, witness `WrapHappens`), and `get_tlv_msg` then leaves the memory iff it
  gets to those bytes (`CopyLeavesIff`).
- The copy of a result into the normal world's buffer stays in that buffer, for all contents, iff
  the result is reported short or the size that the TA shows for the copy, its second fetch, is
  at most the size on entry (`TidyIff`, `CallTidyIff`, witnesses `WritesBehindHappens` and
  `ReadsBehindHappens`).
- `check_share_mem_size` reads inside the buffer it is given iff no length field that it gets to
  is cut off by the buffer's end (`OverreadsExactBuffer`, witness `OverreadHappens`). It never
  accepts such a buffer, and four bytes behind the buffer are always enough (`EnoughBehind`).

## Model

| member | source | states |
|---|---|---|
| DrvRuns.AccountedIffDisciplined | framework/drvmgr/src/task_mgr.c:527-549 | in every run of any number of threads, `ref_cnt` of every node equals registration token plus fd entries plus what operations in flight owe, in every state, iff gtask unregisters only what it registered |
| DrvRuns.UndisciplinedBreaks | framework/drvmgr/src/drv_dispatch.c:603-653 | unregistering a node gtask never registered breaks that equation at once |
| DrvRuns.ImplicitUnregisterFrees | framework/drvmgr/src/drv_dispatch.c:123-151 | a concrete run in which such an unregistration frees a node that an open in flight still refers to |
| DrvPreserve.InvApply | framework/drvmgr/src/drv_dispatch.c:249-395 | every action of every thread keeps the whole invariant: token accounting, fd counts, descriptor holders, close flags, list uniqueness, driver indexes |
| DrvRuns.ReachableInv | framework/gtask/src/app_load/tee_app_load_srv.c:463-482 | the invariant holds in every state reachable while gtask unregisters only registered nodes |
| DrvRuns.PutsAreCovered | framework/drvmgr/src/task_mgr.c:527-549 | `put_node` never meets its "dec_cnt invalid" branch: the count covers what is given back |
| DrvRuns.ReferencesAreLive | framework/drvmgr/src/task_mgr.c:527-549 | no use after free: every node a thread or an fd entry refers to is live |
| DrvRuns.FreedExactlyWhenUnreferenced | framework/drvmgr/src/task_mgr.c:527-549 | a caller node is freed exactly when it is unregistered and the thread gives back the last references there are |
| DrvRuns.ClosedAtMostOnce | framework/drvmgr/src/drv_fd_ops.c:229-280 | every descriptor a driver handed out is closed at most once, and until then held in exactly one place, even when close races with exception close |
| DrvRuns.OneCloser | framework/drvmgr/src/drv_fd_ops.c:87-123 | no two threads ever hold the same descriptor for closing |
| DrvRuns.DistinctFds | framework/drvmgr/src/drv_dispatch.c:326-339 | no caller's list holds one fd value twice, given drivers that do not hand out an open descriptor again |
| DrvRuns.ScanFlagsOne | framework/drvmgr/src/drv_fd_ops.c:87-123 | so the close scan, which goes on after its first hit, flags exactly the entry it returns, and returns none only if all hits are being closed |
| DrvRuns.FdCountExact | framework/drvmgr/src/drv_fd_ops.c:173-223 | `fd_count` is the list length plus the opens in flight and at most 32, so it is never zero where it is decremented |
| DrvRuns.ListIsUnambiguous | framework/drvmgr/src/task_mgr.c:843-878 | at most one node per uuid that is not exiting, and one driver per name and per index, is ever listed |
| DrvRuns.DriverFreedOnlyUnused | framework/drvmgr/src/task_mgr.c:880-929 | a listed driver is freed only by its unregistration, unspawned, and with no reference held anywhere |
| DrvThreads.SpawnedOnce | framework/drvmgr/src/drv_dyn_conf_mgr.c:273-350 | over every run, exactly one thread is told to spawn a driver once it has left LOAD, exactly one broadcast is made, when it leaves SPAWN, and the thread that broadcasts is the one that was told |
| DrvThreads.SpawnerBroadcasts | framework/drvmgr/src/drv_dyn_conf_mgr.c:273-350 | between the grant to a thread and the broadcast, that thread alone has the duty to spawn, and the broadcast is its own |
| DrvThreads.SpawnerIsAlone | framework/drvmgr/src/drv_dyn_conf_mgr.c:289-292 | whoever spawns a driver finds it in SPAWN, and no other thread spawns it |
| DrvThreads.Progress | framework/drvmgr/src/drv_dyn_conf_mgr.c:293-306 | in any reachable state every thread inside an operation has a next action, or waits for a driver that another thread is spawning, which has one |
| DrvExit.LeftOpenExactly | framework/drvmgr/src/drv_fd_ops.c:229-280 | once a caller has exited and nobody scans its list, the entries nobody is closing are, over every run, those that were there plus one per open that completes late |
| DrvExit.AllClosedIfNoOpening | framework/drvmgr/src/drv_fd_ops.c:65-85 | without an open in flight at that point no entry is ever added to an exited caller |
| DrvExit.LateOpenHappens | framework/drvmgr/src/drv_dispatch.c:603-653 | a run after which all threads are idle, the caller has exited, and one descriptor is open for good |
| DrvExit.ListedIsOpen | framework/drvmgr/src/drv_dispatch.c:326-339 | a listed descriptor has been handed out once more often than closed |
| DrvExit.ScanLeavesNothing | framework/drvmgr/src/drv_fd_ops.c:246-272 | when the exit loop ends every entry left is being closed by some thread |
| DrvExit.ExitLoopIs | framework/drvmgr/src/drv_fd_ops.c:246-272 | the whole loop is a run of the exiting thread's own actions of the machine, ending in the state that `ExceptionClose` computes, with the references to give back counted |
| DrvRuns.StageStep | framework/drvmgr/src/drv_dyn_conf_mgr.c:273-350 | driver states only move LOAD, SPAWN, then NORMAL or SPAWN_FAIL, and only by a grant or a broadcast |
| DrvRuns.OpenersSeeNormal | framework/drvmgr/src/drv_dispatch.c:210-247 | whoever goes on to open a driver found it in NORMAL |
| DrvOutcomes.OpenSucceeds | framework/drvmgr/src/drv_dispatch.c:249-307 | a whole open, in any state: with room, a listed caller and a running driver of exactly the name asked for, the caller gets every descriptor the driver may hand out, driver index in the upper half, and nothing else changes |
| DrvOutcomes.OpenFindsDriver | framework/drvmgr/src/drv_dispatch.c:249-280 | the open gets to the one driver of that name, with a reference on each node and a unit of `fd_count` |
| DrvOutcomes.NormalDriverOpens | framework/drvmgr/src/drv_dyn_conf_mgr.c:288-310 | whoever has, or waited for, a driver in NORMAL gets each descriptor it may hand out |
| DrvOutcomes.LoadedDriverSpawns | framework/drvmgr/src/drv_dispatch.c:210-247 | the first opener of a loaded driver spawns it, makes it NORMAL with its pid, and gets the descriptor |
| DrvUndo.DeadDriverLeavesNothing | framework/drvmgr/src/drv_dispatch.c:282-314 | an open of a driver that could not be spawned fails and leaves nothing |
| DrvUndo.NoDriverLeavesNothing | framework/drvmgr/src/drv_dispatch.c:268-314 | so does an open of a name that no listed driver has |
| DrvUndo.FullCallerLeavesNothing | framework/drvmgr/src/drv_fd_ops.c:173-200 | and one by a caller with 32 descriptors |
| DrvUndo.RefusedBacksOut | framework/drvmgr/src/drv_dispatch.c:282-314 | an open refused with a driver in hand gives back both references and the unit, from any state |
| DrvUndo.UndoneBacksOut | framework/drvmgr/src/drv_dispatch.c:290-314 | one that fails with a descriptor in hand also closes it at the driver it came from |
| DrvUndo.SaturatedCallerIsRefused | framework/drvmgr/src/task_mgr.c:396-451 | a caller at the counter's maximum is refused at once |
| DrvUndo.SaturatedDriverIsRefused | framework/drvmgr/src/task_mgr.c:351-377 | so is a driver |
| DrvUndo.UnknownCallerIsRefused | framework/drvmgr/src/task_mgr.c:277-305 | a call by somebody without a matching node changes nothing |
| DrvClosing.CloseSucceeds | framework/drvmgr/src/drv_dispatch.c:316-395 | a whole close, in any state: the entry leaves the list, its own driver is told once, both nodes lose one reference and the caller one unit; a node without references is freed; nothing else changes |
| DrvClosing.CloseMisses | framework/drvmgr/src/drv_fd_ops.c:87-123 | a close of an fd the caller does not have, or that is being closed, changes nothing |
| DrvClosing.CloseUndoesOpen | framework/drvmgr/src/drv_dispatch.c:249-395 | open, then close: everything is as before |
| DrvRegistry.ExitCompletes | framework/drvmgr/src/drv_dispatch.c:603-653 | a whole exit, in any state: the node goes to EXIT, every entry nobody else is closing is closed, and the node is freed exactly if no reference is left |
| DrvRegistry.TaRegisters | framework/drvmgr/src/task_mgr.c:843-878 | a TA is listed exactly if no listed node answers for its uuid |
| DrvRegistry.ImplicitRegisters | framework/drvmgr/src/drv_dispatch.c:123-168 | a caller without a node gets one on the fly, held by its open only, or the open ends |
| DrvRegistry.DriverRegisters | framework/drvmgr/src/task_mgr.c:843-878 | a driver is listed, unspawned and under the lowest free index, exactly if its name, uuid and policy allow; otherwise the index is free again |
| DrvRegistry.DriverUnregisters | framework/drvmgr/src/task_mgr.c:880-929 | a driver is unregistered exactly if unspawned and unreferenced |
| DrvRegistry.UnregisterUndoesRegister | framework/drvmgr/src/task_mgr.c:843-929 | list and indexes are then as before the registration |
| DrvManager.DriverManager.AllocDrvIndex | framework/drvmgr/src/drv_index_mgr.c:21-45 | takes the lowest free index, one-based, or fails exactly if all are taken |
| DrvManager.DriverManager.ClearDrvIndex | framework/drvmgr/src/drv_index_mgr.c:47-66 | frees that index alone and ignores anything out of range |
| DrvManager.DriverManager.FindNormalNode | framework/drvmgr/src/task_mgr.c:277-305 | returns the first listed node that matches uuid, NORMAL and pid, and adopts the pid in that node only |
| DrvManager.DriverManager.FindEffectiveNode | framework/drvmgr/src/task_mgr.c:308-322 | returns the first listed node of that uuid that is not exiting, none only if there is none |
| DrvManager.DriverManager.FindNodeByName | framework/drvmgr/src/task_mgr.c:324-344 | the same for drivers by name |
| DrvManager.DriverManager.GetNodeByUuid | framework/drvmgr/src/task_mgr.c:396-451 | does to the shared state what the machine's first open or close action does |
| DrvManager.DriverManager.GetDrvNodeByName | framework/drvmgr/src/task_mgr.c:351-377 | is the machine's action that looks the driver up and takes a reference, refused at the counter's maximum; keeps the whole invariant |
| DrvManager.DriverManager.GetTaNodeAndSetExit | framework/drvmgr/src/task_mgr.c:461-464 | takes the machine's exit target, with one more reference, into EXIT |
| DrvManager.DriverManager.PutNode | framework/drvmgr/src/task_mgr.c:527-549 | nodes and list change as the machine's put does, including the branch that leaves a short count alone |
| DrvManager.DriverManager.ReceiveTaskConf | framework/drvmgr/src/task_mgr.c:843-878 | a node joins the list exactly if the machine admits it |
| DrvManager.DriverManager.FreeDrvConfByServiceName | framework/drvmgr/src/task_mgr.c:880-929 | the whole shared state afterwards is the machine's unregistration of that name |
| DrvManager.DriverManager.AddFd | framework/drvmgr/src/drv_fd_ops.c:65-85 | is the machine's action that ends an open, and keeps the whole invariant |
| DrvManager.DriverManager.GetFdCount | framework/drvmgr/src/drv_fd_ops.c:173-200 | is the machine's action that takes a unit of `fd_count`; the thread goes on exactly if it now owns one; keeps the whole invariant |
| DrvManager.DriverManager.PutFdCount | framework/drvmgr/src/drv_fd_ops.c:202-223 | is the machine's action that gives the unit back; under the invariant the count is not zero there, so the branch for zero is dead |
| DrvManager.DriverManager.CloseGetFdNode | framework/drvmgr/src/drv_fd_ops.c:87-123 | flags and finds what the machine's scan does |
| DrvManager.DriverManager.DelFd | framework/drvmgr/src/drv_fd_ops.c:125-155 | the first equal entry leaves the list and `fd_count` drops by one |
| DrvManager.DriverManager.ExceptionClose | framework/drvmgr/src/drv_fd_ops.c:229-280 | undisturbed, closes every entry nobody else is closing, gives back each driver's reference and returns how many |
| DrvManager.CloseFromKeepsFlagged | framework/drvmgr/src/drv_fd_ops.c:229-280 | what is left are the entries being closed elsewhere, in order, and `fd_count` dropped by the number of the others |
| DrvManager.DriverManager.CheckDrvNodeState | framework/drvmgr/src/drv_dyn_conf_mgr.c:273-322 | NORMAL succeeds, LOAD becomes SPAWN and must be spawned, SPAWN must wait, anything else fails, each exactly; this is the machine's state check and keeps the whole invariant |
| DrvManager.DriverManager.CheckAfterWait | framework/drvmgr/src/drv_dyn_conf_mgr.c:293-306 | a thread that waited succeeds exactly if the driver is in NORMAL, and otherwise fails; this is the machine's second check |
| DrvManager.DriverManager.BroadcastDrvState | framework/drvmgr/src/drv_dyn_conf_mgr.c:324-350 | is the machine's broadcast by the spawning thread; under the invariant the driver is in SPAWN there, so the "not DRV_SPAWN" branch is dead |
| SmcSlots.SmcScanner.GetLastInCmd | framework/gtask/src/framework/global_task.c:186-244 | the scan terminates and has exactly the effect of `Get`: deliver the nearest deliverable slot, mark what was passed |
| SmcSlots.SmcScanner.PutLastOutCmd | framework/gtask/src/framework/global_task.c:246-277 | the answer is in its slot with the out bit raised and the private bit cleared, all other slots are as before; a bad slot number changes nothing |
| SmcSlots.SmcScanner.IsCmdInUnproceed | framework/gtask/src/framework/global_task.c:520-535 | true exactly if some slot is pending |
| SmcRuns.DeliveriesAreSeparated | framework/gtask/src/framework/global_task.c:186-277 | two ordinary deliveries from one slot always have an answer for that slot between them, in every run and from every state, whatever the normal world writes between calls |
| SmcRuns.BusyRemembers | framework/gtask/src/framework/global_task.c:198-207 | from the start, the private bit is set exactly while a delivered command is unanswered |
| SmcRuns.NeverDeliveredTwice | framework/gtask/src/framework/global_task.c:198-226 | nothing but an abort is delivered to a slot with an unanswered command |
| SmcRuns.DeliversNearest | framework/gtask/src/framework/global_task.c:190-232 | what is delivered is a deliverable command, unchanged, and none is nearer in cyclic order |
| SmcRuns.DeliversIff | framework/gtask/src/framework/global_task.c:193-232 | a call delivers iff something is deliverable and the slot at `last_index` does not stop it |
| SmcRuns.StoppingEarlyHappens | framework/gtask/src/framework/global_task.c:198-219 | a state with a deliverable command in which a call delivers nothing |
| SmcRuns.NextCallDelivers | framework/gtask/src/framework/global_task.c:583-600 | in that case the main loop does not block, and the next call delivers |
| SmcRuns.NothingLeft | framework/gtask/src/framework/global_task.c:193-232 | a full scan without a delivery leaves nothing pending |
| SmcRuns.WaitIsBounded | framework/gtask/src/framework/global_task.c:190-232 | a slot that stays deliverable sees at most its cyclic distance, so at most 17, deliveries to others |
| SmcRuns.DeliveryApproaches | framework/gtask/src/framework/global_task.c:227-229 | each delivery strictly lowers the cyclic distance to every other waiting slot |
| SmcRuns.GetTouchesOnly | framework/gtask/src/framework/global_task.c:186-244 | a call writes only doing bits, of what it delivers and of what it must skip, and every other deliverable command stays deliverable |
| SmcRuns.PutAnswers | framework/gtask/src/framework/global_task.c:246-277 | an answer goes whole into its own slot and changes no other |
| SmcRuns.AnswerStays | framework/gtask/src/framework/global_task.c:246-277 | over every run, until the normal world writes, a slot holds its last answer with the bit set |
| SmcRuns.DeliverableMeans | framework/gtask/src/framework/global_task.c:197-219 | what is deliverable, in the words of the shared memory: sent, not taken, its own slot number, and a kill command if one is unanswered |
| SmcRaces.RacingScanner.GetLastInCmd | framework/gtask/src/framework/global_task.c:186-244 | with any writes between any two reads: the private state changes only by a delivery, the copy delivered names its slot, and it passed the checks on what was read; the first round that finds its slot deliverable delivers it |
| SmcRaces.AtomicCallIsSteady | framework/gtask/src/framework/global_task.c:186-244 | a call without interference is the case in which the three reads are equal |
| SmcRaces.BusyExactly | framework/gtask/src/framework/global_task.c:198-226 | over every run the private bit of a slot is set iff some delivery since its last answer did not show an abort to the third read |
| SmcRaces.SeparatedUnlessRaced | framework/gtask/src/framework/global_task.c:198-226 | two deliveries of a slot without an answer between them: the third read of the earlier or the first read of the later showed an abort |
| SmcRaces.SteadyIsSeparated | framework/gtask/src/framework/global_task.c:198-226 | so ordinary deliveries whose reads agree always have an answer between them |
| SmcRaces.TakenAgainIff | framework/gtask/src/framework/global_task.c:198-226 | exactly which reads let a slot deliver again before it is answered |
| SmcRaces.TakenTwiceHappens | framework/gtask/src/framework/global_task.c:224-225 | two ordinary commands of one slot delivered without an answer between |
| AgentRuns.ApplyKeeps | framework/gtask/src/manager/agent_manager.c:400-510 | every lock, unlock, answered command, release of a session, register, unregister and buffer request keeps the lock invariant and the books of requests, answers, departures and queues |
| AgentRuns.InitKeeps | framework/gtask/src/manager/agent_manager.c:71-78 | the invariant and the books hold at the start |
| AgentRuns.LockedIff | framework/gtask/src/manager/agent_manager.c:433-459 | an agent is locked iff it has a locking session iff it is in that session's list, and it is in no other |
| AgentRuns.QueuesAreSound | framework/gtask/src/manager/agent_manager.c:412-431 | an unlocked agent has no waiters and no mapped buffer; no session waits twice or for an agent it holds |
| AgentTurns.FirstInFirstOut | framework/gtask/src/manager/agent_manager.c:461-493 | in every reachable state an agent's queue is the line of those who joined, were not served and did not leave, in the order they joined; whoever was served was first in that line then |
| AgentTurns.NobodyOvertakes | framework/gtask/src/manager/agent_manager.c:412-493 | over every run, a session that joined later is served later, unless the earlier one left |
| AgentTurns.ServedInOrderIff | framework/gtask/src/manager/agent_manager.c:461-493 | those who joined are those served followed by those waiting, in one order, iff nobody left |
| AgentTurns.LeavingHappens | framework/gtask/src/manager/session_manager.c:886-888 | a reachable state in which a waiting session was released, unanswered |
| AgentRuns.AnsweredOnce | framework/gtask/src/manager/agent_manager.c:90-131 | every lock or unlock request is answered exactly once, or its session is in a queue, or was released from one |
| AgentRuns.UnlockHandsOver | framework/gtask/src/manager/agent_manager.c:461-493 | an unlock gives the agent to the longest waiter and tells it so; the inner lock never fails |
| AgentRuns.AnsweredSessionHoldsNothing | framework/gtask/src/framework/tee_s_cmd_dispatch.c:300 | when a TA has answered its command its session holds no agent |
| AgentTurns.ClosedSessionIsGone | framework/gtask/src/manager/session_manager.c:881-888 | a released session holds no agent and is in no queue |
| AgentTurns.ReleasedGetsNothing | framework/gtask/src/manager/session_manager.c:881-894 | in every run after that, until it asks for a lock again, it gets no agent and no place in a queue |
| AgentRuns.ListIsSound | framework/gtask/src/manager/agent_manager.c:284-333 | ids stay unique, the count is the list's length and at most 32, every buffer size is within the allowed range |
| AgentRuns.SystemAgentsStay | framework/gtask/src/manager/agent_manager.c:355-358 | no action ever removes a system agent |
| Agents.UnregisterIs | framework/gtask/src/manager/agent_manager.c:335-380 | unregistering removes one unlocked agent and never finds waiters to reject |
| AgentManagers.AgentManager.FindAgent | framework/gtask/src/manager/agent_manager.c:219-236 | position of the first agent of that id, none only if there is none |
| AgentManagers.AgentManager.AddWaitingSession | framework/gtask/src/manager/agent_manager.c:412-431 | joins the queue at its end, once |
| AgentManagers.AgentManager.TeeLockAgent | framework/gtask/src/manager/agent_manager.c:433-459 | state and verdict are those of `TeeLock` |
| AgentManagers.AgentManager.TeeUnlockAgent | framework/gtask/src/manager/agent_manager.c:461-493 | the agent is freed, its buffer unmapped, and handed over |
| AgentManagers.AgentManager.ProcessLockAgent | framework/gtask/src/manager/agent_manager.c:90-114 | a request is granted, queued or refused, and answered unless queued; the status is BAD_PARAMETERS iff not permitted, GENERIC iff there is no such agent, BUSY iff another session holds it, SUCCESS otherwise |
| AgentManagers.AgentManager.ProcessUnlockAgent | framework/gtask/src/manager/agent_manager.c:116-154 | the holder's unlock with its answer; for other sessions the refusal, or that the call does not return |
| AgentManagers.AgentManager.LeaveQueue | framework/gtask/src/manager/agent_manager.c:143-149 | the loop takes the session off the front of the queue, and ends iff that leaves the queue empty |
| Agents.UnheldReturnsIff | framework/gtask/src/manager/agent_manager.c:135-153 | an unlock by a session without the agent returns iff no other session waits for the agent |
| Agents.UnheldChangesNothing | framework/gtask/src/manager/agent_manager.c:135-153 | and if it returns to a session that waits for nothing, only the answer has happened |
| AgentRuns.UnlockSpinsHappens | framework/gtask/src/manager/agent_manager.c:143-149 | a reachable state in which such a call does not return |
| AgentManagers.AgentManager.TeeUnlockAgents | framework/gtask/src/manager/agent_manager.c:495-510 | terminates after one round per held agent and keeps the invariant |
| AgentManagers.AgentManager.ReleaseSession | framework/gtask/src/manager/session_manager.c:881-888 | unlocks everything, then leaves its queue; keeps the invariant |
| AgentManagers.AgentManager.LeaveAnyQueue | framework/gtask/src/manager/session_manager.c:886-888 | the session leaves the one queue it is in; the others keep their order |
| AgentManagers.AgentManager.RegisterAgent | framework/gtask/src/manager/agent_manager.c:284-333 | each refusal in its order, or one new unlocked agent at the end |
| AgentManagers.AgentManager.UnregisterAgent | framework/gtask/src/manager/agent_manager.c:335-380 | each refusal, or the agent leaves the list and its waiters are told |
| AgentManagers.AgentManager.ProcessGetAgentBuffer | framework/gtask/src/manager/agent_manager.c:156-199 | a buffer only for the session that holds the agent, namely the mapping that agent has or now gets; a refusal changes nothing |
| AgentEffects.BufferIff | framework/gtask/src/manager/agent_manager.c:156-199 | a session gets an agent's buffer exactly if it holds the agent and there is a mapping or one can be made; a mapping there is stays |
| AgentEffects.OneBuffer | framework/gtask/src/manager/agent_manager.c:156-199 | over every run, while a session keeps an agent all requests give it the same buffer and give every other session none |
| AgentEffects.LockGranted | framework/gtask/src/manager/agent_manager.c:433-459 | a free agent goes to the session that asks, which is told; nobody else is concerned |
| AgentEffects.LockQueued | framework/gtask/src/manager/agent_manager.c:412-431 | an agent of another session: the end of its queue, and no answer yet |
| AgentEffects.LockRefused | framework/gtask/src/manager/agent_manager.c:90-114 | no permission or no such agent: an answer, and nothing else |
| AgentEffects.LockRepeated | framework/gtask/src/manager/agent_manager.c:445-446 | the holder is told again that it has the agent |
| AgentEffects.UnlockPasses | framework/gtask/src/manager/agent_manager.c:116-131 | the holder's unlock: the agent passes to the first waiter or to nobody, both are told, nothing else changes |
| AgentEffects.RoundsPass | framework/gtask/src/manager/agent_manager.c:495-510 | unlocking everything: exactly the agents the session holds pass on |
| AgentEffects.ReleasePasses | framework/gtask/src/manager/session_manager.c:881-888 | a released session: its agents pass on, it is out of its queue, no other agent changes |
| AgentEffects.RegisteredIff | framework/gtask/src/manager/agent_manager.c:284-333 | an agent is registered exactly if there is room, its buffer is allowed and its id is new |
| AgentEffects.UnregisteredIff | framework/gtask/src/manager/agent_manager.c:335-380 | any but a system agent is unregistered exactly while it is not locked, and it alone |
| ServiceThread.SentInOrder | framework/gtask/src/manager/agent_manager.c:576-635 | what callers were told is taken care of is sent in that order, each request once, and the rest is exactly the pending list, whatever replies come; a non-empty list implies `working` |
| ServiceThread.AllSubmitted | framework/gtask/src/manager/agent_manager.c:576-606 | if every allocation works, that is every request made |
| ServiceThread.RefusedIff | framework/gtask/src/manager/agent_manager.c:763-796 | a request is refused exactly while the thread is working and memory is short |
| ServiceThread.Drains | framework/gtask/src/manager/agent_manager.c:608-635 | after one matching reply per pending request, all of it has been sent |
| ServiceThread.OneOutIffAnswered | framework/gtask/src/manager/agent_manager.c:576-635 | the number of requests out is always one while working and none otherwise, iff a matching reply comes only while one is out |
| ServiceThread.ServiceThreadControl.HandleServiceAgentRequest | framework/gtask/src/manager/agent_manager.c:763-796 | sent at once when idle, queued when working, refused only when queueing fails |
| ServiceThread.ServiceThreadControl.HandleServiceAgentBack | framework/gtask/src/manager/agent_manager.c:720-761 | a matching reply sends the oldest pending request or makes the thread idle |
| TlvEndToEnd.BootAndRead | drivers/tee_misc_driver/src/drv_sharedmem.c:290-302 | both programs together, the driver reading from a copy of exactly the loader's size: for every list of items that fits and every name, it returns the value of the first item put under exactly that name if its owners admit the caller and it fits the buffer, and NO_DATA iff no item has the name |
| TlvEndToEnd.Boot | sample/teeloader/src/tlv_sharedmem.c:201-231 | a sequence of puts that fit leaves the table of exactly those items |
| TlvWriter.TlvTable.Put | sample/teeloader/src/tlv_sharedmem.c:201-231 | every well-formed item that fits is appended to the table in memory, anything else leaves the table as it was |
| TlvWriter.TlvTable.Append | sample/teeloader/src/tlv_sharedmem.c:167-199 | fails exactly when the item does not fit |
| TlvWriter.TlvTable.Register | sample/teeloader/src/tlv_sharedmem.c:188-198 | the header ends up right; the late size check never fires, because the bump pointer is start + header + `total_len` |
| TlvWriter.TlvTable.InitItem | sample/teeloader/src/tlv_sharedmem.c:90-129 | the bytes of one item, header, owners, value, and nothing else |
| TlvWriter.TlvTable.TlvStartInit | sample/teeloader/src/tlv_sharedmem.c:25-57 | an empty table, once, if the memory can hold a header |
| TlvWriter.TlvTable.AllocTeeosSharedMem | sample/teeloader/src/tlv_sharedmem.c:59-88 | zeroed memory behind the last allocation, refused exactly if empty or too long |
| TlvReader.ShareMemTlvFind | drivers/tee_misc_driver/src/drv_sharedmem.c:103-132 | over any memory that holds the length its header claims, the walk with its magic and length checks, in 32-bit sums; it leaves the memory iff it gets to an item with fewer bytes left than an item header |
| TlvReader.WalkLeavesIff | drivers/tee_misc_driver/src/drv_sharedmem.c:103-132 | for every memory, when exactly the walk reads outside it |
| TlvReader.WalkLeavesHappens | drivers/tee_misc_driver/src/drv_sharedmem.c:112-115 | a memory that passes the header checks and is left at the first item |
| TlvReader.WalkOnTable | drivers/tee_misc_driver/src/drv_sharedmem.c:103-132 | over a table the loader wrote, in memory of any length that holds it, the walk stays inside and finds exactly the item that `Lookup` names, at its place |
| TlvReader.GetTlvMsg | drivers/tee_misc_driver/src/drv_sharedmem.c:233-288 | over any memory of its size or longer: each error in its case, when it leaves the memory, and otherwise the bytes of the item found; if the loader's table is in the memory, nothing leaves it, the answer is the stored value of the item looked up, and a cleared value leaves a table that differs in that value only |
| TlvReader.CopyOut | drivers/tee_misc_driver/src/drv_sharedmem.c:252-287 | from the found item on: owner check, capacity, copy and clearing, over any memory |
| TlvReader.FoundOutsideIffWraps | drivers/tee_misc_driver/src/drv_sharedmem.c:112-121 | in a memory of 32-bit size, an item that was found ends outside it iff its 32-bit length sum wraps |
| TlvReader.CopyLeavesIff | drivers/tee_misc_driver/src/drv_sharedmem.c:252-287 | so the memory is left iff the sum wraps and the owner search or the copy gets to bytes that are not there |
| TlvReader.WrapHappens | drivers/tee_misc_driver/src/drv_sharedmem.c:112-121 | a memory of 56 bytes for which this happens |
| TlvReader.WrittenIsRead | drivers/tee_misc_driver/src/drv_sharedmem.c:241-250 | whatever the loader leaves passes the driver's header checks, in a copy of exactly that size |
| TlvReader.ShareMemUuidCheck | drivers/tee_misc_driver/src/drv_sharedmem.c:166-211 | over any memory: admits iff some entry does and all before it can be read, and leaves the memory iff it gets to an entry that is not all there; an empty or ragged list admits nobody |
| TlvReader.OwnerInside | drivers/tee_misc_driver/src/drv_sharedmem.c:166-211 | a list that lies in the memory admits iff some entry does, wherever it is |
| TlvReader.OneOwner | drivers/tee_misc_driver/src/drv_sharedmem.c:166-211 | an owner of all ones is everybody, of all zeros the system services, any other uuid exactly that caller |
| TlvReader.MoreOwners | drivers/tee_misc_driver/src/drv_sharedmem.c:202-208 | a longer list admits whom one of its entries admits |
| TlvReader.CheckEntry | drivers/tee_misc_driver/src/drv_sharedmem.c:166-206 | one entry is checked by loops and comparisons as `Admits` says |
| TlvReader.ClearHolds | drivers/tee_misc_driver/src/drv_sharedmem.c:279-285 | zeroing a value in place keeps the table a table |
| TlvReader.StoredIff | sample/teeloader/src/tlv_sharedmem.c:117-129 | the value read is the value put, iff the owner list is not empty or the value is all zero |
| TlvLayout.LookupIsFirst | drivers/tee_misc_driver/src/drv_sharedmem.c:103-132 | with plain names and non-empty values, the first item put under exactly that name is found, and none only if none was put |
| TlvLayout.LookupIff | sample/teeloader/src/tlv_sharedmem.c:99-100 | in general an item is found iff it is the first match and no item up to it has an empty value |
| TlvLayout.SameNameIsEquality | drivers/tee_misc_driver/src/drv_sharedmem.c:124-125 | the comparison of names is equality, never a prefix in either direction |
| ShareMem.CheckShareMemSize | drivers/crypto_mgr/src/crypto_ioctl/crypto_syscall_common.c:117-147 | in a buffer of exactly `buf_len` bytes, or longer: accepts exactly what the segments tile completely, and reads outside exactly when a length field it gets to is not all inside, with 32-bit sums |
| ShareMem.OverreadsExactBuffer | drivers/crypto_mgr/src/crypto_ioctl/crypto_syscall_common.c:196-203 | in the buffer as allocated, this happens iff for some number of segments less than announced those fit and fewer than four bytes remain |
| ShareMem.OverreadHappens | drivers/crypto_mgr/src/crypto_ioctl/crypto_syscall_common.c:122-126 | two segments announced, one of two bytes sent |
| ShareMem.EnoughBehind | drivers/crypto_mgr/src/crypto_ioctl/crypto_syscall_common.c:122-126 | with four bytes of any content behind the buffer it never happens, so the verdict depends on the buffer alone |
| ShareMem.TilesIff | drivers/crypto_mgr/src/crypto_ioctl/crypto_syscall_common.c:117-147 | a buffer parses iff it is the encoding of some segments, and then of only those |
| ShareMem.ParseOfEncode | drivers/crypto_mgr/src/crypto_ioctl/crypto_syscall_common.c:78-98 | parsing what was encoded gives the segments back |
| ShareMem.GetShareMem | drivers/crypto_mgr/src/crypto_ioctl/crypto_syscall_common.c:167-186 | references to every segment at its place, NULL for an empty one; refusal and reads outside exactly as in the check |
| ShareMem.RefersToSegments | drivers/crypto_mgr/src/crypto_ioctl/crypto_syscall_common.c:149-186 | the engine sees every segment as it was sent: its size, and its bytes where the reference points |
| ShareMem.CopyFromSharedBuf | drivers/crypto_mgr/src/crypto_ioctl/crypto_syscall_common.c:149-165 | the unchecked read stays inside an accepted buffer |
| ShareMem.PrepareHardEngineParams | drivers/crypto_mgr/src/crypto_ioctl/crypto_syscall_common.c:188-275 | success iff size and count are within limits and the segments tile the buffer; overflow iff the size is out of limits; reads outside exactly as in the check |
| ShareMem.FillShareMem | drivers/crypto_mgr/src/crypto_ioctl/crypto_syscall_common.c:100-115 | run in place over the memory its references point into, with sizes not raised, the memory starts with the encoding of exactly what the engine left, and the rest is untouched |
| ShareMem.CopyToSharedBuf | drivers/crypto_mgr/src/crypto_ioctl/crypto_syscall_common.c:78-98 | the write cursor overwrites nothing unread |
| ShareMem.Serve | drivers/crypto_mgr/src/crypto_ioctl/crypto_syscall_common.c:78-275 | a whole request in the buffer as allocated: when it succeeds, when it reads outside, and after success, for any engine that does not raise sizes, the client reads back exactly the engine's output |
| ShareMem.OutputsComeBack | lib/teelib/libcrypto_hal/src/crypto_mgr_manager.c:184-222 | a second parse and the client both read the compacted segments |
| ShareMem.ReadBackOfEncode | lib/teelib/libcrypto_hal/src/crypto_mgr_manager.c:184-222 | the client reads an encoding back iff every segment fits its buffer |
| ShareMem.ClientSize | lib/teelib/libcrypto_hal/src/crypto_mgr_manager.c:79-95 | the client's 32-bit size sum is exact within the limit and refused beyond it |
| ShareMem.ClientIsAccepted | lib/teelib/libcrypto_hal/src/crypto_mgr_manager.c:97-134 | everything a client sends within the limits is accepted and arrives unchanged |
| RandomCache.NeverTwice | drivers/crypto_mgr/src/crypto_ioctl/crypto_syscall_random.c:40-85 | no byte of the engine is ever handed out twice, failing refills included |
| RandomCache.InOrder | drivers/crypto_mgr/src/crypto_ioctl/crypto_syscall_random.c:40-72 | outputs from the cache are uninterrupted slices of the engine's stream, in stream order |
| RandomCache.HandedOutIsGone | drivers/crypto_mgr/src/crypto_ioctl/crypto_syscall_random.c:58-67 | over every run, no engine byte that was handed out is anywhere in the cache, used blocks included |
| RandomCache.AllFromEngine | drivers/crypto_mgr/src/crypto_ioctl/crypto_syscall_random.c:47-57 | if no refill fails, every output of `hw_generate_random_ops` is engine bytes only |
| RandomCache.EngineBytesIff | drivers/crypto_mgr/src/crypto_ioctl/crypto_syscall_random.c:47-57 | a successful `hw_generate_random_ops` returns engine bytes iff it is not served without a refill after the last refill failed; otherwise zeros |
| RandomCache.SucceedsIff | drivers/crypto_mgr/src/crypto_ioctl/crypto_syscall_random.c:40-85 | a request succeeds, with as many bytes as asked for, exactly if it is not empty and the engine works or is not needed |
| RandomCache.DrawsOnlyIfNeeded | drivers/crypto_mgr/src/crypto_ioctl/crypto_syscall_random.c:40-85 | the engine is drawn on for large requests, and for a full cache exactly if the blocks left are too few |
| RandomCache.ZerosHappen | drivers/crypto_mgr/src/crypto_ioctl/crypto_syscall_random.c:47-57 | a run in which that happens |
| RandomCache.RandomDriver.HwGenerateRandom | drivers/crypto_mgr/src/crypto_ioctl/crypto_syscall_random.c:74-85 | does what `Generate` says, and keeps the used-block count at most 256 |
| RandomCache.RandomDriver.GenerateRandomFromCached | drivers/crypto_mgr/src/crypto_ioctl/crypto_syscall_random.c:40-72 | the same for requests below 4096 bytes, whose bytes are zeroed in the cache |
| Mailbox.WindowIsFixed | framework/gtask/src/manager/mem_manager.c:885-927 | over any sequence of register commands, a registered window never changes; there is one exactly if some command was good, and it is that of the first good one |
| Mailbox.InRangeIff | framework/gtask/src/manager/mem_manager.c:935-949 | the wrapped 64-bit comparisons mean that the whole range lies in the window |
| Mailbox.MapOperation | framework/gtask/src/manager/mem_manager.c:633-665 | accepted iff every parameter maps; every accepted memref is translated from the checked address to a range inside [va, va+size) without wrap; before registration every memref is refused |
| Mailbox.MapMemref | framework/gtask/src/manager/mem_manager.c:440-521 | the translation of one checked memref |
| Mailbox.CheckOperationParams | framework/gtask/src/manager/mem_manager.c:962-995 | accepts iff every memref with an address is in range |
| Mailbox.CopyParamsBackToRee | framework/gtask/src/manager/mem_manager.c:281-332 | which status, exactly which outputs are copied, and the normal world's parameters afterwards: value outputs hold the TA's two values in their fields, memref outputs the size the TA shows, also when short, all others are unchanged; also when normal world and TA change their sizes between any two fetches |
| Mailbox.CopyParamBack | framework/gtask/src/manager/mem_manager.c:287-328 | one parameter is refused, leaves the memory, or goes back as a whole; a short one reports its size only; no other parameter changes |
| Mailbox.CopyToSrc | framework/gtask/src/manager/mem_manager.c:186-217 | refused, outside, or exactly those bytes at that place |
| Mailbox.TidyIff | framework/gtask/src/manager/mem_manager.c:309-325 | a copy stays in its buffer for all contents iff it is short or the second size the TA shows is at most the size on entry |
| Mailbox.CallTidyIff | framework/gtask/src/manager/mem_manager.c:281-332 | the same for all parameters that a call gets to |
| Mailbox.WritesBehindHappens | framework/gtask/src/manager/mem_manager.c:309-318 | the byte behind a buffer is overwritten |
| Mailbox.ReadsBehindHappens | framework/gtask/src/manager/mem_manager.c:309-318 | the copy reads behind the TEE's buffer |
| Mailbox.ContainedHandled | framework/gtask/src/manager/mem_manager.c:281-332 | under that condition no parameter leaves the memory |
| Mailbox.StaysInBuffers | framework/gtask/src/manager/mem_manager.c:281-332 | under that condition, whatever the normal world shows, only bytes of accepted output buffers change |
| Mailbox.CheckShortBuffer | framework/gtask/src/manager/mem_manager.c:1093-1121 | true exactly if some output is longer than its buffer, by the sizes it fetches |
| Mailbox.HonestCallerGetsAll | framework/gtask/src/manager/mem_manager.c:281-332 | if nobody changes sizes and buffers do not overlap, every parameter is handled and in the end every output that fits is in its buffer, whole |
| Mailbox.HonestCall | framework/gtask/src/manager/mem_manager.c:281-332 | a whole honest call: status, values, sizes and buffers as the caller finds them, and nothing else changed |
| Mailbox.MailboxState.RegisterMempool | framework/gtask/src/manager/mem_manager.c:885-927 | success exactly for the first command that does not wrap, has the pool's size and can be mapped; refused once registered |
| ConfigParser.GetConfigHeader | services/permission_service/src/perm_srv_set_config.c:199-230 | success iff longer than a header, with the magic and a known version |
| ConfigParser.GetConfigInfoV1 | services/permission_service/src/perm_srv_set_config.c:458-513 | succeeds iff the true sum of all lengths fits the package; the parts are contiguous, so disjoint, from the header on, and the unchecked length hashed later does not wrap and ends where the signature begins |
| ConfigParser.GetConfigInfoV2 | services/permission_service/src/perm_srv_set_config.c:593-634 | the same with nested certificate and signature segments; the hashed length ends where their segment begins |
| ConfigParser.GetConfigInfo | services/permission_service/src/perm_srv_set_config.c:787-807 | in either version the unchecked 32-bit sum of `get_data_hash_for_sign` is the end of the configuration, inside the package |
| ConfigParser.GetTaCert | services/permission_service/src/perm_srv_set_config.c:515-533 | type word, then certificate, or a refusal if there is no room for the word |
| ConfigParser.GetSignVerifyData | services/permission_service/src/perm_srv_set_config.c:544-582 | succeeds iff three words and the certificate fit; the signature is the rest |
| ConfigParser.RoundTripV1 | services/permission_service/src/perm_srv_set_config.c:458-513 | a package assembled from parts parses into exactly those parts, with type certificate and the algorithm its length or its algorithm bits name |
| ConfigParser.RoundTripV2 | services/permission_service/src/perm_srv_set_config.c:593-634 | the same for version 2, including the type and algorithm words |

## Notes on the source

- `find_node_by_name` skips exiting nodes although the comment at
  framework/drvmgr/src/task_mgr.c:346-350 says it does not look at the state; the model follows
  the code.
- The comments at framework/gtask/src/framework/global_task.c:199-205 say that a bad command is
  skipped; at `last_index` it also ends the scan. The model follows the code.
- `alloc_drvcall_node_internal_drv` may return NULL, which its caller dereferences
  (framework/drvmgr/src/drv_dispatch.c:160-168). The model ends the open there.
- `share_mem_tlv_init_item` returns an error for an empty value and for an empty owner list (a
  bounds-checked copy into zero bytes fails), and its caller ignores it
  (sample/teeloader/src/tlv_sharedmem.c:188). The model keeps both effects: `EncodeItem` and
  `Stored`.

- `generate_random_call` returns CRYPTO_SUCCESS also when `hw_generate_random_ops` or the copy to
  the client failed (drivers/crypto_mgr/src/crypto_ioctl/crypto_syscall_random.c:114-125); the
  model's success is that of `hw_generate_random_ops`.

## Left out

- Driver manager: failing mutex operations, the reply-error callback with `get_drvcall_and_fd_node`, permission tables and the contents of configuration lists (a crypto driver's node is dropped after its lists would have been merged into another node), driver exit handling, dumps.
- DrvManager.DriverManager.ExceptionClose: runs without interference; `ExitLoopIs` makes it a run of the state machine, which covers interference between any two of its actions, more than the source allows because it keeps `fd_mtx`.
- DrvManager.DriverManager.CheckDrvNodeState: stops where a thread would wait; waking up is `CheckAfterWait`, which the state machine enables once the driver has left SPAWN.
- DrvThreads.Progress: an action is a whole critical section, so waiting for a mutex is not part of the state; that the mutexes are taken in one order is not proved.
- DrvRuns.DistinctFds: assumes that a driver hands out a descriptor again only after it was closed.
- SMC slots: a single copy of a command is taken to be atomic. `restore_cmd_in` and the dispatch of delivered commands are not modelled.
- SmcRaces.RacingScanner.GetLastInCmd: a scan is followed for as many rounds as there are views; that it ends is proved without interference only (`SmcSlots.SmcScanner.GetLastInCmd`), as the normal world can keep it going.
- AgentRuns.ApplyKeeps: assumes that a session sends no lock request, and no unlock request for an agent it does not hold, while it waits for an answer; calls that do not return are not steps.
- AgentManagers.AgentManager.ProcessUnlockAgent: an agent in the session's list is assumed to be registered, as the invariant says.
- AgentManagers.AgentManager.TeeUnlockAgents: started in a state that satisfies the invariant, as every reachable one does.
- Agents: the pending flags of sessions, messages to agents, and late initialisation.
- TlvWriter.TlvTable.Put: lengths are assumed not to wrap 32 bits, in one item and in the whole memory; `update_share_mem_tlv` and the loader's own search are not modelled.
- TlvReader.GetTlvMsg: a bounds-checked copy into no room, and a bounds-checked clearing of nothing, are taken to fail.
- TlvReader.ShareMemTlvFind: the memory holds the length its header claims, as `get_tlv_msg` made sure.
- TlvEndToEnd.BootAndRead: at least one item, plain names, non-empty values and owner lists; the other cases are in `LookupIff` and `StoredIff`.
- ShareMem.CheckShareMemSize: the size is already within the limit, as `map_hal_share_mem` made sure.
- ShareMem.FillShareMem: assumes an engine that keeps its buffers and raises no size, as the crypto engines' contract says; attribute marshalling and the error clean-up of `prepare_hard_engine_params` are not modelled.
- RandomCache: a failing engine is taken to write nothing.
- Mailbox.MapOperation: the mapped window is assumed not to wrap the virtual address space.
- Mailbox: memory shared between TAs (`ta2ta`), mapping of the operation structure itself, the way back of a load command.
- ConfigParser: certificates, hashes and signatures themselves, the TLV configuration inside, policy versions.
- Allocation, mapping, spawning, permission checks and engines appear as parameters that say whether they succeed.
- teed, tarunner, teesmcmgr, the HUK service, the opening of sessions and TA loading are not part of this model.
