# Out-of-order RISC-V core: bookkeeping of the backend and its stages

This project models and verifies the state that lets the simulated core run instructions out of
program order and still look sequential: the reorder and rename unit (`Rcu`), the load/store
queue (`Lsq`) and the circular queue both are built on (`LoopQueue`), with the dispatch, issue,
execute, forward, write-back, rollback and commit protocol around them. Four smaller cores sit
beside it: the in-age-order reservation station, the streaming instruction splitter of the first
fetch stage, the `TimeBuffer` delay line with the acknowledged hand-off built on it, and the LRU
TLB.

`dafny verify dfyconfig.toml` checks everything.

## How it is built

There are three layers.

* **Classes** follow the source: `LoopQueue`, `FreeList`, `RenameTable`, `BusyList`, `Lsq`, `Rcu`,
  `Commit`, `Dispatch`, `Lsu`, `InAgeOrder`, `BaseDRAM`, `Fetch1`, `TimeBuffer`, `QueueStage` (the queue of
  `Decode` and `Fetch2`) and `BaseTLB` hold the source's fields, and their methods run its loops in
  place. Each is proved against a function on values: `Rcu` against `RcuSpec`, `Lsq` against
  `LsqSpec`, the station against `Station`, the TLB against the functions of `Tlb`. The names of the
  source are kept where they are part of its interface (`ResovleDependancy`, `ClearDependancy`).
* **State machines** use the same functions as transitions. `Backend` is the machine of the reorder
  unit, the load/store queue and all operations in flight. Every transition is one small action:
  dispatch of one instruction, one operand read, one execution, one address calculation, one request
  or response of either kind, one forwarding, one write-back, one removal or the end of a rollback,
  one retirement, one pop. They may come in any order, so every order of stages within a tick, and
  every latency, is covered. Ghost state remembers program-order numbers, the rename table and the
  sequential architectural state before every live instruction, which instructions committed or
  were squashed, and the trace of memory accesses. `CycleTheorems` and `PackageTheorems` show that
  whole calls and whole packages are sequences of these transitions. `Station`, `Timing`, `HandOff` and
  `TlbTheorems` have their own, smaller machines.
* **Theorems.** `BackendInv` is one inductive invariant of the backend, in thirteen parts. The `Proof*`
  files prove that each transition keeps each part. `BackendTheorems`, `RecoveryTheorems`,
  `ControlTheorems` and `CycleTheorems` draw the results a user of the core relies on.
  `RegisterTheorems`, `QueueTheorems` and `LsqTheorems` say what each transition does to each field,
  without the functions the transitions are built from.

| files | content |
|---|---|
| `DynInsn`, `LoopQueue`, `Components` | instruction, circular queue, free list, rename table, busy list |
| `LsqSpec`, `RcuSpec`, `Package` | the two units on values; packages of instructions |
| `Lsq`, `Rcu`, `Commit`, `Dispatch`, `DispatchPorts`, `FuncLsu`, `MemAccess` | the units and stages in place; memory accesses byte by byte |
| `Backend`, `BackendInv`, `Registers`, `Proof*` | the machine, its invariant and the proof |
| `BackendTheorems`, `RecoveryTheorems`, `ControlTheorems`, `CycleTheorems`, `PackageTheorems`, `DoubleRelease` | the results |
| `RegisterTheorems`, `QueueTheorems`, `LsqTheorems` | every transition, field by field |
| `Station`, `ResvrStation` | the reservation station and its wake-up protocol |
| `Predecode`, `TimeBuffer`, `HandOff`, `Tlb`, `TlbTheorems` | the four smaller cores |

## Main results

For every run of the backend from reset, whatever the instructions, latencies and interleavings:

* **Sequential dataflow.** A ready operand of a live instruction is the sequential result of the
  youngest older writer of its register; committed registers and drained memory are those of the
  sequential machine.
* **Memory order.** Committed accesses happen in program order, only committed stores reach memory,
  and an unkilled load reads what sequential memory holds at its point of the program.
* **No tag confusion.** A write-back that passes the liveness guard reaches the entry its own
  instruction allocated; a load response finds the load that asked.
* **Rollback.** It restores the rename table exactly, returns exactly the squashed registers, drops
  exactly the store it names, takes exactly max(1, ceil(n/w)) calls, and only ever moves to older
  instructions. Traps are precise.
* **Recovery control.** The rollback entry is always the oldest cause to stop; an unresolved control-flow
  instruction holds dispatch back; commit takes the longest run of finished entries the recovery allows.
* **Conservation.** No register is lost or doubled, under the hypothesis below; a register is marked
  allocated exactly while it is not free.
* **Batches.** Renaming a package at once is renaming its instructions singly; what the dry runs of
  dispatch allow always fits.

## Findings

Where the code departs from what one would expect of it, and the exact condition:

* **Double release.** The rollback loop works on a copy of the entry, so a faulting rollback entry
  that was released stays valid. If an older instruction then restarts the rollback, it is released
  again, which puts its register on the free list twice or drops one store too many. The machine
  carries one hypothesis, `Backend.SingleRelease`, as a guard of the write-back transition: while
  dispatch waits for resumption, an outcome that restarts the rollback does not meet a faulted
  youngest entry that has a target register or is a store. `SingleReleaseIsExact` shows that the guard is neither too strong nor too weak: when it is
  met the next removal leaves everything in order, and when it is not the next removal doubles a
  register or moves the store queue once too often. `FreeListDuplicates` gives a run from reset in
  which that happens. The rename table alone survives a second release: `RollBackRestoresTable` needs
  no hypothesis. Every theorem over runs of the backend is about runs that respect the guard.
* **The pool.** `FreeList::Reset` appends without clearing and leaves out the last register as well as
  register 0: the pool is {1..RegCount-2}. Runs start from an empty list.
* **Misaligned accesses.** `AddrGen` writes the misaligned cause but marks the exception invalid, so no
  misaligned access ever faults; the case of LHU also falls through to that of LWU. For the same reason
  the exception branch of `AGUFastDetect` is never taken; its test is the wrong way round (an idle unit
  compares with a stale tag, a recovering one always gives way), and it is modelled as it stands. A store that crosses its aligned block silently loses the bytes
  beyond it; `StoreIsExactIffWithin` says exactly when.
* **The dry run** of dispatch charges FENCE and MRET a port that dispatch does not use, and does not
  look at the enqueue budget one instruction at a time; it is sound because every cycle starts with
  a full budget (`DryRunIsSound`, `BudgetMatters`, `BudgetIsFullAtForwarding`).
* **Wake-ups** are safe only because a register is handed on after the issue stage has run for the
  cycle and never while an instruction still wanted reads it; the latency of the read ports does not
  matter. The station's machine asks this of its environment; the backend guarantees it
  (`SourcesAreNeverFree`).
* **The order of phases** within the issue stage matters: with operands read before the forwarding of
  the same cycle a wake-up would be lost (`ReadingFirstLosesTheWakeUp`).
* **Flushing the TLB** lists slots on its free list twice unless none was free before
  (`FlushListsIffFull`). With more than one entry such a flush costs the LRU order: a flush is harmless
  if and only if no slot was free (`FlushIsHarmlessIffFull`, with `FlushWhenNotFullBreaksLru` as an
  example), while one entry alone is always LRU (`OneEntryIsLru`). Hits stay sound in any case.
* **Register file reset** clears copies of the registers: `Rcu.Reset` leaves the values in place. Nothing
  depends on them, since only register 0 is marked done.

## Model

| member | source | states |
|---|---|---|
| LoopQueue.OlderIsDistance | src/Processor/Component/LoopQueue.hh:142-147 | isOlder, which only compares tags and their side of the header, orders two slots exactly as their distance from the header (modulo the size) does, for every header and wrap |
| LoopQueue.GuardIsLiveness | src/Processor/Component/Rcu.cc:226-228 | the guard "queue not empty, and the tag older than or equal to the latest slot" holds of a slot if and only if the slot holds a live entry; every live entry passes it |
| LoopQueue.SlotPos | src/Processor/Component/LoopQueue.hh:78-92 | the k-th live entry and its slot determine each other, also across the wrap |
| LoopQueue.LoopQueue.Push | src/Processor/Component/LoopQueue.hh:94-98 | appends to the queue contents; head and size unchanged |
| LoopQueue.LoopQueue.Pop | src/Processor/Component/LoopQueue.hh:100-105 | returns the oldest entry and leaves the rest; the other slots keep their entries |
| LoopQueue.LoopQueue.RollBack | src/Processor/Component/LoopQueue.hh:107-115 | removes the youngest entry and nothing else |
| LoopQueue.LoopQueue.Allocate | src/Processor/Component/LoopQueue.hh:117-122 | hands out the tail slot, which becomes the youngest entry with whatever the slot held before |
| LoopQueue.LoopQueue.Reset | src/Processor/Component/LoopQueue.hh:132-140 | empties the queue and blanks every slot |
| Components.FreeList.Reset | src/Processor/Component/FreeList.hh:29-35 | appends 1 to RegCount-2 in order to what the list already holds: it does not clear, and the last register is never in the pool |
| Components.FreeList.Pop | src/Processor/Component/FreeList.hh:49-54 | takes the front of the list |
| Components.FreeList.Push | src/Processor/Component/FreeList.hh:56-63 | puts a register at the back of the list |
| Components.RenameTable.Reset | src/Processor/Component/RenameTable.hh:32-40 | every ISA register maps to physical register 0 |
| Components.BusyList.Reset | src/Processor/Component/BusyList.hh:40-52 | only register 0 is allocated and done |
| LsqUnit.Lsq.TryAllocate | src/Processor/Component/Lsq.cc:46-70 | counts the prefix that the free load and store slots allow |
| LsqUnit.Lsq.CreateLdqEntry | src/Processor/Component/Lsq.cc:88-106 | a load records whether any store is queued and, if so, the youngest one |
| LsqUnit.Lsq.CreateStqEntry | src/Processor/Component/Lsq.cc:108-121 | a store enters its queue uncommitted and without address |
| LsqUnit.Lsq.Allocate | src/Processor/Component/Lsq.cc:72-86 | the first instructions enter their queues in order and carry the slots they were given |
| LsqUnit.Lsq.WriteBack | src/Processor/Component/Lsq.cc:30-44 | address and, for a store, data enter the entry the tag names; it becomes ready to send |
| LsqUnit.Lsq.TryIssueLoad | src/Processor/Component/Lsq.cc:124-152 | sends the oldest unkilled waiting load if it has its address and no dependence, and otherwise nothing: it does not look past it |
| LsqUnit.Lsq.TryIssueStore | src/Processor/Component/Lsq.cc:154-203 | sends the oldest waiting store if it is committed, with the shifted bytes and mask of its access; otherwise nothing |
| LsqUnit.Lsq.KillLoadEntry | src/Processor/Component/Lsq.cc:205-208 | marks the load killed in its slot |
| LsqUnit.Lsq.KillStoreEntry | src/Processor/Component/Lsq.cc:210-213 | moves the store queue back by one whatever tag it is given |
| LsqUnit.Lsq.CommitLoadEntry | src/Processor/Component/Lsq.cc:215-218 | marks the load committed |
| LsqUnit.Lsq.CommitStoreEntry | src/Processor/Component/Lsq.cc:220-223 | marks the store committed |
| LsqUnit.Lsq.ClearDependancy | src/Processor/Component/Lsq.cc:225-254 | lowers exactly the flags whose recorded store is the one about to leave |
| LsqUnit.Lsq.Evaluate | src/Processor/Component/Lsq.cc:225-254 | both popping loops run to their stopping point; EvaluateRemoves says which entries that removes |
| LsqTheorems.EvaluateRemoves | src/Processor/Component/Lsq.cc:225-254 | the stores removed are executed and the head left is not; the loads removed committed, or were squashed and await no response, and the head left is neither; the flags naming a removed store are lowered and nothing else changes |
| QueueTheorems.LoadGoes | src/Processor/Component/Lsq.cc:124-152 | a load is sent if and only if it is the oldest that waits and is not squashed, has its address and depends on no queued store |
| QueueTheorems.StoreGoes | src/Processor/Component/Lsq.cc:154-203 | a store is sent if and only if it is the oldest that waits and has committed |
| QueueTheorems.QueueEffects | src/Processor/Component/Lsq.cc:30-254 | for every transition of the backend, the entries of both queues and memory afterwards, field by field |
| QueueTheorems.RobEffects | src/Processor/Component/Rcu.cc:58-435 | for every transition of the backend, the entries of the reorder buffer afterwards, field by field |
| QueueTheorems.OpEffects | src/Processor/Pipeline/IEW.cc:48-55 | for every transition, each operation in flight afterwards: its operands read or woken, its result computed or answered and forwarded, and when it leaves |
| Package.RcuFitIsLongest | src/Processor/Component/Rcu.cc:140-165 | the count of Rcu::TryAllocate is the longest prefix whose entries and target registers fit: a prefix fits if and only if it is no longer than the count |
| Package.LsqFitIsLongest | src/Processor/Component/Lsq.cc:46-70 | the same for Lsq::TryAllocate and the two queues |
| Package.EntriesLeaveRegisters | src/Processor/Component/Rcu.cc:118-138 | creating reorder entries between renamings changes no register name, so popping all targets first and creating all entries last gives the same names, table and free list |
| RcuUnit.Rcu.constructor | src/Processor/Component/Rcu.cc:8-31 | a new unit has an empty buffer of the given size, register structures of the given sizes, zero registers and an empty free list; the rename table and the flags are left to Reset |
| RcuUnit.Rcu.Reset | src/Processor/Component/Rcu.cc:33-47 | the buffer is empty, the state idle and the register structures reset; the free list keeps what it held and gains the pool |
| RcuUnit.Rcu.TryAllocate | src/Processor/Component/Rcu.cc:140-165 | returns the longest prefix that fits |
| RcuUnit.Rcu.Rename | src/Processor/Component/Rcu.cc:49-56 | every instruction of the package is named by the table as it stands |
| RcuUnit.ResolvePackage | src/Processor/Component/Rcu.cc:168-189 | the pairwise fix-up turns names given by one table into names given by the table each predecessor leaves, for every chain of tables and every package |
| RcuUnit.Rcu.RenameBatch | src/Processor/Component/Rcu.cc:118-133 | after renaming, pops and fix-up each of the first n instructions is named by the table its predecessors leave and carries the target popped in its turn |
| RcuUnit.Rcu.CreateRobEntry | src/Processor/Component/Rcu.cc:58-116 | one entry is appended, done at once for no-operations, exceptions, FENCE and MRET; what it does to the recovery state is stated by DispatchControl |
| RcuUnit.Rcu.Allocate | src/Processor/Component/Rcu.cc:118-138 | batched renaming refines one-at-a-time renaming: the final state, and the names, target and slot in each of the first n instructions, are those of renaming and allocating them singly in order |
| RcuUnit.Rcu.ReadyForCommit | src/Processor/Component/Rcu.cc:192-215 | idle, or for an entry older than the rollback entry: ready if it lies in the commit window from the header and every load, store and branch before it there is stable; otherwise only the rollback entry itself, once the state waits for resumption |
| RcuUnit.Rcu.Forwarding | src/Processor/Component/Rcu.cc:217-221 | writes the result register and its busy flags |
| RcuUnit.WriteBackParts | src/Processor/Component/Rcu.cc:223-289 | write-back field by field: the liveness guard, the marks, the recovery, the register; what it means is stated by RecoveryStarts |
| RcuUnit.Rcu.WriteBack | src/Processor/Component/Rcu.cc:223-289 | a dead tag changes nothing; a live one marks its entry and starts or restarts a recovery exactly when the outcome is the oldest fault or misprediction known, its own rollback entry included; a redirect is asked for exactly when a live, unfaulted, mispredicted branch meets an idle unit or lies no further from the header than the rollback entry |
| RcuUnit.Rcu.AGUFastDetect | src/Processor/Component/Rcu.cc:291-317 | the entry is stable, and done if it is a store with address and data; with a valid exception it is done and faulted, and takes over the recovery if the unit is not idle or the entry is older than the rollback entry (so an idle unit compares with a stale tag) |
| RcuUnit.Rcu.ReleaseResource | src/Processor/Component/Rcu.cc:322-346 | returns the target register, restores the old name in the table, kills the load or drops the youngest store |
| RcuUnit.Rcu.RollBack | src/Processor/Component/Rcu.cc:348-372 | removes up to AllocWidth youngest entries, and finishes when the tag is met, also right after the last of them |
| RcuUnit.Rcu.Evaluate | src/Processor/Component/Rcu.cc:374-382 | a pending rollback runs; a pending backend flush ends; EvaluateCall states it as a run of transitions |
| RcuUnit.Rcu.CommitHeader | src/Processor/Component/Rcu.cc:385-435 | one entry retires: registers, committed access, trap and flush as its state demands |
| RcuUnit.Rcu.CommitInsn | src/Processor/Component/Rcu.cc:385-435 | a package retires from the header in order; the trap is the last one raised and a flush is asked for if any entry resumes dispatch |
| CommitStage.Commit.SendCommitReq | src/Processor/Pipeline/Commit.cc:18-38 | the package is the longest ready in-order prefix of the buffer within the commit width |
| ControlTheorems.PackageIs | src/Processor/Component/Rcu.cc:192-215 | in every valid state the package is the entries from the header on, up to the width and to the first that is not done, or has an unstable load, store or branch before it, or is not ahead of the rollback entry and not that entry awaited |
| ControlTheorems.PackageIsLongestDonePrefix | src/Processor/Pipeline/Commit.cc:18-38 | in every reachable state the package sent is the longest run of done entries from the header on that the width and the recovery allow; during a rollback it ends before the rollback entry, and a done rollback entry at the header of a machine waiting for it is sent, alone |
| CommitStage.Commit.CommitInsnPkg | src/Processor/Pipeline/Commit.cc:40-74 | the package sent is retired as a whole |
| DispatchPorts.DryRunIsSound | src/Processor/Pipeline/Dispatch.cc:42-69 | schedulers starting the cycle with a full budget take every prefix the dry run allows: no "Unexpected Dispatch Fail", although FENCE and MRET are charged a port in the dry run only |
| DispatchPorts.DryRunIsSoundFrom | src/Processor/Pipeline/Dispatch.cc:84-142 | the inductive form: first-fit over ports that dominate the dry run never fails |
| DispatchPorts.DryRunStops | src/Processor/Pipeline/Dispatch.cc:92-116 | no instruction after an exception or a checked control-flow instruction is counted |
| DispatchPorts.DispatchedPlaces | src/Processor/Pipeline/Dispatch.cc:119-142 | where the instructions of a dispatched prefix go, and that each scheduler loses as many places as instructions went to it |
| DispatchPorts.RoomUsed | src/Processor/Pipeline/Dispatch.cc:119-142 | together the schedulers give up one place for each instruction that does not bypass them |
| DispatchPorts.DryRunCounts | src/Processor/Pipeline/Dispatch.cc:92-116 | the count of the dry run: every instruction counted that needs a port has the first one open to it, only the last ends the run, and the run ends because of that one or because the next finds no port |
| DispatchPorts.StartIsOpen | src/Processor/Pipeline/Dispatch.cc:85-88 | a port is open in TryDispatch as long as fewer instructions were charged to it than the scheduler has free entries and than its width, and it is not busy |
| DispatchPorts.BudgetMatters | src/Processor/Pipeline/Dispatch.cc:87-89 | a concrete state with a spent budget in which the dry run says 2 and dispatch of 2 fails |
| DispatchStage.TryDispatch | src/Processor/Pipeline/Dispatch.cc:84-117 | the loop over ports computes the dry run |
| DispatchStage.DispatchInsn | src/Processor/Pipeline/Dispatch.cc:119-142 | each instruction that is not faulted, a no-operation, FENCE or MRET enters one scheduler, the first that supports it and has room after those before it, in order; the others enter none; the assertion cannot fail when dispatch of the prefix is possible |
| DispatchStage.Dispatch.Evaluate | src/Processor/Pipeline/Dispatch.cc:27-82 | stalls while the machine recovers; otherwise takes exactly the least of the three counts, and leaves the queues, the registers and the schedulers as taking those instructions singly in order |
| DispatchStage.TakenCountFits | src/Processor/Pipeline/Dispatch.cc:60-66 | the least of the three counts satisfies everything the three allocations demand |
| DispatchStage.TakenIsLeast | src/Processor/Pipeline/Dispatch.cc:60-63 | the count taken is no larger than any of the three and equal to one of them |
| ProofDispatch.InitInv | src/Processor/Component/Rcu.cc:33-47 | the reset state satisfies the whole invariant |
| ProofDispatch.DispatchInv | src/Processor/Component/Rcu.cc:118-138 | allocating one instruction keeps it |
| ProofAgu.AguInv | src/Processor/Component/FuncUnit/Func_LSU.hh:126-136 | an address calculation, live or squashed, keeps it |
| ProofAgu.SendCommitInv | src/Processor/Pipeline/Commit.cc:18-38 | selecting a commit package keeps it |
| ProofLsq.IssueLoadInv | src/Processor/Component/Lsq.cc:124-152 | sending a load keeps it |
| ProofLsq.LoadRespInv | src/Processor/Component/FuncUnit/Func_LSU.hh:166-214 | a load response, killed or not, keeps it |
| ProofLsq.IssueStoreInv | src/Processor/Component/Lsq.cc:154-203 | sending a store keeps it |
| ProofLsq.StoreRespInv | src/Processor/Component/FuncUnit/Func_LSU.hh:215-218 | a store response keeps it |
| ProofLsq.PopStoreInv | src/Processor/Component/Lsq.cc:225-254 | an executed store leaving keeps it |
| ProofLsq.PopLoadInv | src/Processor/Component/Lsq.cc:225-254 | a finished load leaving keeps it |
| ProofExec.ReadInv | src/Processor/Component/RfReadPort.cc:30-69 | a register-file read keeps it |
| ProofExec.ExecuteInv | src/Processor/Component/FuncUnit/BaseFuncUnit.hh:82-101 | a result computed from ready operands keeps it |
| ProofExec.ForwardInv | src/Processor/Component/WriteBackPort.cc:48-71 | forwarding a result, to any set of waiting operations, keeps it |
| ProofWriteBack.WriteBackInv | src/Processor/Component/Rcu.cc:223-289 | a write-back, live or squashed, keeps it |
| ProofCommit.CommitInv | src/Processor/Component/Rcu.cc:385-435 | retiring one entry, normally, at a resumption or with a trap, keeps it |
| ProofUndo.UndoInv | src/Processor/Component/Rcu.cc:348-372 | removing the youngest entry keeps it |
| ProofUndo.FinishInv | src/Processor/Component/Rcu.cc:358-367 | reaching the rollback entry keeps it |
| ProofUndo.LeaveFlushInv | src/Processor/Component/Rcu.cc:374-382 | ending a backend flush keeps it |
| BackendTheorems.StepInv | src/Processor/Processor.cc:330-337 | every transition of the backend keeps the invariant |
| BackendTheorems.RunInv | src/Processor/Processor.cc:330-337 | so it holds in every state of every run from reset, whatever the order of the transitions |
| BackendTheorems.OperandIsLastWritersResult | src/Processor/Component/Rcu.cc:168-189 | renaming preserves sequential dataflow: whenever an operand of a live instruction is ready, by register read or forwarding, it is the result the youngest older live writer of its ISA register has in the sequential run of exactly the instructions before that writer, or the committed value, 0 if never written |
| BackendTheorems.LiveStateIsSequential | src/Processor/Component/Rcu.cc:168-189 | the sequential state kept for a live instruction is that of the sequential machine run on the committed instructions and then the older live ones |
| BackendTheorems.SourcesAreNeverFree | src/Processor/Component/Rcu.cc:394-400 | a physical register read by a live instruction is never on the free list: it is freed only once no older reader is uncommitted |
| BackendTheorems.WriterValue | src/Processor/Component/Rcu.cc:49-56 | the table before an instruction names the youngest older writer of each register |
| BackendTheorems.CommittedStateIsSequential | src/Processor/Component/Rcu.cc:394-400 | in every reachable state the registers behind the committed map, and memory once the committed stores still queued are written, are those of the sequential machine after the committed instructions |
| BackendTheorems.QuiescentStateIsSequential | src/Processor/Component/Rcu.cc:385-435 | with both queues empty the rename table, register file and memory alone hold the sequential state |
| BackendTheorems.RegistersAreConserved | src/Processor/Component/Rcu.cc:322-340 | physical registers are conserved: free list, rename table and the old names kept by unreleased entries hold every register of the pool exactly once, under the single-release hypothesis |
| RegisterTheorems.AllocatedIffNotFree | src/Processor/Component/BusyList.hh:40-52 | in every reachable state a register is marked allocated exactly while it is not on the free list; the last register is neither |
| RegisterTheorems.RegisterEffects | src/Processor/Component/Rcu.cc:217-435 | for every transition: the value of a register changes only by the forwarding or the live, unfaulted write-back of an instruction that writes it, and is then its result; its flags and the free list change as given |
| BackendTheorems.TableCount | src/Processor/Component/Rcu.cc:124-130 | the exchange law behind it: each held writer trades one occurrence of its old register for one of its new |
| BackendTheorems.FreeRegistersWhenEmpty | src/Processor/Component/FreeList.hh:22-63 | an empty reorder buffer leaves at least RegCount - 33 registers free, so allocation cannot starve |
| RecoveryTheorems.NoTagConfusion | src/Processor/Component/Rcu.cc:226-228 | a write-back that passes the liveness guard updates the entry its own instruction allocated; any other changes nothing, and its register is free and not re-allocated while it lingers |
| RecoveryTheorems.RecoveryState | src/Processor/Component/Rcu.cc:348-382 | in Undo and WaitForResume the rollback entry is live, in WaitForResume the youngest, in FlushBackend the buffer is empty, and every known fault or misprediction lies at or behind the rollback entry |
| RecoveryTheorems.RollbackEntryGetsOlder | src/Processor/Component/Rcu.cc:223-289 | within one recovery no transition moves the rollback entry to a younger instruction |
| ControlTheorems.WriteBackControl | src/Processor/Component/Rcu.cc:223-289 | in every valid state, by distance from the header: a fault starts a recovery if the unit is idle or the entry is nearer than the rollback entry, a mispredicted branch also if it is the rollback entry itself; with speculation off a well predicted branch ends the recovery that waits for it; everything else leaves state, tag and cause alone |
| ControlTheorems.WriteBackEntry | src/Processor/Component/Rcu.cc:228-233 | of all entries only the one written back changes, and only in done, stable, fault and mispredicted |
| ControlTheorems.RecoveryStarts | src/Processor/Component/Rcu.cc:223-289 | the same over runs: after the write-back of a live instruction the entry holds its outcome, and the recovery state, tag and cause are those of the oldest fault or misprediction known |
| ControlTheorems.AguRaiseControl | src/Processor/Component/Rcu.cc:291-317 | address generation with or without an exception: the fields of the entry, and when an exception would take over the recovery |
| ControlTheorems.DispatchControl | src/Processor/Component/Rcu.cc:58-116 | the entry an instruction is allocated with, and the control state after it: a recovery at its own entry for a fault or control flow other than MRET, idle otherwise |
| ControlTheorems.UnresolvedStopsDispatch | src/Processor/Component/Rcu.cc:94-102 | in every reachable state a live control-flow instruction, MRET apart, that is not done holds dispatch back: a recovery is on at it or at an older entry, and nothing can be dispatched |
| ControlTheorems.RollbackEntryIsOldestCause | src/Processor/Component/Rcu.cc:223-289 | in every reachable state the rollback entry is faulted, mispredicted or control flow, no older entry has a known fault or misprediction or is unresolved, and outside a recovery no entry has or is |
| ControlTheorems.OperationIffScheduled | src/Processor/Pipeline/Dispatch.cc:119-142 | dispatch starts an operation for exactly the instructions that enter a scheduler: those that are not faulted, no-operations, FENCE or MRET |
| RecoveryTheorems.TrapsArePrecise | src/Processor/Component/Rcu.cc:415-427 | retirement traps if and only if the entry faulted; then every older instruction has committed or was squashed, every younger one was squashed and has not committed, the reported pc and cause are its own, and the backend empties |
| RecoveryTheorems.NothingVanishes | src/Processor/Component/Rcu.cc:348-435 | in every reachable state each instruction ever dispatched is committed, squashed or live: none leaves in another way |
| RecoveryTheorems.RunHistory | src/Processor/Processor.cc:330-337 | between two points of a run an instruction live at both keeps its decoding, and the tables, register names and sequential states right before and right after it stay what they were |
| RecoveryTheorems.RollbackInvertsAllocation | src/Processor/Component/Rcu.cc:348-372 | rollback inverts allocation: after any run from a state where T is live, finishing a rollback at T leaves the rename table T left behind, or found, if T faulted and was released |
| RecoveryTheorems.ResponseFindsItsLoad | src/Processor/Component/FuncUnit/Func_LSU.hh:166-214 | a load response always finds the entry that issued it, killed or not |
| RecoveryTheorems.LoadsReadSequentialMemory | src/Processor/Component/Lsq.cc:124-152 | what an unkilled load was answered is what memory holds after the sequential run of exactly the older instructions, at the address that run gives it |
| RecoveryTheorems.DependenceIsExact | src/Processor/Component/Lsq.cc:225-254 | the dependence flag of an unkilled load is up if and only if an older store is queued, and the recorded slot then holds the youngest such store |
| RecoveryTheorems.CommittedAccessesInOrder | src/Processor/Component/Rcu.cc:401-413 | the memory accesses of committed loads and stores happen in program order, at most one each |
| RecoveryTheorems.OnlyCommittedStoresReachMemory | src/Processor/Component/Lsq.cc:160-165 | a store that has not committed never reaches memory |
| RecoveryTheorems.NoAssertionFails | src/Processor/Component/LoopQueue.hh:100-115 | in every reachable state the commit package, the rollback, both kinds of response and every in-flight operation find what the next step takes for granted |
| CycleTheorems.RollBackCall | src/Processor/Component/Rcu.cc:348-372 | a call of RollBack is a sequence of single removals and, when the tag is met, the finish; it leaves w fewer younger entries or none |
| CycleTheorems.RollBackIsSafe | src/Processor/Component/Rcu.cc:348-372 | in every reachable rollback the demands of each turn of the loop are met |
| CycleTheorems.RollbackTakesExactlyRounds | src/Processor/Component/Rcu.cc:374-382 | with n younger entries and width w exactly max(1, ceil(n/w)) calls of Evaulate reach WaitForResume, none fewer |
| ControlTheorems.EvaluateCall | src/Processor/Component/Rcu.cc:374-382 | from every state of the invariant a call of Evaulate is a run of the machine: in a rollback the removals, and the finish if the rollback entry is reached; from a flush exactly its end, with nothing else changed; otherwise nothing |
| ControlTheorems.RetirementControl | src/Processor/Component/Rcu.cc:415-427 | retirement leaves a recovery, for a flush of the backend, exactly when the header is the rollback entry awaited, and takes a trap, with its pc and the recorded cause, exactly if that entry faulted |
| CycleTheorems.RoundsIsCeiling | src/Processor/Component/Rcu.cc:374-382 | that number is the rounded-up quotient, at least 1 |
| CycleTheorems.RollBackReturns | src/Processor/Component/Rcu.cc:322-346 | a call keeps a prefix of the entries and appends to the free list exactly the registers of the others, youngest first, and last that of a faulting rollback entry |
| CycleTheorems.RollBackRestoresTable | src/Processor/Component/Rcu.cc:348-372 | a call of RollBack takes the rename table to the one after the entries that are left, or before the rollback entry if that faulted, second releases included and with no hypothesis on the run |
| CycleTheorems.KilledStoreIsTheNamedOne | src/Processor/Component/Lsq.cc:210-213 | although the tag is ignored, in every reachable rollback the store dropped is the one the entry names, uncommitted and of the same instruction |
| CycleTheorems.CommitCall | src/Processor/Component/Rcu.cc:385-435 | a call of CommitInsn is a sequence of single retirements, none of which fails |
| CycleTheorems.LsqEvaluateCall | src/Processor/Component/Lsq.cc:225-254 | a call of Lsq::Evaulate keeps the invariant |
| CycleTheorems.SecondReleaseDamage | src/Processor/Component/Rcu.cc:358-367 | releasing an already released entry keeps the register census and the store queue intact if and only if the entry held neither a register nor a store |
| CycleTheorems.SingleReleaseIsExact | src/Processor/Component/Rcu.cc:348-372 | when a rollback restarts over a released entry, the write-back meets the hypothesis if and only if the next removal can be done and leaves the register census and the store queue right |
| DoubleRelease.FreeListDuplicates | src/Processor/Component/Rcu.cc:348-372 | a concrete reachable run, of eight transitions and one more write-back and removal, that puts the same register on the free list twice |
| PackageTheorems.PackageIsARun | src/Processor/Pipeline/Dispatch.cc:60-66 | dispatching a package is a run of single dispatch transitions, all enabled, ending in the state of the batch |
| FuncLsu.Lsu.Generate | src/Processor/Component/FuncUnit/Func_LSU.hh:126-136 | address and data reach the queue entry, and a store is marked done |
| FuncLsu.Lsu.AddrGen | src/Processor/Component/FuncUnit/Func_LSU.hh:48-120 | the address is below 2^64, differs from operand plus displacement by a multiple of 2^64, and equals their sum if that is in range; the switch only ever marks the exception invalid, exactly for the misaligned accesses it checks (LHU falls through to the word check) |
| FuncLsu.WrapIsModular | src/Processor/Component/FuncUnit/Func_LSU.hh:49-49 | 64-bit addition, one wrap in either direction in plain numbers |
| FuncLsu.Lsu.ReceiveLoad | src/Processor/Component/FuncUnit/Func_LSU.hh:166-214 | a killed load is only marked; any other is marked, its bytes extracted and widened as its opcode says, and put on a free write-back port, one being free as the source asserts |
| FuncLsu.Lsu.ReceiveStore | src/Processor/Component/FuncUnit/Func_LSU.hh:215-218 | the store is marked executed |
| MemAccess.FillStore | src/Processor/Component/Lsq.cc:163-190 | the request carries the shifted bytes and the mask of the access |
| MemAccess.BaseDRAM.Write | src/Memory/BaseDRAM.cc:117-125 | exactly the masked bytes change |
| MemAccess.BaseDRAM.Read | src/Memory/BaseDRAM.cc:80-85 | the bytes of the range are returned |
| MemAccess.StoreThenLoad | src/Processor/Component/FuncUnit/Func_LSU.hh:173-200 | store then load at the same address and size returns the sign- or zero-extended low bytes, for every access inside its aligned block |
| MemAccess.StoreThenLoadWidens | src/Processor/Component/FuncUnit/Func_LSU.hh:173-200 | the round trip by opcode and in plain numbers: LB, LH and LW copy the sign of the low 8, 16 or 32 bits stored, LBU, LHU and LWU do not, LD returns 64 bits |
| MemAccess.ExtractIsItsBytes | src/Processor/Component/FuncUnit/Func_LSU.hh:173-200 | what is extracted from a block is the little-endian number of the bytes the opcode names, widened as the opcode says |
| MemAccess.LoadIsItsBytes | src/Processor/Component/FuncUnit/Func_LSU.hh:173-200 | the same of a load from memory |
| MemAccess.StoreIsItsBytes | src/Processor/Component/Lsq.cc:163-190 | a store inside its block leaves the low one, two, four or eight bytes of its data, low byte first, and no other byte changes |
| MemAccess.FilledIsStore | src/Processor/Component/Lsq.cc:163-190 | the bytes the filling loop leaves below the offset, whatever they are, are never written |
| MemAccess.StoreInPlace | src/Memory/BaseDRAM.cc:117-125 | filling the buffer and the masked write together leave exactly the memory the store is defined by |
| MemAccess.LoadInPlace | src/Processor/Component/FuncUnit/Func_LSU.hh:173-200 | reading the aligned block and extracting gives exactly the value the load is defined by |
| MemAccess.StoredByte | src/Processor/Component/Lsq.cc:163-190 | a byte of memory is the data byte of its place in the access, or unchanged outside it |
| MemAccess.StoreElsewhere | src/Memory/BaseDRAM.cc:117-125 | a load of other bytes is unaffected |
| MemAccess.AlignedIsWithin | src/Processor/Component/Lsq.cc:163-190 | a naturally aligned access lies inside its block |
| MemAccess.StoreIsExactIffWithin | src/Processor/Component/Lsq.cc:163-190 | the store writes exactly its bytes, in every memory, if and only if the access lies inside its aligned block: a straddling access loses bytes |
| ResvrStation.InAgeOrder.Allocate | src/Processor/Component/Schedular/ResvrStation/RS_InAgeOrder.hh:55-62 | the oldest free slot is emptied and appended to the busy list, one unit of budget spent |
| ResvrStation.InAgeOrder.Schedule | src/Processor/Component/Schedular/BaseSchedular.hh:113-117 | the instruction waits in the enqueue latch |
| ResvrStation.InAgeOrder.IssueSelect | src/Processor/Component/Schedular/ResvrStation/RS_InAgeOrder.hh:69-101 | the entry that leaves has every register operand it reads and an idle unit, or else a scheduler behind with room, and is handed over; every older entry is reserved only, or awaits an operand, or has no taker; without such an entry nothing changes |
| ResvrStation.InAgeOrder.HandOver | src/Processor/Component/Schedular/ResvrStation/RS_InAgeOrder.hh:80-97 | an instruction goes to an idle unit of its kind, only then to a scheduler behind that has room, and to none only if there is neither |
| ResvrStation.InAgeOrder.Evaluate | src/Processor/Component/Schedular/BaseSchedular.hh:127-149 | up to the dequeue width, until one selection fails |
| ResvrStation.InAgeOrder.Forwarding | src/Processor/Component/Schedular/ResvrStation/RS_InAgeOrder.hh:108-138 | every waiting entry that names the result register gets the value, on either operand |
| ResvrStation.InAgeOrder.Advance | src/Processor/Component/Schedular/BaseSchedular.hh:151-169 | the budget is refilled, the latch enters its slots, a flush empties the lists |
| ResvrStation.InAgeOrder.Reset | src/Processor/Component/Schedular/ResvrStation/RS_InAgeOrder.hh:35-41 | all slots free in order, none busy |
| ResvrStation.ReadOperands | src/Processor/Component/RfReadPort.cc:30-61 | an operand is filled from the register file exactly when it is missing and its register is done |
| Station.RunInv | src/Processor/Pipeline/IEW.cc:48-55 | the invariant of the station holds in every state of every run of the cycle write back, forward, issue, read operands, settle; an issued instruction may stay in the read port for any number of cycles |
| Station.NoLostWakeUp | src/Processor/Component/WriteBackPort.cc:48-71 | no lost wake-up, whatever the latency of the read ports: an operand of a waiting instruction that is still wanted is missing exactly as long as the instruction producing it has not broadcast, and is then the result that instruction broadcast; 0 for register 0 |
| Station.BroadcastServes | src/Processor/Component/Schedular/ResvrStation/RS_InAgeOrder.hh:108-138 | a broadcast leaves no entry waiting for its register |
| Station.SentIsBroadcast | src/Processor/Component/WriteBackPort.cc:52-59 | the results a run remembers are exactly those broadcast in it, one for each producer |
| Station.StepInv | src/Processor/Pipeline/IEW.cc:48-55 | every event of a cycle keeps the invariant: a register held for its producer is done if and only if that producer has broadcast, and every instruction still wanted reads registers held for its producers |
| Station.ListsAreAgedPartition | src/Processor/Component/Schedular/ResvrStation/RS_InAgeOrder.hh:55-106 | free and busy lists partition the slots, the busy list in age order |
| Station.OldestGoesFirst | src/Processor/Component/Schedular/ResvrStation/RS_InAgeOrder.hh:69-101 | no entry that could go is older than the one selected |
| Station.IssueTakesOldestReady | src/Processor/Component/Schedular/ResvrStation/RS_InAgeOrder.hh:69-101 | the instruction that leaves has each register operand it reads, equal to what its producer broadcast if it is still wanted, and a unit; any other entry with all its operands and a unit is younger; the lists change by that entry alone |
| Station.StationAccepts | src/Processor/Component/Schedular/BaseSchedular.hh:94-112 | a free slot and a unit of budget are all a new instruction needs of the station |
| Station.StationIssues | src/Processor/Component/Schedular/ResvrStation/RS_InAgeOrder.hh:69-101 | an entry with all its operands and a unit free for it is all an issue needs |
| Station.StationEffects | src/Processor/Component/Schedular/ResvrStation/RS_InAgeOrder.hh:55-138 | for every event of a cycle, the slots, lists, port, latch and budget of the station afterwards: a slot from the front of the free list, operands read, woken or kept, the latch entered in its slots, a flush freeing every slot in order |
| Station.BudgetIsFullAtForwarding | src/Processor/Component/Schedular/BaseSchedular.hh:151-152 | each cycle starts with a full enqueue budget |
| Station.ReadingFirstLosesTheWakeUp | src/Processor/Pipeline/IEW.cc:48-55 | with the operand read before the forwarding of the same cycle a wake-up is lost: the order matters |
| Predecode.Fetch1.Predecode | src/Processor/Pipeline/Fetch1.cc:174-220 | an exception block yields its one faulting instruction, waits for resumption and leaves the carried half; any other block, with the half carried into it, is split into the instructions of its parse, and the half it leaves is carried on |
| Predecode.Fetch1.PredecodeBlock | src/Processor/Pipeline/Fetch1.cc:185-218 | the splitting loop gives the parse of the carried half followed by the block from its offset on, which ParseIsTheSplit shows to be the split by length; numByte never underflows and the loop ends |
| Predecode.Fetch1.FetchBlocks | src/Processor/Pipeline/Fetch1.cc:72-74 | the stage run over any number of contiguous blocks gives the stream of those blocks, with what it still carries |
| Predecode.ParseAppend | src/Processor/Pipeline/Fetch1.cc:196-218 | parsing a stream in two parts, carrying what the first leaves, is parsing it at once |
| Predecode.ParseIsTheSplit | src/Processor/Pipeline/Fetch1.cc:196-218 | each instruction is 32 bits long if and only if its low two bits are 11, starts where its predecessor ends, and is a jump only if it is the last of a stream that was cut; joined with the rest, the bytes of the instructions are the stream, and the rest is nothing or the first half of a 32-bit instruction |
| Predecode.StreamIsOneShotParse | src/Processor/Pipeline/Fetch1.cc:72-74 | any number of contiguous blocks give the parse of the joined bytes (section 1.5 of the RISC-V ISA Manual Volume I, 20191213) |
| Predecode.StreamIsTheSplit | src/Processor/Pipeline/Fetch1.cc:72-74 | the same of the output of any number of blocks, with what is carried as the rest of the bytes fetched |
| Predecode.CarryMeetsAWholeBlock | src/Processor/Pipeline/Fetch1.cc:186-187 | a carried half is only ever met by a block read from its start, so the assertion holds |
| Predecode.BlocksAreAligned | src/Processor/Pipeline/Fetch1.cc:185-187 | a block starts at a multiple of its width, and the next one is the first after the address |
| Predecode.RedirectCutsTheStream | src/Processor/Pipeline/Fetch1.cc:209-212 | a redirect ends the output after its instruction, wherever the stream would have gone on |
| Predecode.CutStays | src/Processor/Pipeline/Fetch1.cc:209-212 | what follows a cut adds nothing |
| Timing.TimeBuffer.Advance | src/Timing/TimeBuffer.hh:99-117 | one advance: flush, stall, or accept and emit |
| Timing.TimeBuffer.Reset | src/Timing/TimeBuffer.hh:90-98 | both ports, both flags and the queue are cleared |
| Timing.BoundedFifoDelay | src/Timing/TimeBuffer.hh:99-117 | after any sequence of uses, items come out in order with none lost or duplicated, never earlier than L-1 ticks after they were taken, late by at most the stalled advances since the reset (so exactly then if there were none), and the queue holds at most L-1 items |
| Timing.TickPorts | src/Timing/TimeBuffer.hh:90-117 | a stall keeps both ports and what was just sent and is over with the tick, a flush empties everything whatever else is asked for, and otherwise the output port shows what the tick put out |
| Timing.TicksInv | src/Timing/TimeBuffer.hh:90-117 | the invariant behind it holds after every tick |
| HandOff.QueueStage.ReleaseAction | src/Processor/Pipeline/Decode.cc:39-46 | as many entries leave as the acknowledgement took |
| HandOff.QueueStage.ReceiveReq | src/Processor/Pipeline/Decode.cc:48-86 | the accepted prefix enters in order and is acknowledged by its length, or the link is stalled |
| HandOff.QueueStage.ReceiveAll | src/Processor/Pipeline/Fetch2.cc:45-81 | the whole package enters, or a replay is asked for |
| HandOff.QueueStage.SendReq | src/Processor/Pipeline/Decode.cc:88-101 | the oldest entries are offered unless the link is stalled |
| HandOff.TickInv | src/Processor/Pipeline/Fetch2.cc:83-96 | one tick of both links, under any stall and any partial acknowledgement, keeps what has been taken together with what is queued equal to what was pushed |
| HandOff.ExactlyOnceInOrder | src/Processor/Pipeline/Decode.cc:39-101 | between flushes what Dispatch takes is a prefix of what entered the decode queue and what Decode takes a prefix of what entered the instruction buffer |
| Tlb.BaseTLB.LookupEntry | src/Processor/Component/TLB.cc:14-34 | the last matching valid entry, its sequence number renewed unless hidden |
| Tlb.BaseTLB.EvictLRU | src/Processor/Component/TLB.cc:42-52 | the first entry with the least sequence number is invalidated and freed |
| Tlb.BaseTLB.InsertEntry | src/Processor/Component/TLB.cc:54-76 | a present key is left alone, even with another page; otherwise a free entry, evicted if need be, is filled |
| Tlb.BaseTLB.FlushEntries | src/Processor/Component/TLB.cc:78-85 | every entry is invalidated and its slot appended to the free list, free already or not |
| Tlb.BaseTLB.TLB_LookUp | src/Processor/Component/TLB.cc:87-100 | a hit gives the page with the offset |
| Tlb.BaseTLB.TLB_Insert | src/Processor/Component/TLB.cc:102-112 | the masked mapping is inserted |
| TlbTheorems.HitsAreSound | src/Processor/Component/TLB.cc:87-100 | every hit is the page of a mapping inserted for that masked address and space since the last flush, offset intact |
| TlbTheorems.HitIsAnInsertion | src/Processor/Component/TLB.cc:87-112 | every hit goes back to an insertion since the last flush with the same address space and the same bits 12 to 38 of the virtual address, and returns bits 12 to 55 of the physical address inserted with the low twelve bits of the address looked up |
| TlbTheorems.MasksAreFields | src/Processor/Component/TLB.cc:87-112 | the masks select these bits |
| TlbTheorems.RunSound | src/Processor/Component/TLB.cc:54-76 | at most one valid entry exists per key, flushes included |
| TlbTheorems.ResidentIffRecentlyUsed | src/Processor/Component/TLB.cc:42-76 | a key is resident if and only if it is among the entry_num most recently used distinct keys, over every run that flushes only when full |
| TlbTheorems.FlushListsIffFull | src/Processor/Component/TLB.cc:78-85 | a flush leaves each slot on the free list once if and only if none was free before |
| TlbTheorems.FlushIsHarmlessIffFull | src/Processor/Component/TLB.cc:78-85 | with more than one entry a flush leaves the TLB least-recently-used, however the run goes on without another flush, if and only if no slot was free at the flush |
| TlbTheorems.OneEntryIsLru | src/Processor/Component/TLB.cc:42-85 | a TLB of one entry is least-recently-used over every run, whenever it is flushed |
| TlbTheorems.FlushWhenNotFullBreaksLru | src/Processor/Component/TLB.cc:78-85 | a concrete run with a flush while a slot was free after which a recently used key is gone |

## Left out

- Double releases: runs in which an older fault or misprediction restarts a rollback over a released entry that held a register or a store are excluded by `Backend.SingleRelease`; what happens then is described by `SecondReleaseDamage` and `FreeListDuplicates`.
- Fixed parameters: RenameRegister and ForwardResult true, MustTakenAllInsn of dispatch false, dCacheAlignByte 8, FetchByteWidth equal to iCacheAlignByte, as every shipped configuration has them; the non-renaming mode and snapshots are not modelled.
- Computation: ALU, MUL, DIV, BRU and CSR results, memory contents behind loads and stores of the backend machine, misprediction and load faults are arbitrary functions of the instruction and its operands; immediates, opcodes, compressed expansion and privilege are not modelled. The decoder's contract (a register type of NONE means index 0, and a destination of type INT means a nonzero index) is assumed as `WellDecoded`.
- Register width: values are natural numbers; only `FuncLsu.Wrap` and `MemAccess` fix the 64-bit width. The 64-bit LRU sequence number of the TLB and the tick counter are unbounded.
- dCachePort: a request accesses memory when it is sent and the response comes at any later time, in any order; atomic operations and reservations are not modelled.
- ExecContext: `WriteIntReg` and the CSR maps are not modelled; architectural register state is the committed rename map with the register file, since the source skips the write when the old name is register 0.
- Null instruction pointers: packages hold instructions only; the checks for empty places are not modelled.
- RecoveryTheorems.RollbackInvertsAllocation: like every theorem over runs, is about runs without a harmful second release; the table half for one call, without that hypothesis, is `RollBackRestoresTable`.
- RcuUnit.Rcu.CommitHeader: does not model the writes to the execution context (the register values and the retired-instruction count), which nothing here reads back.
- RcuUnit.Rcu.CommitInsn: does not model those writes either.
- FuncLsu.Lsu.AddrGen: the cause and the value written beside an invalid exception are not kept, since an exception is an option here and nothing reads them.
- FuncLsu.Lsu.ReceiveLoad: the access is required to lie within its aligned block, because beyond it the source reads past its buffer.
- MemAccess.BaseDRAM.Write: the whole range is required to lie in memory, where the source only checks its first byte. The hole and I/O regions are not modelled.
- MemAccess.BaseDRAM.Read: the same bound on its range.
- DispatchStage.Dispatch.Evaluate: asks for a package of distinct decoded instructions that carry no target and no queue slot yet, and for schedulers with a full enqueue budget, which the end of every cycle restores (`BudgetIsFullAtForwarding`).
- HandOff.QueueStage.ReceiveAll: asks that a package be no larger than the configured count of the link, as the push into the buffer does.
- Predecode.Fetch1.Predecode: takes predictions as invalid, so that JAL and C.J redirect; fetch requests, the in-flight queue and killed blocks are not modelled. The offset of an address in its block is its remainder; the source masks with the width less one, which is the same for the powers of two every configuration uses. Instructions longer than 32 bits are split by the source as 32-bit ones, and so here.
- Station: squashed instructions linger and nothing is promised them; that the environment keeps to its part is proved for the backend machine, not for a machine joining both. One station with one register-file read before it; in the machine a scheduler behind the station is one more function unit, idle or busy at will; the other scheduling policies and several write-back ports as objects are not modelled. A cycle is the order of phases of IEW with any number of events in each; function units are idle or busy at will.
- HandOff: instructions are values of any type; decoding, the replay redirect of Fetch2 and the choice of the redirect target are not modelled beyond the fact that a replay drops the package.
- Liveness: no fairness is assumed, so nothing is said about a run making progress beyond the exact length of a rollback and the enabledness stated by `NoAssertionFails`.
- Out-of-order and in-order reservation stations, branch prediction, CLINT, ELF loading, YAML construction, factories, tracing and the test bench headers: not part of this model.
