// The out-of-order backend as a state machine. Every transition is one turn of a loop, or
// one call, of the source; the queue and rename updates are those of RcuSpec and LsqSpec.
// Specification variables (datatype Spec) record program order: they never influence a
// transition.
module Backend {
  import opened DynInsn
  import opened LoopQueue
  import L = LsqSpec
  import R = RcuSpec

  type Mem = map<nat, nat>

  // Sizes, the speculation switch, and the parts of the machine left abstract: arithmetic,
  // branch resolution, address generation and the memory behind the data-cache port.
  datatype Config = Config(
    regCount: nat, robSize: nat, ldqSize: nat, stqSize: nat, speculate: bool,
    compute: (Decoded, Val, Val) -> Val,
    misPred: (Decoded, Val, Val) -> bool,
    addr: (Decoded, Val) -> nat,
    load: (Mem, Decoded, nat) -> Val,
    store: (Mem, Decoded, nat, Val) -> Mem,
    loadFault: (Decoded, nat) -> Option<Fault>)
  {
    predicate Valid() { regCount >= 2 && robSize > 0 && ldqSize > 0 && stqSize > 0 }
  }

  // ---- the sequential machine -----------------------------------------------------------

  datatype Arch = Arch(x: seq<Val>, mem: Mem)

  function XReg(x: seq<Val>, r: nat): Val { if r < |x| then x[r] else 0 }

  function OperandA(a: Arch, d: Decoded): Val { if d.rs1Type == INT then XReg(a.x, d.isaRs1) else 0 }

  function OperandB(a: Arch, d: Decoded): Val { if d.rs2Type == INT then XReg(a.x, d.isaRs2) else 0 }

  function Address(cfg: Config, a: Arch, d: Decoded): nat { cfg.addr(d, OperandA(a, d)) }

  function LoadResult(cfg: Config, mem: Mem, d: Decoded, addr: nat): Val {
    if cfg.loadFault(d, addr).Some? then 0 else cfg.load(mem, d, addr)
  }

  // The value an instruction leaves in its destination. A faulting load leaves the zero its
  // result field was created with; such a load never commits.
  function Result(cfg: Config, a: Arch, d: Decoded): Val {
    if d.fu == LDU then LoadResult(cfg, a.mem, d, Address(cfg, a, d))
    else cfg.compute(d, OperandA(a, d), OperandB(a, d))
  }

  function SeqStep(cfg: Config, a: Arch, d: Decoded): (a': Arch)
    ensures |a'.x| == |a.x|
  {
    Arch(if d.Writes() && d.isaRd < |a.x| then a.x[d.isaRd := Result(cfg, a, d)] else a.x,
         if d.fu == STU then cfg.store(a.mem, d, Address(cfg, a, d), OperandB(a, d)) else a.mem)
  }

  function InitArch(mem: Mem): Arch { Arch(seq(ISA_REGS, _ => 0), mem) }

  // Executing a list of instructions in program order.
  function SeqRun(cfg: Config, mem: Mem, ds: seq<Decoded>): (a: Arch)
    ensures |a.x| == ISA_REGS
  {
    if ds == [] then InitArch(mem)
    else SeqStep(cfg, SeqRun(cfg, mem, ds[..|ds| - 1]), ds[|ds| - 1])
  }

  // ---- backend state ----------------------------------------------------------------------

  datatype Stage =
    | Waiting                                       // in a scheduler, collecting operands
    | InLsq                                         // a load whose address has been generated
    | Completed(result: Val, fault: Option<Fault>)  // in the write-back port, not yet forwarded
    | Forwarded(result: Val, fault: Option<Fault>)  // in the write-back latch

  datatype Op = Op(
    d: Decoded, robTag: nat, lsqTag: nat, phyRs1: nat, phyRs2: nat, phyRd: nat,
    a: Option<Val>, b: Option<Val>, stage: Stage)
  {
    predicate Ready() { (d.rs1Type == INT ==> a.Some?) && (d.rs2Type == INT ==> b.Some?) }

    function ValA(): Val { if d.rs1Type == INT && a.Some? then a.value else 0 }

    function ValB(): Val { if d.rs2Type == INT && b.Some? then b.value else 0 }
  }

  datatype Resp = Resp(id: nat, value: Val, fault: Option<Fault>)

  // `maps[k]` and `archs[k]` are the rename table and the sequential state just before the
  // k-th live instruction; `released` says the youngest entry's resources have been returned;
  // `dead` collects instructions that were squashed or trapped; `trace` lists the
  // instructions in the order of their memory accesses.
  datatype Spec = Spec(
    released: bool, maps: seq<seq<nat>>, archs: seq<Arch>,
    committed: seq<Decoded>, commitIds: seq<nat>, dead: set<nat>, robTag: map<nat, nat>, trace: seq<nat>)

  datatype State = State(
    rcu: R.Rcu, lsq: L.Lsq, ops: map<nat, Op>, lresp: map<nat, Resp>, sresp: map<nat, nat>,
    mem: Mem, pkg: nat, nextId: nat, traps: seq<R.Trap>, g: Spec)
  {
    function Core(): R.Core { R.Core(rcu, lsq) }

    function Rob(): seq<R.RobEntry> { rcu.rob.elems }

    // Entries whose resources are still theirs.
    function Held(): (u: nat)
      ensures u <= |Rob()|
    { if g.released && Rob() != [] then |Rob()| - 1 else |Rob()| }
  }

  function Init(cfg: Config, mem: Mem): State
    requires cfg.Valid()
  {
    var table := seq(ISA_REGS, _ => 0);
    State(
      R.Rcu(Queue(cfg.robSize, 0, []), R.Idle, 0, Fault(0, 0), table,
            seq(cfg.regCount - 2, i => i + 1),
            seq(cfg.regCount, p => R.Busy(p == 0, false, p == 0)),
            seq(cfg.regCount, _ => 0)),
      L.Lsq(Queue(cfg.ldqSize, 0, []), Queue(cfg.stqSize, 0, [])),
      map[], map[], map[], mem, 0, 0, [],
      Spec(false, [table], [InitArch(mem)], [], [], {}, map[], []))
  }

  // ---- transitions ----------------------------------------------------------------------

  predicate CanDispatch(s: State, d: Decoded) {
    && s.Core().Valid() && |s.rcu.regs| > 0 && |s.g.archs| > 0
    && s.rcu.mode == R.Idle && d.WellDecoded() && R.CanAllocate(s.rcu, d) && s.lsq.HasRoom(d)
  }

  function NewOp(s: State, d: Decoded): Op
    requires CanDispatch(s, d)
  {
    var n := R.RenameOne(s.rcu, d);
    Op(d, s.rcu.rob.Tail(), L.Allocate(s.lsq, s.nextId, d).1, n.phyRs1, n.phyRs2, n.phyRd, None, None, Waiting)
  }

  // Lsq::Allocate, Rcu::Allocate and DispatchInsn for one instruction of a package.
  function Dispatch(cfg: Config, s: State, d: Decoded): State
    requires CanDispatch(s, d)
  {
    var id := s.nextId;
    var (l', lsqTag) := L.Allocate(s.lsq, id, d);
    var r' := R.AllocateOne(s.rcu, id, d, lsqTag);
    s.(rcu := r', lsq := l',
       ops := if d.DoneAtDispatch() then s.ops else s.ops[id := NewOp(s, d)],
       nextId := id + 1,
       g := s.g.(maps := s.g.maps + [r'.table],
                 archs := s.g.archs + [SeqStep(cfg, s.g.archs[|s.g.archs| - 1], d)],
                 robTag := s.g.robTag[id := s.rcu.rob.Tail()]))
  }

  predicate CanRead(s: State, id: nat, second: bool) {
    && id in s.ops && s.ops[id].stage == Waiting
    && (if second then
          s.ops[id].phyRs2 < |s.rcu.busy| == |s.rcu.regs| && s.ops[id].d.rs2Type == INT && s.rcu.busy[s.ops[id].phyRs2].done
        else
          s.ops[id].phyRs1 < |s.rcu.busy| == |s.rcu.regs| && s.ops[id].d.rs1Type == INT && s.rcu.busy[s.ops[id].phyRs1].done)
  }

  // RfReadPort::Evaluate for one operand.
  function ReadOperand(s: State, id: nat, second: bool): State
    requires CanRead(s, id, second)
  {
    var op := s.ops[id];
    s.(ops := s.ops[id := if second then op.(b := Some(s.rcu.regs[op.phyRs2]))
                          else op.(a := Some(s.rcu.regs[op.phyRs1]))])
  }

  predicate CanExecute(s: State, id: nat) {
    id in s.ops && s.ops[id].stage == Waiting && s.ops[id].Ready() && s.ops[id].d.fu != LDU && s.ops[id].d.fu != STU
  }

  // A functional unit computes and hands the result to a write-back port.
  function Execute(cfg: Config, s: State, id: nat): State
    requires CanExecute(s, id)
  {
    var op := s.ops[id];
    s.(ops := s.ops[id := op.(stage := Completed(cfg.compute(op.d, op.ValA(), op.ValB()), None))])
  }

  predicate CanAgu(s: State, id: nat) {
    && id in s.ops && s.ops[id].stage == Waiting && s.ops[id].Ready()
    && s.rcu.Valid() && s.lsq.Valid() && s.ops[id].robTag < s.rcu.rob.size
    && (s.ops[id].d.fu == LDU || s.ops[id].d.fu == STU)
    && (s.ops[id].d.fu == LDU ==> s.ops[id].lsqTag < s.lsq.ldq.size)
    && (s.ops[id].d.fu == STU ==> s.ops[id].lsqTag < s.lsq.stq.size)
  }

  // Func_LSU::Evaluate: address and data generation.
  function Agu(cfg: Config, s: State, id: nat): State
    requires CanAgu(s, id)
  {
    var op := s.ops[id];
    s.(rcu := R.AguDetect(s.rcu, op.d, op.robTag),
       lsq := L.WriteBack(s.lsq, op.d, op.lsqTag, cfg.addr(op.d, op.ValA()), op.ValB()),
       ops := if op.d.fu == LDU then s.ops[id := op.(stage := InLsq)] else s.ops - {id})
  }

  predicate CanForward(s: State, id: nat) {
    && id in s.ops && s.ops[id].stage.Completed? && s.rcu.Valid() && s.ops[id].phyRd < |s.rcu.regs|
  }

  // RS_InAgeOrder::Forwarding on one waiting instruction.
  function Wake(op: Op, d: Decoded, phyRd: nat, result: Val): Op {
    if d.rdType == NONE || d.isaRd == 0 || phyRd == 0 || op.stage != Waiting then op
    else
      var op1 := if op.d.rs1Type == INT && op.phyRs1 == phyRd then op.(a := Some(result)) else op;
      if op.d.rs2Type == INT && op.phyRs2 == phyRd then op1.(b := Some(result)) else op1
  }

  // WriteBackPort::Forwarding; `wake` is the set of instructions sitting in the stations
  // this port wakes.
  function Forward(s: State, id: nat, wake: set<nat>): State
    requires CanForward(s, id)
  {
    var op := s.ops[id];
    s.(rcu := R.Forward(s.rcu, op.d, op.phyRd, op.stage.result),
       ops := map i | i in s.ops ::
                if i == id then op.(stage := Forwarded(op.stage.result, op.stage.fault))
                else if i in wake then Wake(s.ops[i], op.d, op.phyRd, op.stage.result)
                else s.ops[i])
  }

  function OutcomeOf(cfg: Config, op: Op): R.Outcome
    requires op.stage.Forwarded?
  {
    R.Outcome(op.d, op.robTag, op.phyRd, op.stage.result, op.stage.fault, cfg.misPred(op.d, op.ValA(), op.ValB()))
  }

  // An entry whose second release would do damage.
  predicate HoldsResource(e: R.RobEntry) { e.phyRd != 0 || e.d.fu == STU }

  // The single-release hypothesis: while dispatch waits for resumption, an outcome that restarts
  // the rollback does not find a faulted youngest entry, which has been released already, that
  // held a register or a store.
  predicate SingleRelease(s: State, o: R.Outcome)
    requires s.rcu.Valid()
  {
    s.rcu.mode == R.WaitForResume && s.rcu.rob.Live(o.robTag) && R.Raises(s.rcu, o) ==>
      s.Rob() != [] && R.Youngest(s.rcu).fault.Some? ==> !HoldsResource(R.Youngest(s.rcu))
  }

  predicate CanWriteBack(cfg: Config, s: State, id: nat) {
    && id in s.ops && s.ops[id].stage.Forwarded? && s.rcu.Valid()
    && s.ops[id].robTag < s.rcu.rob.size && s.ops[id].phyRd < |s.rcu.regs|
    && SingleRelease(s, OutcomeOf(cfg, s.ops[id]))
  }

  function WriteBack(cfg: Config, s: State, id: nat): State
    requires CanWriteBack(cfg, s, id)
  {
    s.(rcu := R.WriteBack(s.rcu, cfg.speculate, OutcomeOf(cfg, s.ops[id])), ops := s.ops - {id})
  }

  predicate CanIssueLoad(s: State) { s.lsq.Valid() && L.LoadToIssue(s.lsq).Some? }

  // Lsq::TryIssueLoad and the data-cache port's access at request time.
  function IssueLoad(cfg: Config, s: State): State
    requires CanIssueLoad(s)
  {
    var k := L.LoadToIssue(s.lsq).value;
    var e := s.lsq.ldq.elems[k];
    var slot := s.lsq.ldq.Slot(k);
    SlotPos(s.lsq.ldq, k);
    s.(lsq := L.SetLoadState(s.lsq, slot, L.LoadInflight),
       lresp := s.lresp[slot := Resp(e.id, LoadResult(cfg, s.mem, e.d, e.address), cfg.loadFault(e.d, e.address))],
       g := s.g.(trace := s.g.trace + [e.id]))
  }

  predicate CanIssueStore(s: State) { s.lsq.Valid() && L.StoreToIssue(s.lsq).Some? }

  function IssueStore(cfg: Config, s: State): State
    requires CanIssueStore(s)
  {
    var k := L.StoreToIssue(s.lsq).value;
    var e := s.lsq.stq.elems[k];
    var slot := s.lsq.stq.Slot(k);
    SlotPos(s.lsq.stq, k);
    s.(lsq := L.SetStoreState(s.lsq, slot, L.StoreInflight),
       sresp := s.sresp[slot := e.id],
       mem := cfg.store(s.mem, e.d, e.address, e.data),
       g := s.g.(trace := s.g.trace + [e.id]))
  }

  predicate CanLoadResp(s: State, slot: nat) {
    && slot in s.lresp && s.lsq.Valid() && s.lsq.ldq.Live(slot)
    && (!s.lsq.ldq.At(slot).killed ==> s.lsq.ldq.At(slot).id in s.ops)
  }

  // Func_LSU::ReceiveResponse for a load: a killed load's data is dropped.
  function LoadResp(s: State, slot: nat): State
    requires CanLoadResp(s, slot)
  {
    var e := s.lsq.ldq.At(slot);
    s.(lsq := L.SetLoadState(s.lsq, slot, L.LoadExecuted),
       lresp := s.lresp - {slot},
       ops := if e.killed then s.ops
              else s.ops[e.id := s.ops[e.id].(stage := Completed(s.lresp[slot].value, s.lresp[slot].fault))])
  }

  predicate CanStoreResp(s: State, slot: nat) { slot in s.sresp && s.lsq.Valid() && s.lsq.stq.Live(slot) }

  function StoreResp(s: State, slot: nat): State
    requires CanStoreResp(s, slot)
  {
    s.(lsq := L.SetStoreState(s.lsq, slot, L.StoreExecuted), sresp := s.sresp - {slot})
  }

  predicate CanSendCommit(s: State) { s.pkg == 0 && s.rcu.Valid() }

  // Commit::SendCommitReq picks the package retired one cycle later.
  function SendCommit(s: State, width: nat): State
    requires CanSendCommit(s)
  {
    s.(pkg := R.PackageFrom(s.rcu, width, 0))
  }

  predicate CanCommitOne(s: State) { s.pkg > 0 && R.CanCommit(s.Core()) && |s.g.maps| > 0 && |s.g.archs| > 0 }

  // One entry of the package retires; the rollback entry's commit flushes the backend.
  function CommitOne(s: State): State
    requires CanCommitOne(s)
  {
    var c := s.Core();
    var c' := R.CommitOne(c);
    var e := s.Rob()[0];
    var t := R.TrapAtCommit(c);
    s.(rcu := c'.rcu, lsq := c'.lsq,
       ops := if R.ResumesAtCommit(c) then map[] else s.ops,
       pkg := s.pkg - 1,
       traps := if t.Some? then s.traps + [t.value] else s.traps,
       g := s.g.(released := s.g.released && |s.Rob()| > 1,
                 maps := if R.CommitsNormally(c) then s.g.maps[1..] else s.g.maps[..|s.g.maps| - 1],
                 archs := if R.CommitsNormally(c) then s.g.archs[1..] else s.g.archs[..|s.g.archs| - 1],
                 committed := if R.CommitsNormally(c) then s.g.committed + [e.d] else s.g.committed,
                 commitIds := if R.CommitsNormally(c) then s.g.commitIds + [e.id] else s.g.commitIds,
                 dead := if R.CommitsNormally(c) then s.g.dead else s.g.dead + {e.id}))
  }

  predicate CanUndoOne(s: State) { R.CanUndoOne(s.Core()) && |s.g.maps| > 0 && |s.g.archs| > 0 }

  function UndoOne(s: State): State
    requires CanUndoOne(s)
  {
    var c' := R.UndoOne(s.Core());
    s.(rcu := c'.rcu, lsq := c'.lsq,
       g := s.g.(released := false,
                 maps := s.g.maps[..|s.g.maps| - 1], archs := s.g.archs[..|s.g.archs| - 1],
                 dead := s.g.dead + {R.Youngest(s.rcu).id}))
  }

  predicate CanFinishUndo(s: State) { R.CanFinishUndo(s.Core()) }

  function FinishUndo(s: State): State
    requires CanFinishUndo(s)
  {
    var c' := R.FinishUndo(s.Core());
    var e := R.Youngest(s.rcu);
    s.(rcu := c'.rcu, lsq := c'.lsq,
       g := if e.fault.Some? then s.g.(released := true, dead := s.g.dead + {e.id}) else s.g)
  }

  predicate CanLeaveFlush(s: State) { s.rcu.mode == R.FlushBackend }

  function LeaveFlush(s: State): State { s.(rcu := s.rcu.(mode := R.Idle)) }

  predicate CanPopStore(s: State) { s.lsq.Valid() && L.CanPopStore(s.lsq) }

  function PopStore(s: State): State
    requires CanPopStore(s)
  {
    s.(lsq := L.PopStore(s.lsq))
  }

  predicate CanPopLoad(s: State) { s.lsq.Valid() && L.CanPopLoad(s.lsq) }

  function PopLoad(s: State): State
    requires CanPopLoad(s)
  {
    s.(lsq := L.PopLoad(s.lsq))
  }

  datatype Event =
    | EvDispatch(d: Decoded) | EvRead(id: nat, second: bool) | EvExecute(id: nat) | EvAgu(id: nat)
    | EvForward(id: nat, wake: set<nat>) | EvWriteBack(id: nat)
    | EvIssueLoad | EvIssueStore | EvLoadResp(slot: nat) | EvStoreResp(slot: nat)
    | EvSendCommit(width: nat) | EvCommitOne | EvUndoOne | EvFinishUndo | EvLeaveFlush
    | EvPopStore | EvPopLoad

  predicate Enabled(cfg: Config, s: State, e: Event) {
    match e
    case EvDispatch(d) => CanDispatch(s, d)
    case EvRead(id, second) => CanRead(s, id, second)
    case EvExecute(id) => CanExecute(s, id)
    case EvAgu(id) => CanAgu(s, id)
    case EvForward(id, _) => CanForward(s, id)
    case EvWriteBack(id) => CanWriteBack(cfg, s, id)
    case EvIssueLoad => CanIssueLoad(s)
    case EvIssueStore => CanIssueStore(s)
    case EvLoadResp(slot) => CanLoadResp(s, slot)
    case EvStoreResp(slot) => CanStoreResp(s, slot)
    case EvSendCommit(_) => CanSendCommit(s)
    case EvCommitOne => CanCommitOne(s)
    case EvUndoOne => CanUndoOne(s)
    case EvFinishUndo => CanFinishUndo(s)
    case EvLeaveFlush => CanLeaveFlush(s)
    case EvPopStore => CanPopStore(s)
    case EvPopLoad => CanPopLoad(s)
  }

  function Step(cfg: Config, s: State, e: Event): State
    requires Enabled(cfg, s, e)
  {
    match e
    case EvDispatch(d) => Dispatch(cfg, s, d)
    case EvRead(id, second) => ReadOperand(s, id, second)
    case EvExecute(id) => Execute(cfg, s, id)
    case EvAgu(id) => Agu(cfg, s, id)
    case EvForward(id, wake) => Forward(s, id, wake)
    case EvWriteBack(id) => WriteBack(cfg, s, id)
    case EvIssueLoad => IssueLoad(cfg, s)
    case EvIssueStore => IssueStore(cfg, s)
    case EvLoadResp(slot) => LoadResp(s, slot)
    case EvStoreResp(slot) => StoreResp(s, slot)
    case EvSendCommit(width) => SendCommit(s, width)
    case EvCommitOne => CommitOne(s)
    case EvUndoOne => UndoOne(s)
    case EvFinishUndo => FinishUndo(s)
    case EvLeaveFlush => LeaveFlush(s)
    case EvPopStore => PopStore(s)
    case EvPopLoad => PopLoad(s)
  }

  // `ss` is a run of the machine under the events `es`.
  predicate IsRun(cfg: Config, ss: seq<State>, es: seq<Event>) {
    && |ss| == |es| + 1
    && forall i :: 0 <= i < |es| ==> Enabled(cfg, ss[i], es[i]) && ss[i + 1] == Step(cfg, ss[i], es[i])
  }

  predicate Reachable(cfg: Config, mem: Mem, ss: seq<State>, es: seq<Event>) {
    cfg.Valid() && IsRun(cfg, ss, es) && ss[0] == Init(cfg, mem)
  }
}
