// What every transition of the backend does to the entries of the reorder buffer and of the two
// queues, said of the fields, and exactly when a load or a store may be sent.
module QueueTheorems {
  import opened DynInsn
  import opened LoopQueue
  import L = LsqSpec
  import R = RcuSpec
  import opened Backend
  import opened BackendInv
  import opened RecoveryTheorems
  import opened CycleTheorems
  import opened LsqTheorems
  import opened ControlTheorems

  // ---- sending ----------------------------------------------------------------------------------

  // A load is sent if and only if it is the oldest that waits and is not squashed, its address is
  // known and no store it depends on is still queued.
  lemma LoadGoes(l: L.Lsq, k: nat)
    ensures var q := l.ldq.elems;
      L.LoadToIssue(l) == Some(k) <==>
        && k < |q| && q[k].state == L.LoadWaitSend && !q[k].killed && q[k].addressReady && !q[k].hasDependancy
        && forall i :: 0 <= i < k ==> q[i].state != L.LoadWaitSend || q[i].killed
  {
  }

  // A store is sent if and only if it is the oldest that waits and has committed.
  lemma StoreGoes(l: L.Lsq, k: nat)
    ensures var q := l.stq.elems;
      L.StoreToIssue(l) == Some(k) <==>
        k < |q| && q[k].state == L.StoreWaitSend && q[k].commited && forall i :: 0 <= i < k ==> q[i].state != L.StoreWaitSend
  {
  }

  // ---- the reorder buffer -----------------------------------------------------------------------

  // Entries join at the young end with what the decoder knows, leave at the old end by commit and
  // at the young end by rollback, and change in between only when their address or their outcome
  // arrives.
  predicate RobStep(cfg: Config, s: State, e: Event, s': State) {
    var rob, rob' := s.rcu.rob, s'.rcu.rob;
    var q, q' := rob.elems, rob'.elems;
    rob'.size == rob.size && (e.EvCommitOne? || rob'.head == rob.head) &&
    match e
    case EvDispatch(d) =>
      && |q'| == |q| + 1 && q'[..|q|] == q && q'[|q|].id == s.nextId && q'[|q|].d == d && q'[|q|].fault == d.excp
      && q'[|q|].valid && !q'[|q|].isMisPred
      && (d.rdType == INT && d.isaRd != 0 ==> s.rcu.free != [] && q'[|q|].phyRd == s.rcu.free[0])
      && (!(d.rdType == INT && d.isaRd != 0) ==> q'[|q|].phyRd == 0)
      && d.isaRd < |s.rcu.table| && q'[|q|].lphyRd == s.rcu.table[d.isaRd]
    case EvAgu(id) =>
      if id in s.ops && 0 <= rob.Dist(s.ops[id].robTag) < |q| then
        var k := rob.Dist(s.ops[id].robTag);
        q' == q[k := q[k].(isStable := true, done := q[k].done || s.ops[id].d.fu == STU)]
      else q' == q
    case EvWriteBack(id) =>
      if id in s.ops && s.ops[id].stage.Forwarded? && 0 <= rob.Dist(s.ops[id].robTag) < |q| then
        var k, op := rob.Dist(s.ops[id].robTag), s.ops[id];
        var misses := op.stage.fault.None? && op.d.fu == BRU && cfg.misPred(op.d, op.ValA(), op.ValB());
        q' == q[k := q[k].(done := true, isStable := true, isMisPred := q[k].isMisPred || misses,
                           fault := if op.stage.fault.Some? then op.stage.fault else q[k].fault)]
      else q' == q
    case EvCommitOne => q != [] && q' == q[1..] && rob'.head == (if rob.head + 1 == rob.size then 0 else rob.head + 1)
    case EvUndoOne => q != [] && q' == q[..|q| - 1]
    case _ => q' == q
  }

  lemma RobDispatch(cfg: Config, s: State, e: Event)
    requires InvShape(cfg, s) && Enabled(cfg, s, e) && e.EvDispatch?
    ensures RobStep(cfg, s, e, Step(cfg, s, e))
  {
    hide R.AllBelow, R.EntriesInRange, R.TagsInRange, MapsOk, ArchsOk, SeqStep, L.Allocate;
  }

  lemma RobWritten(cfg: Config, s: State, e: Event)
    requires InvShape(cfg, s) && Enabled(cfg, s, e) && e.EvWriteBack?
    ensures RobStep(cfg, s, e, Step(cfg, s, e))
  {
    hide R.AllBelow, R.EntriesInRange, R.TagsInRange, MapsOk, ArchsOk, SingleRelease, R.Raises;
    GuardIsLiveness(s.rcu.rob, s.ops[e.id].robTag);
    var o := OutcomeOf(cfg, s.ops[e.id]);
    if s.rcu.rob.Live(o.robTag) {
      hide R.WriteBack;
      WriteBackEntry(s.rcu, cfg.speculate, o);
    }
  }

  lemma RobRest(cfg: Config, s: State, e: Event)
    requires InvShape(cfg, s) && Enabled(cfg, s, e) && !e.EvDispatch? && !e.EvWriteBack?
    ensures RobStep(cfg, s, e, Step(cfg, s, e))
  {
    hide R.AllBelow, R.EntriesInRange, R.TagsInRange, MapsOk, ArchsOk, L.WriteBack, R.RetireRegs, R.RetireLsq,
      R.PackageFrom, R.TrapAtCommit, R.CommitOne, L.SetLoadState, L.SetStoreState, L.LoadToIssue, L.StoreToIssue,
      L.PopStore, L.PopLoad, UndoOne, FinishUndo;
    match e
    case EvCommitOne => CommitEffect(s.Core());
    case EvUndoOne => UndoEffect(s);
    case EvFinishUndo => FinishEffect(s);
    case _ =>
  }

  lemma RobEffects(cfg: Config, s: State, e: Event)
    requires InvShape(cfg, s) && Enabled(cfg, s, e)
    ensures RobStep(cfg, s, e, Step(cfg, s, e))
  {
    hide InvShape, RobStep, Step, Enabled;
    match e
    case EvDispatch(_) => RobDispatch(cfg, s, e);
    case EvWriteBack(_) => RobWritten(cfg, s, e);
    case _ => RobRest(cfg, s, e);
  }

  // ---- the load queue ---------------------------------------------------------------------------

  predicate SentLoad(q: seq<L.LdqEntry>, k: nat) {
    && k < |q| && q[k].state == L.LoadWaitSend && !q[k].killed && q[k].addressReady && !q[k].hasDependancy
    && forall i :: 0 <= i < k ==> q[i].state != L.LoadWaitSend || q[i].killed
  }

  predicate SentStore(q: seq<L.StqEntry>, k: nat) {
    k < |q| && q[k].state == L.StoreWaitSend && q[k].commited && forall i :: 0 <= i < k ==> q[i].state != L.StoreWaitSend
  }

  // The entry a load is allocated with: it depends on the youngest store queued, if there is one.
  predicate FreshLoad(x: L.LdqEntry, id: nat, d: Decoded, stq: Queue<L.StqEntry>) {
    && x.id == id && x.d == d && x.state == L.LoadWaitSend && !x.killed && !x.commited && !x.addressReady
    && (x.hasDependancy <==> stq.elems != [])
    && (stq.elems != [] ==> x.oldestStqTag < stq.size && stq.Dist(x.oldestStqTag) == |stq.elems| - 1)
  }

  // The oldest and the youngest entry, for the transitions that retire or remove one.
  function Oldest(s: State): R.RobEntry
    requires s.Rob() != []
  { s.Rob()[0] }

  function Latest(s: State): R.RobEntry
    requires s.Rob() != []
  { s.Rob()[|s.Rob()| - 1] }

  // What each transition does to one load's entry: the address arrives from its address
  // calculation, it is sent and answered, it commits with its instruction or is squashed with it,
  // and loses its dependence when the store it names leaves.
  ghost predicate LoadStep(cfg: Config, s: State, e: Event, s': State) {
    var ldq, stq := s.lsq.ldq, s.lsq.stq;
    var q, q' := ldq.elems, s'.lsq.ldq.elems;
    s'.lsq.ldq.size == ldq.size && (e.EvPopLoad? || s'.lsq.ldq.head == ldq.head) &&
    match e
    case EvDispatch(d) =>
      if d.fu == LDU then |q'| == |q| + 1 && q'[..|q|] == q && FreshLoad(q'[|q|], s.nextId, d, stq) else q' == q
    case EvAgu(id) =>
      if id in s.ops && s.ops[id].d.fu == LDU && 0 <= ldq.Dist(s.ops[id].lsqTag) < |q| then
        var k, op := ldq.Dist(s.ops[id].lsqTag), s.ops[id];
        q' == q[k := q[k].(addressReady := true, address := cfg.addr(op.d, op.ValA()))]
      else q' == q
    case EvIssueLoad => exists k: nat :: SentLoad(q, k) && q' == q[k := q[k].(state := L.LoadInflight)]
    case EvLoadResp(slot) =>
      0 <= ldq.Dist(slot) < |q| && q' == q[ldq.Dist(slot) := q[ldq.Dist(slot)].(state := L.LoadExecuted)]
    case EvCommitOne =>
      && s.Rob() != []
      && var x := Oldest(s);
         if x.fault.None? && x.d.fu == LDU && 0 <= ldq.Dist(x.lsqTag) < |q| then
           q' == q[ldq.Dist(x.lsqTag) := q[ldq.Dist(x.lsqTag)].(commited := true)]
         else q' == q
    case EvUndoOne =>
      && s.Rob() != []
      && var x := Latest(s);
         if x.d.fu == LDU && 0 <= ldq.Dist(x.lsqTag) < |q| then
           q' == q[ldq.Dist(x.lsqTag) := q[ldq.Dist(x.lsqTag)].(killed := true)]
         else q' == q
    case EvFinishUndo =>
      && s.Rob() != []
      && var x := Latest(s);
         if x.fault.Some? && x.d.fu == LDU && 0 <= ldq.Dist(x.lsqTag) < |q| then
           q' == q[ldq.Dist(x.lsqTag) := q[ldq.Dist(x.lsqTag)].(killed := true)]
         else q' == q
    case EvPopStore => |q'| == |q| && forall j :: 0 <= j < |q| ==> q'[j] == Lowered(q[j], stq, 1)
    case EvPopLoad =>
      q != [] && (q[0].commited || (q[0].killed && q[0].state != L.LoadInflight)) && q' == q[1..]
    case _ => q' == q
  }

  // ---- the store queue --------------------------------------------------------------------------

  // The same for a store, with the data, and with memory: only a store sent changes it, by its
  // own address and data.
  ghost predicate StoreStep(cfg: Config, s: State, e: Event, s': State) {
    var stq := s.lsq.stq;
    var q, q' := stq.elems, s'.lsq.stq.elems;
    s'.lsq.stq.size == stq.size && (e.EvPopStore? || s'.lsq.stq.head == stq.head) && (e.EvIssueStore? || s'.mem == s.mem) &&
    match e
    case EvDispatch(d) =>
      if d.fu == STU then
        && |q'| == |q| + 1 && q'[..|q|] == q && q'[|q|].id == s.nextId && q'[|q|].d == d
        && q'[|q|].state == L.StoreWaitSend && !q'[|q|].commited && !q'[|q|].addressReady
      else q' == q
    case EvAgu(id) =>
      if id in s.ops && s.ops[id].d.fu == STU && 0 <= stq.Dist(s.ops[id].lsqTag) < |q| then
        var k, op := stq.Dist(s.ops[id].lsqTag), s.ops[id];
        q' == q[k := q[k].(addressReady := true, address := cfg.addr(op.d, op.ValA()), data := op.ValB())]
      else q' == q
    case EvIssueStore =>
      exists k: nat :: SentStore(q, k) && q' == q[k := q[k].(state := L.StoreInflight)]
        && s'.mem == cfg.store(s.mem, q[k].d, q[k].address, q[k].data)
    case EvStoreResp(slot) =>
      0 <= stq.Dist(slot) < |q| && q' == q[stq.Dist(slot) := q[stq.Dist(slot)].(state := L.StoreExecuted)]
    case EvCommitOne =>
      && s.Rob() != []
      && var x := Oldest(s);
         if x.fault.None? && x.d.fu == STU && 0 <= stq.Dist(x.lsqTag) < |q| then
           q' == q[stq.Dist(x.lsqTag) := q[stq.Dist(x.lsqTag)].(commited := true)]
         else q' == q
    case EvUndoOne => s.Rob() != [] && if Latest(s).d.fu == STU then q != [] && q' == q[..|q| - 1] else q' == q
    case EvFinishUndo =>
      s.Rob() != [] && if Latest(s).fault.Some? && Latest(s).d.fu == STU then q != [] && q' == q[..|q| - 1] else q' == q
    case EvPopStore => q != [] && q[0].state == L.StoreExecuted && q' == q[1..]
    case _ => q' == q
  }

  ghost predicate QueuesStep(cfg: Config, s: State, e: Event)
    requires Enabled(cfg, s, e)
  {
    LoadStep(cfg, s, e, Step(cfg, s, e)) && StoreStep(cfg, s, e, Step(cfg, s, e))
  }

  lemma QueueDispatch(cfg: Config, s: State, e: Event)
    requires InvShape(cfg, s) && Enabled(cfg, s, e) && e.EvDispatch?
    ensures QueuesStep(cfg, s, e)
  {
    hide R.AllBelow, R.EntriesInRange, MapsOk, ArchsOk, R.TagsInRange, SeqStep, R.AllocateOne;
    if s.lsq.stq.elems != [] {
      SlotPos(s.lsq.stq, 0);
    }
  }

  lemma QueueAgu(cfg: Config, s: State, e: Event)
    requires InvShape(cfg, s) && Enabled(cfg, s, e) && e.EvAgu?
    ensures QueuesStep(cfg, s, e)
  {
    hide R.AllBelow, R.EntriesInRange, MapsOk, ArchsOk, R.TagsInRange, R.AguDetect;
  }

  lemma QueueCommit(cfg: Config, s: State, e: Event)
    requires InvShape(cfg, s) && Enabled(cfg, s, e) && e.EvCommitOne?
    ensures QueuesStep(cfg, s, e)
  {
    hide R.AllBelow, R.EntriesInRange, MapsOk, ArchsOk, R.RetireRegs, R.TrapAtCommit;
  }

  lemma QueueUndo(cfg: Config, s: State, e: Event)
    requires InvShape(cfg, s) && Enabled(cfg, s, e) && e.EvUndoOne?
    ensures QueuesStep(cfg, s, e)
  {
    hide R.AllBelow, R.EntriesInRange, MapsOk, ArchsOk;
  }

  lemma QueueFinish(cfg: Config, s: State, e: Event)
    requires InvShape(cfg, s) && Enabled(cfg, s, e) && e.EvFinishUndo?
    ensures QueuesStep(cfg, s, e)
  {
    hide R.AllBelow, R.EntriesInRange, MapsOk, ArchsOk;
  }

  lemma QueueSend(cfg: Config, s: State, e: Event)
    requires InvShape(cfg, s) && Enabled(cfg, s, e) && (e.EvIssueLoad? || e.EvIssueStore?)
    ensures QueuesStep(cfg, s, e)
  {
    hide R.AllBelow, R.EntriesInRange, MapsOk, ArchsOk, R.TagsInRange, L.LoadToIssue, L.StoreToIssue;
    if e.EvIssueLoad? {
      var k := L.LoadToIssue(s.lsq).value;
      SlotPos(s.lsq.ldq, k);
      LoadGoes(s.lsq, k);
      assert SentLoad(s.lsq.ldq.elems, k);
    } else {
      var k := L.StoreToIssue(s.lsq).value;
      SlotPos(s.lsq.stq, k);
      StoreGoes(s.lsq, k);
      assert SentStore(s.lsq.stq.elems, k);
    }
  }

  lemma QueueRest(cfg: Config, s: State, e: Event)
    requires InvShape(cfg, s) && Enabled(cfg, s, e) && !e.EvDispatch? && !e.EvAgu? && !e.EvCommitOne?
    requires !e.EvUndoOne? && !e.EvFinishUndo? && !e.EvIssueLoad? && !e.EvIssueStore?
    ensures QueuesStep(cfg, s, e)
  {
    hide R.AllBelow, R.EntriesInRange, MapsOk, ArchsOk, R.TagsInRange, SingleRelease, R.WriteBack, R.PackageFrom, R.Forward;
  }

  // Every transition, both queues.
  lemma QueueEffects(cfg: Config, s: State, e: Event)
    requires InvShape(cfg, s) && Enabled(cfg, s, e)
    ensures LoadStep(cfg, s, e, Step(cfg, s, e)) && StoreStep(cfg, s, e, Step(cfg, s, e))
  {
    hide InvShape, LoadStep, StoreStep, Step, Enabled;
    match e
    case EvDispatch(_) => QueueDispatch(cfg, s, e);
    case EvAgu(_) => QueueAgu(cfg, s, e);
    case EvCommitOne => QueueCommit(cfg, s, e);
    case EvUndoOne => QueueUndo(cfg, s, e);
    case EvFinishUndo => QueueFinish(cfg, s, e);
    case EvIssueLoad => QueueSend(cfg, s, e);
    case EvIssueStore => QueueSend(cfg, s, e);
    case _ => QueueRest(cfg, s, e);
  }

  // ---- operations in flight ---------------------------------------------------------------------

  // The operand of a waiting operation after a result has been forwarded to register p.
  function Woken(x: Option<Val>, t: RegType, phy: nat, p: nat, v: Val): Option<Val> {
    if t == INT && phy == p && p != 0 then Some(v) else x
  }

  // What each transition does to one operation: an operand is read or forwarded, the result is
  // computed or answered and forwarded, and it leaves when it is written back, with its address
  // if it is a store, or when a rollback entry commits.
  ghost predicate OpStep(cfg: Config, s: State, e: Event, s': State, i: nat)
    requires i in s.ops
  {
    var op := s.ops[i];
    match e
    case EvRead(id, second) =>
      && i in s'.ops
      && if id != i then s'.ops[i] == op
         else if second then op.phyRs2 < |s.rcu.regs| && s'.ops[i] == op.(b := Some(s.rcu.regs[op.phyRs2]))
         else op.phyRs1 < |s.rcu.regs| && s'.ops[i] == op.(a := Some(s.rcu.regs[op.phyRs1]))
    case EvExecute(id) =>
      && i in s'.ops
      && if id != i then s'.ops[i] == op
         else
           && (op.d.rs1Type == INT ==> op.a.Some?) && (op.d.rs2Type == INT ==> op.b.Some?)
           && s'.ops[i] == op.(stage := Completed(cfg.compute(op.d, if op.d.rs1Type == INT then op.a.value else 0,
                                                              if op.d.rs2Type == INT then op.b.value else 0), None))
    case EvAgu(id) =>
      if id != i then i in s'.ops && s'.ops[i] == op
      else
        && (op.d.rs1Type == INT ==> op.a.Some?) && (op.d.rs2Type == INT ==> op.b.Some?)
        && if op.d.fu == LDU then i in s'.ops && s'.ops[i] == op.(stage := InLsq) else i !in s'.ops
    case EvForward(id, wake) =>
      && i in s'.ops && id in s.ops && s.ops[id].stage.Completed?
      && var w := s.ops[id];
         if id == i then s'.ops[i] == op.(stage := Forwarded(op.stage.result, op.stage.fault))
         else if i in wake && op.stage == Waiting && w.d.rdType == INT && w.d.isaRd != 0 then
           s'.ops[i] == op.(a := Woken(op.a, op.d.rs1Type, op.phyRs1, w.phyRd, w.stage.result),
                            b := Woken(op.b, op.d.rs2Type, op.phyRs2, w.phyRd, w.stage.result))
         else s'.ops[i] == op
    case EvWriteBack(id) => if id == i then i !in s'.ops else i in s'.ops && s'.ops[i] == op
    case EvLoadResp(slot) =>
      && slot in s.lresp && 0 <= s.lsq.ldq.Dist(slot) < |s.lsq.ldq.elems| && i in s'.ops
      && var x := s.lsq.ldq.elems[s.lsq.ldq.Dist(slot)];
         s'.ops[i] == if !x.killed && x.id == i then op.(stage := Completed(s.lresp[slot].value, s.lresp[slot].fault)) else op
    case EvCommitOne =>
      && s.Rob() != []
      && if s.Rob()[0].valid && s.rcu.mode == R.WaitForResume && s.rcu.rob.head == s.rcu.tag then i !in s'.ops
         else i in s'.ops && s'.ops[i] == op
    case EvDispatch(_) => i != s.nextId ==> i in s'.ops && s'.ops[i] == op
    case _ => i in s'.ops && s'.ops[i] == op
  }

  lemma OpEffects(cfg: Config, s: State, e: Event, i: nat)
    requires InvShape(cfg, s) && Enabled(cfg, s, e) && i in s.ops
    ensures OpStep(cfg, s, e, Step(cfg, s, e), i)
  {
    hide R.AllBelow, R.EntriesInRange, R.TagsInRange, MapsOk, ArchsOk, SingleRelease, SeqStep, L.Allocate, L.WriteBack,
      R.AllocateOne, R.WriteBack, R.Forward, R.AguDetect, R.CommitOne, R.UndoOne, R.FinishUndo, R.PackageFrom,
      L.SetLoadState, L.SetStoreState, L.LoadToIssue, L.StoreToIssue, L.PopStore, L.PopLoad, R.TrapAtCommit;
  }
}
