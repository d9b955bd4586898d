// What the recovery control of the reorder unit does in every reachable state, said of the
// fields of its entries and their distance from the header: which outcome starts a recovery,
// what stops dispatch, which package commit takes, and what one call of Evaulate leaves.
module ControlTheorems {
  import opened DynInsn
  import opened LoopQueue
  import L = LsqSpec
  import R = RcuSpec
  import opened Backend
  import opened BackendInv
  import opened Registers
  import opened ProofCommit
  import opened ProofUndo
  import opened BackendTheorems
  import opened RecoveryTheorems
  import opened CycleTheorems
  import P = DispatchPorts

  // ---- write-back -------------------------------------------------------------------------------

  // The control state after the outcome of the entry k away from the header, when the rollback
  // entry is t away: a misprediction also restarts the recovery of its own branch.
  lemma WriteBackControl(r: R.Rcu, spec: bool, o: R.Outcome)
    requires r.Valid() && o.robTag < r.rob.size && o.phyRd < |r.regs| && r.rob.Dist(o.robTag) < |r.rob.elems|
    ensures var r' := R.WriteBack(r, spec, o);
      var k, t := r.rob.Dist(o.robTag), r.rob.Dist(r.tag);
      match o.fault
      case Some(f) =>
        if r.mode == R.Idle || k < t then r'.mode == R.Undo && r'.tag == o.robTag && r'.excp == f
        else r'.mode == r.mode && r'.tag == r.tag && r'.excp == r.excp
      case None =>
        r'.excp == r.excp &&
        if o.d.fu == BRU && o.misPred && (r.mode == R.Idle || k <= t) then r'.mode == R.Undo && r'.tag == o.robTag
        else
          && r'.tag == r.tag
          && r'.mode == if o.d.fu == BRU && !o.misPred && !spec && r.mode == R.WaitForResume && k == t then R.Idle else r.mode
  {
    hide R.AllBelow, R.EntriesInRange;
    GuardIsLiveness(r.rob, o.robTag);
    OlderIsDistance(r.rob.size, r.rob.head, o.robTag, r.tag);
  }

  // Only the entry written back changes, and only in what the outcome tells.
  lemma WriteBackEntry(r: R.Rcu, spec: bool, o: R.Outcome)
    requires r.Valid() && o.robTag < r.rob.size && o.phyRd < |r.regs| && r.rob.Dist(o.robTag) < |r.rob.elems|
    ensures var r' := R.WriteBack(r, spec, o);
      var k, q := r.rob.Dist(o.robTag), r.rob.elems;
      && r'.rob.size == r.rob.size && r'.rob.head == r.rob.head && |r'.rob.elems| == |q|
      && (forall j :: 0 <= j < |q| && j != k ==> r'.rob.elems[j] == q[j])
      && r'.rob.elems[k] == q[k].(done := true, isStable := true,
                                  fault := if o.fault.Some? then o.fault else q[k].fault,
                                  isMisPred := q[k].isMisPred || (o.fault.None? && o.d.fu == BRU && o.misPred))
  {
    hide R.AllBelow, R.EntriesInRange;
    GuardIsLiveness(r.rob, o.robTag);
  }

  // Address generation, with the exception it never raises: outside a recovery one would be
  // recorded only ahead of the last rollback entry, and inside a recovery always.
  lemma AguRaiseControl(r: R.Rcu, d: Decoded, robTag: nat, fault: Option<Fault>)
    requires r.Valid() && robTag < r.rob.size && r.rob.Dist(robTag) < |r.rob.elems|
    ensures var r' := R.AguRaise(r, d, robTag, fault);
      var k, t, q := r.rob.Dist(robTag), r.rob.Dist(r.tag), r.rob.elems;
      && r'.rob.elems == q[k := q[k].(isStable := true, done := q[k].done || d.fu == STU || fault.Some?,
                                      fault := if fault.Some? then fault else q[k].fault)]
      && if fault.Some? && (r.mode != R.Idle || k < t) then
           r'.mode == R.Undo && r'.tag == robTag && Some(r'.excp) == fault
         else r'.mode == r.mode && r'.tag == r.tag && r'.excp == r.excp
  {
    hide R.AllBelow, R.EntriesInRange;
    OlderIsDistance(r.rob.size, r.rob.head, robTag, r.tag);
  }

  // In every run: which write-back of a live instruction starts, restarts or ends a recovery.
  lemma RecoveryStarts(cfg: Config, mem0: Mem, ss: seq<State>, es: seq<Event>, i: nat)
    requires Reachable(cfg, mem0, ss, es) && i < |es| && es[i].EvWriteBack?
    requires var s := ss[i];
      es[i].id in s.ops && s.ops[es[i].id].stage.Forwarded? && 0 <= s.rcu.rob.Dist(s.ops[es[i].id].robTag) < |s.Rob()|
    ensures var s, s', op := ss[i], ss[i + 1], ss[i].ops[es[i].id];
      var k, t := s.rcu.rob.Dist(op.robTag), s.rcu.rob.Dist(s.rcu.tag);
      var misses := op.d.fu == BRU && cfg.misPred(op.d, op.ValA(), op.ValB());
      && |s'.Rob()| == |s.Rob()| && s.Rob()[k].id == es[i].id && s'.Rob()[k].id == es[i].id && s'.Rob()[k].done
      && match op.stage.fault
         case Some(f) =>
           && s'.Rob()[k].fault == Some(f)
           && if s.rcu.mode == R.Idle || k < t then
                s'.rcu.mode == R.Undo && s'.rcu.rob.Dist(s'.rcu.tag) == k && s'.rcu.excp == f
              else s'.rcu.mode == s.rcu.mode && s'.rcu.tag == s.rcu.tag && s'.rcu.excp == s.rcu.excp
         case None =>
           && s'.Rob()[k].fault == s.Rob()[k].fault && (misses ==> s'.Rob()[k].isMisPred)
           && if misses && (s.rcu.mode == R.Idle || k <= t) then
                s'.rcu.mode == R.Undo && s'.rcu.rob.Dist(s'.rcu.tag) == k
              else
                && s'.rcu.tag == s.rcu.tag
                && s'.rcu.mode == if op.d.fu == BRU && !misses && !cfg.speculate && s.rcu.mode == R.WaitForResume && k == t
                                  then R.Idle else s.rcu.mode
  {
    hide R.AllBelow, R.EntriesInRange, R.TagsInRange, MapsOk, ArchsOk, AllValid, InvOrder, InvMaps, InvArch, InvCons,
      InvMode, InvPkg, InvRegs, InvVals, InvLdq, InvStq, InvMem, R.WriteBack, R.Raises, SingleRelease, OpsSquashed,
      BranchOk;
    RunInv(cfg, mem0, ss, es, i);
    var s, id := ss[i], es[i].id;
    var o := OutcomeOf(cfg, s.ops[id]);
    WriteBackControl(s.rcu, cfg.speculate, o);
    WriteBackEntry(s.rcu, cfg.speculate, o);
    assert Tied(s.Rob()[s.rcu.rob.Dist(o.robTag)], s.g.maps[s.rcu.rob.Dist(o.robTag)], id, s.ops[id]);
  }

  // ---- what stops dispatch ----------------------------------------------------------------------

  // A control-flow instruction, MRET apart, whose direction is not known yet.
  predicate Unresolved(e: R.RobEntry) {
    e.d.controlFlow && !(e.d.fu == CSR && e.d.subOp == CSR_MRET) && !e.done
  }

  predicate StopsOk(rob: Queue<R.RobEntry>, mode: R.RobState, tag: nat) {
    forall k :: 0 <= k < |rob.elems| ==>
      && (rob.elems[k].done ==> rob.elems[k].isStable)
      && (Unresolved(rob.elems[k]) ==> (mode == R.Undo || mode == R.WaitForResume) && rob.Dist(tag) <= k)
  }

  // The control state and the entry an instruction is allocated with. Dispatch goes on only
  // behind an instruction that is neither faulted nor control flow, and behind MRET.
  lemma DispatchControl(cfg: Config, s: State, d: Decoded)
    requires CanDispatch(s, d)
    ensures var s' := Dispatch(cfg, s, d);
      var n := |s.Rob()|;
      var mret, fence := d.fu == CSR && d.subOp == CSR_MRET, d.fu == CSR && d.subOp == CSR_FENCE;
      && |s'.Rob()| == n + 1 && s'.Rob()[..n] == s.Rob() && s'.rcu.rob.head == s.rcu.rob.head
      && s'.rcu.rob.size == s.rcu.rob.size
      && s'.Rob()[n].d == d && s'.Rob()[n].fault == d.excp && s'.Rob()[n].valid && !s'.Rob()[n].isMisPred
      && s'.Rob()[n].done == s'.Rob()[n].isStable == ((d.fu == ALU && d.isaRd == 0) || d.excp.Some? || mret || fence)
      && (if d.excp.Some? then
            s'.rcu.mode == R.Undo && s'.rcu.rob.Dist(s'.rcu.tag) == n && s'.rcu.excp == d.excp.value
          else
            && s'.rcu.excp == s.rcu.excp
            && if d.controlFlow && !mret then s'.rcu.mode == R.Undo && s'.rcu.rob.Dist(s'.rcu.tag) == n
               else s'.rcu.mode == R.Idle && (!d.controlFlow ==> s'.rcu.tag == s.rcu.tag))
  {
    hide R.AllBelow, R.EntriesInRange, R.TagsInRange, L.Allocate, SeqStep;
    SlotPos(s.rcu.rob, |s.Rob()|);
  }

  // An operation starts for exactly the instructions that enter a scheduler.
  lemma OperationIffScheduled(cfg: Config, s: State, d: Decoded)
    requires CanDispatch(s, d)
    ensures var s' := Dispatch(cfg, s, d);
      && s'.ops.Keys == (if P.Bypasses(d) then s.ops.Keys else s.ops.Keys + {s.nextId})
      && (forall id :: id in s.ops && id != s.nextId ==> id in s'.ops && s'.ops[id] == s.ops[id])
      && (!P.Bypasses(d) ==>
            var op := s'.ops[s.nextId];
            && op.d == d && op.stage == Waiting && op.a == None && op.b == None && op.robTag == s.rcu.rob.Tail()
            && op.phyRs1 == s.rcu.table[d.isaRs1] && op.phyRs2 == s.rcu.table[d.isaRs2])
  {
    hide R.AllBelow, R.EntriesInRange, R.TagsInRange, L.Allocate, SeqStep, R.AllocateOne;
  }

  lemma DispatchStops(cfg: Config, s: State, d: Decoded)
    requires CanDispatch(s, d) && StopsOk(s.rcu.rob, s.rcu.mode, s.rcu.tag)
    ensures var r' := Dispatch(cfg, s, d).rcu; StopsOk(r'.rob, r'.mode, r'.tag)
  {
    DispatchControl(cfg, s, d);
    hide Dispatch, CanDispatch;
    var r' := Dispatch(cfg, s, d).rcu;
    forall k | 0 <= k < |r'.rob.elems|
      ensures r'.rob.elems[k].done ==> r'.rob.elems[k].isStable
      ensures Unresolved(r'.rob.elems[k]) ==> r'.mode == R.Undo && r'.rob.Dist(r'.tag) <= k
    {
      assert k < |s.Rob()| ==> r'.rob.elems[k] == r'.rob.elems[..|s.Rob()|][k];
    }
  }

  lemma WriteBackStops(r: R.Rcu, spec: bool, o: R.Outcome)
    requires r.Valid() && o.robTag < r.rob.size && o.phyRd < |r.regs| && StopsOk(r.rob, r.mode, r.tag)
    requires r.mode == R.WaitForResume ==> r.rob.Dist(r.tag) == |r.rob.elems| - 1
    ensures var r' := R.WriteBack(r, spec, o); StopsOk(r'.rob, r'.mode, r'.tag)
  {
    hide R.AllBelow, R.EntriesInRange, R.Raises, R.MarkWritten;
    GuardIsLiveness(r.rob, o.robTag);
    if r.rob.Live(o.robTag) {
      hide R.WriteBack;
      WriteBackControl(r, spec, o);
      WriteBackEntry(r, spec, o);
    }
  }

  lemma AguStops(r: R.Rcu, d: Decoded, robTag: nat)
    requires r.Valid() && robTag < r.rob.size && StopsOk(r.rob, r.mode, r.tag)
    ensures var r' := R.AguDetect(r, d, robTag); StopsOk(r'.rob, r'.mode, r'.tag)
  {
  }

  lemma CommitStops(cfg: Config, s: State)
    requires InvShape(cfg, s) && InvMode(s) && InvPkg(s) && CanCommitOne(s) && StopsOk(s.rcu.rob, s.rcu.mode, s.rcu.tag)
    ensures var r' := CommitOne(s).rcu; StopsOk(r'.rob, r'.mode, r'.tag)
  {
    hide R.AllBelow, R.EntriesInRange, R.TagsInRange, MapsOk, ArchsOk, AllValid, TagOk, FaultsBehind, EntriesOk,
      CauseOk, ReleasedOk, ReleasedSafe, PkgOk, R.CommitOne;
    CommitEffect(s.Core());
    HeaderKinds(s.rcu.rob, s.rcu.mode, s.rcu.tag, s.pkg, s.g.released);
    HeadValid(s.Rob());
    PopStops(s.rcu.rob, s.rcu.mode, s.rcu.tag);
  }

  lemma PopStops(rob: Queue<R.RobEntry>, mode: R.RobState, tag: nat)
    requires rob.Valid() && rob.elems != [] && tag < rob.size && StopsOk(rob, mode, tag)
    requires Recovering(mode) && |rob.elems| > 1 ==> rob.Dist(tag) >= 1
    ensures StopsOk(rob.Pop(), mode, tag)
  {
    PopShifts(rob, tag);
  }

  lemma StepStops(cfg: Config, s: State, e: Event)
    requires InvShape(cfg, s) && InvMode(s) && InvPkg(s) && Enabled(cfg, s, e) && StopsOk(s.rcu.rob, s.rcu.mode, s.rcu.tag)
    ensures var r' := Step(cfg, s, e).rcu; StopsOk(r'.rob, r'.mode, r'.tag)
  {
    hide StopsOk, R.AllBelow, R.EntriesInRange, R.TagsInRange, MapsOk, ArchsOk, AllValid, FaultsBehind, EntriesOk,
      CauseOk, ReleasedOk, ReleasedSafe, PkgOk, CanDispatch, Dispatch, CanCommitOne, CommitOne, R.WriteBack, R.AguDetect,
      SingleRelease, SeqStep, R.Release, R.Rcu.Valid;
    match e
    case EvDispatch(d) => DispatchStops(cfg, s, d);
    case EvWriteBack(id) => WriteBackStops(s.rcu, cfg.speculate, OutcomeOf(cfg, s.ops[id]));
    case EvAgu(id) => AguStops(s.rcu, s.ops[id].d, s.ops[id].robTag);
    case EvCommitOne => CommitStops(cfg, s);
    case EvUndoOne => UndoStops(s);
    case EvFinishUndo => FinishStops(s);
    case EvLeaveFlush => EmptyStops(s.rcu.rob, R.Idle, s.rcu.tag);
    case _ =>
  }

  lemma UndoStops(s: State)
    requires CanUndoOne(s) && StopsOk(s.rcu.rob, s.rcu.mode, s.rcu.tag)
    ensures var r' := UndoOne(s).rcu; StopsOk(r'.rob, r'.mode, r'.tag)
  {
    UndoEffect(s);
    hide CanUndoOne, UndoOne;
  }

  lemma FinishStops(s: State)
    requires CanFinishUndo(s) && StopsOk(s.rcu.rob, s.rcu.mode, s.rcu.tag)
    ensures var r' := FinishUndo(s).rcu; StopsOk(r'.rob, r'.mode, r'.tag)
  {
    FinishEffect(s);
    hide FinishUndo;
  }

  lemma EmptyStops(rob: Queue<R.RobEntry>, mode: R.RobState, tag: nat)
    requires rob.elems == []
    ensures StopsOk(rob, mode, tag)
  {
  }

  lemma {:induction false} RunStops(cfg: Config, mem0: Mem, ss: seq<State>, es: seq<Event>, i: nat)
    requires Reachable(cfg, mem0, ss, es) && i < |ss|
    ensures StopsOk(ss[i].rcu.rob, ss[i].rcu.mode, ss[i].rcu.tag)
    decreases i
  {
    hide InvOrder, InvMaps, InvArch, InvCons, InvMode, InvPkg, InvOps, InvRegs, InvVals, InvLdq, InvStq, InvMem,
      InvShape, Step, Enabled, StopsOk;
    if i == 0 {
      EmptyStops(ss[0].rcu.rob, ss[0].rcu.mode, ss[0].rcu.tag);
    } else {
      RunInv(cfg, mem0, ss, es, i - 1);
      RunStops(cfg, mem0, ss, es, i - 1);
      StepStops(cfg, ss[i - 1], es[i - 1]);
    }
  }

  // In every reachable state an unresolved control-flow instruction keeps dispatch stopped, by
  // a recovery at it or at an older one.
  lemma UnresolvedStopsDispatch(cfg: Config, mem0: Mem, ss: seq<State>, es: seq<Event>, i: nat, k: nat, d: Decoded)
    requires Reachable(cfg, mem0, ss, es) && i < |ss| && k < |ss[i].Rob()|
    requires var e := ss[i].Rob()[k]; e.d.controlFlow && !(e.d.fu == CSR && e.d.subOp == CSR_MRET) && !e.done
    ensures var r := ss[i].rcu; (r.mode == R.Undo || r.mode == R.WaitForResume) && r.rob.Dist(r.tag) <= k
    ensures !CanDispatch(ss[i], d)
  {
    RunStops(cfg, mem0, ss, es, i);
  }

  // The rollback entry is the oldest reason to stop: a known fault or misprediction, or an
  // instruction that changes the flow of control. Outside a recovery there is none.
  lemma RollbackEntryIsOldestCause(cfg: Config, mem0: Mem, ss: seq<State>, es: seq<Event>, i: nat)
    requires Reachable(cfg, mem0, ss, es) && i < |ss|
    ensures var r, q := ss[i].rcu, ss[i].Rob();
      var stopped := r.mode == R.Undo || r.mode == R.WaitForResume;
      var t := if stopped then r.rob.Dist(r.tag) else |q|;
      && (stopped ==> 0 <= t < |q| && (q[t].fault.Some? || q[t].isMisPred || q[t].d.controlFlow))
      && (stopped && q[t].fault.Some? ==> q[t].fault == Some(r.excp))
      && forall k :: 0 <= k < t && k < |q| ==> q[k].fault.None? && !q[k].isMisPred && !Unresolved(q[k])
  {
    hide R.AllBelow, R.EntriesInRange, R.TagsInRange, MapsOk, ArchsOk, AllValid, InvOrder, InvMaps, InvArch, InvCons,
      EntriesOk, ReleasedOk, ReleasedSafe, InvPkg, InvOps, InvRegs, InvVals, InvLdq, InvStq, InvMem, Unresolved;
    RunInv(cfg, mem0, ss, es, i);
    RunStops(cfg, mem0, ss, es, i);
  }

  // ---- the package for commit -------------------------------------------------------------------

  // Nothing ahead of a younger entry may still fault, mispredict or wait for its address.
  predicate Steady(e: R.RobEntry) { e.isStable || !(e.d.fu == LDU || e.d.fu == STU || e.d.fu == BRU) }

  predicate SteadyFrom(q: seq<R.RobEntry>, i: nat, k: nat) {
    forall j :: i <= j < k && j < |q| ==> Steady(q[j])
  }

  predicate LeadingDone(q: seq<R.RobEntry>, n: nat) {
    forall k :: 0 <= k < n && k < |q| ==> q[k].done || !q[k].valid
  }

  lemma {:induction false} ScanIs(r: R.Rcu, width: nat, k: nat, i: nat)
    requires r.Valid() && i <= k < |r.rob.elems|
    ensures R.ScanReady(r, r.rob.Slot(k), width, i) <==> k < width && SteadyFrom(r.rob.elems, i, k)
    decreases k - i
  {
    hide R.AllBelow, R.EntriesInRange;
    SlotPos(r.rob, k);
    SlotPos(r.rob, i);
    if i < k {
      ScanIs(r, width, k, i + 1);
    }
  }

  // What lets the entry k away from the header join the package.
  predicate Leaves(r: R.Rcu, width: nat, k: nat)
    requires k < |r.rob.elems|
  {
    && (r.rob.elems[k].done || !r.rob.elems[k].valid)
    && if r.mode == R.Idle || k < r.rob.Dist(r.tag) then k < width && SteadyFrom(r.rob.elems, 0, k)
       else r.mode == R.WaitForResume && k == r.rob.Dist(r.tag)
  }

  // The package, in every state: as many entries from the header on as the width allows, up to
  // the first that may not leave.
  lemma {:induction false} PackageIs(r: R.Rcu, width: nat, i: nat)
    requires r.Valid() && i <= |r.rob.elems|
    ensures var n := i + R.PackageFrom(r, width, i);
      && i <= n <= |r.rob.elems| && (i <= width ==> n <= width)
      && (forall k :: i <= k < n ==> Leaves(r, width, k))
      && (n < width && n < |r.rob.elems| ==> !Leaves(r, width, n))
    decreases |r.rob.elems| - i
  {
    hide R.AllBelow, R.EntriesInRange, R.ScanReady, SteadyFrom;
    if i < |r.rob.elems| {
      SlotPos(r.rob, i);
      ScanIs(r, width, i, 0);
      OlderIsDistance(r.rob.size, r.rob.head, r.rob.Slot(i), r.tag);
      assert R.ReadyForCommit(r, r.rob.Slot(i), width) && (r.rob.elems[i].done || !r.rob.elems[i].valid)
             <==> Leaves(r, width, i);
      hide Leaves, R.ReadyForCommit;
      PackageIs(r, width, i + 1);
    }
  }

  // Where the package has to end, the width apart: at the rollback entry during a rollback,
  // behind it once dispatch waits for it.
  function Limit(r: R.Rcu): int {
    if r.mode == R.Undo then r.rob.Dist(r.tag)
    else if r.mode == R.WaitForResume then r.rob.Dist(r.tag) + 1 else |r.rob.elems|
  }

  // In every reachable state the package is the longest run of finished entries from the header
  // on that the width and the recovery allow. So a rollback entry leaves alone, when it is the
  // header of a machine waiting for it, and never before.
  lemma PackageIsLongestDonePrefix(cfg: Config, mem0: Mem, ss: seq<State>, es: seq<Event>, i: nat)
    requires Reachable(cfg, mem0, ss, es) && i < |es| && es[i].EvSendCommit?
    ensures var r, q, n := ss[i].rcu, ss[i].Rob(), ss[i + 1].pkg;
      && n <= es[i].width && n <= Limit(r) <= |q| && LeadingDone(q, n)
      && (forall m :: 0 <= m <= es[i].width && m <= Limit(r) && LeadingDone(q, m) ==> m <= n)
      && (r.mode == R.Undo ==> n <= r.rob.Dist(r.tag))
      && (r.mode == R.WaitForResume && r.rob.head == r.tag && q[0].done && es[i].width > 0 ==> |q| == n == 1)
  {
    hide R.AllBelow, R.EntriesInRange, R.TagsInRange, MapsOk, ArchsOk, AllValid, InvOrder, InvMaps, InvArch, InvCons,
      FaultsBehind, CauseOk, EntriesOk, ReleasedOk, ReleasedSafe, InvPkg, InvOps, InvRegs, InvVals, InvLdq, InvStq,
      InvMem, R.PackageFrom, StopsOk;
    RunInv(cfg, mem0, ss, es, i);
    RunStops(cfg, mem0, ss, es, i);
    PackageIs(ss[i].rcu, es[i].width, 0);
    LongestDone(ss[i].rcu, es[i].width, ss[i + 1].pkg);
  }

  lemma LongestDone(r: R.Rcu, width: nat, n: nat)
    requires r.rob.Valid() && r.tag < r.rob.size && TagOk(r.rob, r.mode, r.tag) && StopsOk(r.rob, r.mode, r.tag)
      && AllValid(r.rob.elems)
    requires n <= |r.rob.elems| && n <= width && forall k :: 0 <= k < n ==> Leaves(r, width, k)
    requires n < width && n < |r.rob.elems| ==> !Leaves(r, width, n)
    ensures n <= Limit(r) <= |r.rob.elems| && LeadingDone(r.rob.elems, n)
    ensures forall m :: 0 <= m <= width && m <= Limit(r) && LeadingDone(r.rob.elems, m) ==> m <= n
    ensures r.mode == R.WaitForResume && r.rob.head == r.tag ==> |r.rob.elems| == 1
  {
    if n > 0 {
      assert Leaves(r, width, n - 1);
    }
    assert forall k :: 0 <= k < n ==> Leaves(r, width, k) ==> r.rob.elems[k].done;
    assert SteadyFrom(r.rob.elems, 0, n);
  }

  // Retirement: the machine leaves its recovery, for a flush of the backend, exactly when the
  // header is the rollback entry it waits for, and a trap is taken exactly if that entry faulted.
  lemma RetirementControl(cfg: Config, s: State)
    requires InvShape(cfg, s) && CanCommitOne(s)
    ensures var s' := CommitOne(s);
      var e := s.Rob()[0];
      var resumes := s.rcu.mode == R.WaitForResume && s.rcu.rob.head == s.rcu.tag;
      && s'.rcu.mode == (if resumes then R.FlushBackend else s.rcu.mode)
      && s'.rcu.tag == s.rcu.tag && s'.rcu.excp == s.rcu.excp && s'.pkg == s.pkg - 1
      && s'.traps == (if resumes && e.fault.Some? then s.traps + [R.Trap(e.d.pc, s.rcu.excp)] else s.traps)
      && s'.g.committed == (if e.fault.None? then s.g.committed + [e.d] else s.g.committed)
  {
    hide R.AllBelow, R.EntriesInRange, R.TagsInRange, MapsOk, ArchsOk, L.CommitLoad, L.CommitStore;
  }

  // ---- one call of Evaulate ---------------------------------------------------------------------

  // The removals of one call are a run of the machine: up to `w` transitions that remove an
  // entry, and the one that ends the rollback if the rollback entry is reached.
  lemma {:induction false} RollBackIsARun(cfg: Config, mem0: Mem, s: State, w: nat, i: nat)
      returns (ss: seq<State>, es: seq<Event>)
    requires Inv(cfg, mem0, s) && s.rcu.mode == R.Undo && i <= w
    ensures |ss| == |es| + 1 && IsRun(cfg, ss, es) && ss[0] == s
    ensures s.Core().Valid() && ss[|es|].Core() == R.RollBack(s.Core(), w, i)
    ensures forall j :: 0 <= j < |es| ==> es[j] == if j < Younger(s.rcu) then EvUndoOne else EvFinishUndo
    ensures |es| == if Younger(s.rcu) <= w - i then Younger(s.rcu) + 1 else w - i
    decreases w - i
  {
    hide Inv, InvShape, InvMode, R.Core.Valid, Younger, FinishUndo, UndoOne, CanUndoOne, CanFinishUndo, R.CanUndoOne,
      R.UndoOne, R.FinishUndo, R.CanFinishUndo, IsRun, Step, Enabled, TagId;
    RollBackTurn(cfg, mem0, s);
    ss, es := [s], [];
    RunNil(cfg, s);
    if CanFinishUndo(s) {
      RunNil(cfg, FinishUndo(s));
      RunCons(cfg, s, EvFinishUndo, [FinishUndo(s)], []);
      ss, es := [s] + [FinishUndo(s)], [EvFinishUndo] + [];
    } else if i < w {
      var ss1, es1 := RollBackIsARun(cfg, mem0, UndoOne(s), w, i + 1);
      RunCons(cfg, s, EvUndoOne, ss1, es1);
      ss, es := [s] + ss1, [EvUndoOne] + es1;
    }
  }

  // One turn of the loop as a transition.
  lemma RollBackTurn(cfg: Config, mem0: Mem, s: State)
    requires Inv(cfg, mem0, s) && s.rcu.mode == R.Undo
    ensures s.Core().Valid() && Younger(s.rcu) >= 0
    ensures CanFinishUndo(s) <==> Younger(s.rcu) == 0
    ensures CanFinishUndo(s) ==>
      && R.CanFinishUndo(s.Core()) && FinishUndo(s).Core() == R.FinishUndo(s.Core())
      && Enabled(cfg, s, EvFinishUndo) && Step(cfg, s, EvFinishUndo) == FinishUndo(s)
    ensures !CanFinishUndo(s) ==>
      && CanUndoOne(s) && !R.CanFinishUndo(s.Core()) && R.CanUndoOne(s.Core())
      && UndoOne(s).Core() == R.UndoOne(s.Core()) && UndoOne(s).rcu.mode == R.Undo
      && Inv(cfg, mem0, UndoOne(s)) && Younger(UndoOne(s).rcu) == Younger(s.rcu) - 1
      && Enabled(cfg, s, EvUndoOne) && Step(cfg, s, EvUndoOne) == UndoOne(s)
  {
    hide InvOrder, InvMaps, InvArch, InvCons, InvPkg, InvOps, InvRegs, InvVals, InvLdq, InvStq, InvMem, MapsOk,
      ArchsOk, AllValid, R.AllBelow, R.EntriesInRange, R.TagsInRange, FaultsBehind, EntriesOk, CauseOk, ReleasedOk,
      ReleasedSafe, UndoOne, FinishUndo, R.CanUndoOne, R.UndoOne, R.FinishUndo;
    UndoOrFinish(cfg, s);
    if CanFinishUndo(s) {
      FinishEffect(s);
    } else {
      UndoInv(cfg, mem0, s);
      UndoEffect(s);
    }
  }

  lemma RunNil(cfg: Config, s: State)
    ensures IsRun(cfg, [s], [])
  {
  }

  lemma RunCons(cfg: Config, s: State, e: Event, ss: seq<State>, es: seq<Event>)
    requires |ss| == |es| + 1 && IsRun(cfg, ss, es) && Enabled(cfg, s, e) && ss[0] == Step(cfg, s, e)
    ensures IsRun(cfg, [s] + ss, [e] + es)
  {
    hide Step, Enabled;
  }

  // A call of Evaulate: a rollback goes on, a flush of the backend ends at once, and nothing
  // happens otherwise.
  lemma EvaluateCall(cfg: Config, mem0: Mem, s: State, w: nat) returns (ss: seq<State>, es: seq<Event>)
    requires Inv(cfg, mem0, s)
    ensures |ss| == |es| + 1 && IsRun(cfg, ss, es) && ss[0] == s
    ensures s.Core().Valid() && ss[|es|].Core() == R.Evaluate(s.Core(), w)
    ensures match s.rcu.mode
      case Undo =>
        && 0 <= Younger(s.rcu) && |es| == (if Younger(s.rcu) <= w then Younger(s.rcu) + 1 else w)
        && (forall j :: 0 <= j < |es| ==> es[j] == if j < Younger(s.rcu) then EvUndoOne else EvFinishUndo)
        && ss[|es|].rcu.mode == if Younger(s.rcu) <= w then R.WaitForResume else R.Undo
      case FlushBackend => es == [EvLeaveFlush] && ss[1] == s.(rcu := s.rcu.(mode := R.Idle))
      case _ => es == []
  {
    hide InvOrder, InvMaps, InvArch, InvCons, InvMode, InvPkg, InvOps, InvRegs, InvVals, InvLdq, InvStq, InvMem, MapsOk,
      ArchsOk, AllValid, R.AllBelow, R.EntriesInRange, R.TagsInRange, IsRun, R.RollBack;
    ss, es := [s], [];
    RunNil(cfg, s);
    match s.rcu.mode
    case Undo =>
      ss, es := RollBackIsARun(cfg, mem0, s, w, 0);
      var t := RollBackCall(cfg, mem0, s, w, 0);
    case FlushBackend =>
      RunNil(cfg, LeaveFlush(s));
      RunCons(cfg, s, EvLeaveFlush, [LeaveFlush(s)], []);
      ss, es := [s] + [LeaveFlush(s)], [EvLeaveFlush] + [];
    case _ =>
  }
}
