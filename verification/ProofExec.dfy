// Operand reads, execution, forwarding and write-back keep the invariant.
module ProofExec {
  import opened DynInsn
  import opened LoopQueue
  import L = LsqSpec
  import R = RcuSpec
  import opened Backend
  import opened BackendInv
  import opened Registers

  // ---- renaming is sequential dataflow ----------------------------------------------------------

  // The register an instruction at position k reads for ISA register r, once written,
  // holds the value the sequential machine has in r just before that instruction.
  lemma {:induction false} MapValue(cfg: Config, rob: seq<R.RobEntry>, held: nat, maps: seq<seq<nat>>, archs: seq<Arch>,
                                    busy: seq<R.Busy>, regs: seq<Val>, k: nat, r: nat)
    requires |maps| == |archs| == |rob| + 1 && k <= held <= |rob| && r < ISA_REGS
    requires MapsOk(maps, cfg.regCount) && ArchsOk(archs) && MapsChain(rob, maps) && ArchChain(cfg, rob, archs)
    requires ArchHeld(maps[0], archs[0].x, busy, regs) && ResultsHeld(rob[..held], archs, busy, regs)
    requires Done(busy, maps[k][r])
    ensures Reg(regs, maps[k][r]) == archs[k].x[r]
    decreases k
  {
    if k > 0 {
      var e := rob[k - 1];
      assert MapStep(maps[k - 1], maps[k], e) && archs[k] == SeqStep(cfg, archs[k - 1], e.d);
      if e.d.Writes() && e.d.isaRd == r {
        assert rob[..held][k - 1] == e;
      } else {
        MapValue(cfg, rob, held, maps, archs, busy, regs, k - 1, r);
      }
    }
  }

  // A free register appears in no table a live instruction was renamed with.
  lemma {:induction false} FreeNotMapped(regCount: nat, free: seq<nat>, rob: seq<R.RobEntry>, held: nat,
      maps: seq<seq<nat>>, k: nat, p: nat)
    requires regCount >= 2 && |maps| == |rob| + 1 && k <= held <= |rob| && p in free
    requires MapsChain(rob, maps) && Conserved(regCount, free, maps[0], rob[..held])
    ensures p !in maps[k]
    decreases k
  {
    FreeIsFresh(regCount, free, maps[0], rob[..held], p);
    if k > 0 {
      FreeNotMapped(regCount, free, rob, held, maps, k - 1, p);
      assert rob[..held][k - 1] == rob[k - 1];
      assert MapStep(maps[k - 1], maps[k], rob[k - 1]);
    }
  }

  // ---- changing one operation -------------------------------------------------------------------

  predicate SameOp(op: Op, op': Op) {
    op' == op.(a := op'.a, b := op'.b, stage := op'.stage)
  }

  predicate SameOps(ops: map<nat, Op>, ops': map<nat, Op>) {
    ops'.Keys <= ops.Keys && forall id :: id in ops' ==> id in ops && SameOp(ops[id], ops'[id])
  }

  lemma OpsFrame(cfg: Config, r: R.Rcu, maps: seq<seq<nat>>, robTag: map<nat, nat>, dead: set<nat>, ops: map<nat, Op>,
      ops': map<nat, Op>)
    requires |maps| == |r.rob.elems| + 1 && SameOps(ops, ops')
    requires OpsShape(cfg, ops, robTag) && OpsTied(r.rob, maps, ops)
    requires OpsSquashed(r.rob, r.mode, ops, dead, r.free) && BranchOk(r.rob, r.mode, r.tag, ops)
    ensures OpsShape(cfg, ops', robTag) && OpsTied(r.rob, maps, ops')
    ensures OpsSquashed(r.rob, r.mode, ops', dead, r.free) && BranchOk(r.rob, r.mode, r.tag, ops')
  {
  }

  lemma LsqOpsFrame(l: L.Lsq, ops: map<nat, Op>, ops': map<nat, Op>)
    requires SameOps(ops, ops') && LoadOps(l.ldq, ops) && StoreOps(l.stq, ops)
    ensures LoadOps(l.ldq, ops') && StoreOps(l.stq, ops')
  {
  }

  // An active load's operation is a live load.
  lemma ActiveIsLoad(cfg: Config, rob: Queue<R.RobEntry>, held: nat, maps: seq<seq<nat>>, robTag: map<nat, nat>,
                     ops: map<nat, Op>, ldq: Queue<L.LdqEntry>, j: nat)
    requires |maps| == |rob.elems| + 1 && held <= |rob.elems| && j < |ldq.elems| && Active(ldq.elems[j]) && ldq.elems[j].id in ops
    requires OpsShape(cfg, ops, robTag) && OpsTied(rob, maps, ops) && LoadsTied(rob, held, robTag, ldq)
    ensures LiveOp(rob, ops[ldq.elems[j].id]) && ops[ldq.elems[j].id].d == ldq.elems[j].d && ldq.elems[j].d.fu == LDU
    ensures ldq.Dist(ops[ldq.elems[j].id].lsqTag) == j
    ensures IdPos(rob, robTag, ldq.elems[j].id) == rob.Dist(ops[ldq.elems[j].id].robTag)
  {
  }

  // ---- operand read -----------------------------------------------------------------------------

  lemma ReadValue(cfg: Config, mem0: Mem, s: State, id: nat, second: bool)
    requires InvShape(cfg, s) && InvMaps(cfg, s) && InvArch(cfg, mem0, s) && InvOps(cfg, s) && InvRegs(cfg, s) && InvMode(s)
    requires CanRead(s, id, second) && LiveOp(s.rcu.rob, s.ops[id])
    ensures var op := s.ops[id];
      var a := s.g.archs[s.rcu.rob.Dist(op.robTag)];
      if second then s.rcu.regs[op.phyRs2] == OperandB(a, op.d) else s.rcu.regs[op.phyRs1] == OperandA(a, op.d)
  {
    hide R.AllBelow, R.EntriesInRange, R.TagsInRange, MapsOk, ArchsOk, AllValid, TagOk, FaultsBehind, EntriesOk,
      CauseOk, ReleasedSafe, MapsChain, ArchChain, OpsSquashed, BranchOk, ArchHeld, ResultsHeld, DoneHeld;
    var op := s.ops[id];
    var k := s.rcu.rob.Dist(op.robTag);
    LiveIsHeld(s.Rob(), s.rcu.mode, s.rcu.tag, s.g.released, k, s.rcu.rob);
    ArchLength(s.g.archs, k);
    MapValue(cfg, s.Rob(), s.Held(), s.g.maps, s.g.archs, s.rcu.busy, s.rcu.regs, k, if second then op.d.isaRs2 else op.d.isaRs1);
  }

  lemma ArchLength(archs: seq<Arch>, k: nat)
    requires ArchsOk(archs) && k < |archs|
    ensures |archs[k].x| == ISA_REGS
  {
  }

  // An unfinished entry still holds its resources.
  lemma LiveIsHeld(rob: seq<R.RobEntry>, mode: R.RobState, tag: nat, released: bool, k: nat, q: Queue<R.RobEntry>)
    requires q.elems == rob && k < |rob| && !rob[k].done && ReleasedOk(rob, mode, released) && FaultsBehind(q, mode, tag)
    ensures released ==> k < |rob| - 1
  {
  }

  // Changing operations alone, without touching the queues.
  lemma OpsOnlyInv(cfg: Config, mem0: Mem, s: State, ops': map<nat, Op>)
    requires Inv(cfg, mem0, s) && SameOps(s.ops, ops')
    requires ValsOk(cfg, s.rcu.rob, s.g.archs, ops') && ForwardedDone(s.rcu.rob, ops', s.rcu.busy)
    requires LoadStages(s.lsq.ldq.elems, ops')
    ensures Inv(cfg, mem0, s.(ops := ops'))
  {
    hide R.AllBelow, R.EntriesInRange, R.TagsInRange, MapsOk, ArchsOk, AllValid, RobSorted, LdqSorted, StqSorted,
      TagsMatch, IdsBelow, NotDead, CommitsOk, MapsChain, ArchChain, Conserved, TagOk, FaultsBehind, EntriesOk,
      CauseOk, ReleasedOk, ReleasedSafe, PkgOk, OpsShape, OpsTied, OpsSquashed, BranchOk, ArchHeld, ResultsHeld,
      DoneHeld, ValsOk, ForwardedDone, RobLoads, LoadsTied, LoadAddrs, LoadStages, LoadsDone, LoadsRetired, LoadOps,
      RespsTied, RespsOk, RobStores, StoreData, StoresTied, StoresRetired, StoresKept, StoreOps, StoreResps,
      StoresInOrder, DepsOk, Drain, TraceSorted, TraceBeforeStores, TraceBeforeLoads, SameOps;
    OpsFrame(cfg, s.rcu, s.g.maps, s.g.robTag, s.g.dead, s.ops, ops');
    LsqOpsFrame(s.lsq, s.ops, ops');
  }

  lemma SetOp(cfg: Config, rob: Queue<R.RobEntry>, archs: seq<Arch>, ops: map<nat, Op>, busy: seq<R.Busy>, id: nat, op: Op)
    requires |archs| > |rob.elems| && ValsOk(cfg, rob, archs, ops) && ForwardedDone(rob, ops, busy)
    requires id in ops && SameOp(ops[id], op) && !op.stage.Forwarded?
    requires LiveOp(rob, op) ==> OperandsOk(archs[rob.Dist(op.robTag)], op) && StageOk(cfg, archs[rob.Dist(op.robTag)], op)
    ensures SameOps(ops, ops[id := op]) && ValsOk(cfg, rob, archs, ops[id := op]) && ForwardedDone(rob, ops[id := op], busy)
  {
  }

  lemma SetWaiting(ldq: seq<L.LdqEntry>, ops: map<nat, Op>, id: nat, op: Op)
    requires id in ops && op.stage == ops[id].stage && LoadStages(ldq, ops)
    ensures LoadStages(ldq, ops[id := op])
  {
  }

  lemma OpValues(cfg: Config, rob: Queue<R.RobEntry>, archs: seq<Arch>, ops: map<nat, Op>, id: nat)
    requires |archs| > |rob.elems| && ValsOk(cfg, rob, archs, ops) && id in ops && LiveOp(rob, ops[id])
    ensures OperandsOk(archs[rob.Dist(ops[id].robTag)], ops[id]) && StageOk(cfg, archs[rob.Dist(ops[id].robTag)], ops[id])
  {
  }

  lemma ReadInv(cfg: Config, mem0: Mem, s: State, id: nat, second: bool)
    requires Inv(cfg, mem0, s) && CanRead(s, id, second)
    ensures Inv(cfg, mem0, ReadOperand(s, id, second))
  {
    hide R.AllBelow, R.EntriesInRange, R.TagsInRange, MapsOk, ArchsOk, AllValid, InvOrder, MapsChain, ArchChain,
      Conserved, InvMode, PkgOk, InvOps, InvRegs, ValsOk, ForwardedDone, RobLoads, LoadsTied, LoadAddrs, LoadStages,
      LoadsDone, LoadsRetired, LoadOps, RespsTied, RespsOk, InvStq, InvMem, SameOps;
    var op := s.ops[id];
    var op' := ReadOperand(s, id, second).ops[id];
    if LiveOp(s.rcu.rob, op) {
      ReadValue(cfg, mem0, s, id, second);
      OpValues(cfg, s.rcu.rob, s.g.archs, s.ops, id);
    }
    SetOp(cfg, s.rcu.rob, s.g.archs, s.ops, s.rcu.busy, id, op');
    SetWaiting(s.lsq.ldq.elems, s.ops, id, op');
    OpsOnlyInv(cfg, mem0, s, s.ops[id := op']);
  }

  // ---- execution --------------------------------------------------------------------------------

  lemma ExecuteStages(cfg: Config, s: State, id: nat, op': Op)
    requires InvShape(cfg, s) && InvOps(cfg, s) && InvLdq(cfg, s) && id in s.ops && s.ops[id].d.fu != LDU
    ensures LoadStages(s.lsq.ldq.elems, s.ops[id := op'])
  {
    hide R.AllBelow, R.EntriesInRange, R.TagsInRange, MapsOk, ArchsOk, AllValid, OpsShape, OpsTied, OpsSquashed,
      BranchOk, RobLoads, LoadsTied, LoadAddrs, LoadsDone, LoadsRetired, LoadOps, RespsTied, RespsOk;
    forall j | 0 <= j < |s.lsq.ldq.elems| && Active(s.lsq.ldq.elems[j]) && s.lsq.ldq.elems[j].id in s.ops
      ensures s.lsq.ldq.elems[j].id != id
    {
      ActiveIsLoad(cfg, s.rcu.rob, s.Held(), s.g.maps, s.g.robTag, s.ops, s.lsq.ldq, j);
    }
  }

  lemma ExecuteInv(cfg: Config, mem0: Mem, s: State, id: nat)
    requires Inv(cfg, mem0, s) && CanExecute(s, id)
    ensures Inv(cfg, mem0, Execute(cfg, s, id))
  {
    hide R.AllBelow, R.EntriesInRange, R.TagsInRange, MapsOk, ArchsOk, AllValid, InvOrder, MapsChain, ArchChain,
      Conserved, InvMode, PkgOk, InvOps, InvRegs, ValsOk, ForwardedDone, InvLdq, InvStq, InvMem, SameOps;
    var op := s.ops[id];
    var op' := Execute(cfg, s, id).ops[id];
    if LiveOp(s.rcu.rob, op) {
      OpValues(cfg, s.rcu.rob, s.g.archs, s.ops, id);
    }
    SetOp(cfg, s.rcu.rob, s.g.archs, s.ops, s.rcu.busy, id, op');
    ExecuteStages(cfg, s, id, op');
    OpsOnlyInv(cfg, mem0, s, s.ops[id := op']);
  }

  // ---- forwarding -------------------------------------------------------------------------------

  // Writing a held target register with its writer's sequential result.
  lemma WriteHeld(regCount: nat, free: seq<nat>, m: seq<nat>, rob: seq<R.RobEntry>, held: nat, archs: seq<Arch>,
                  busy: seq<R.Busy>, regs: seq<Val>, k: nat, b: R.Busy, v: Val)
    requires regCount >= 2 && k < held <= |rob| && |archs| == |rob| + 1 && |busy| == |regs|
    requires Conserved(regCount, free, m, rob[..held]) && rob[k].d.Writes() && 0 != rob[k].phyRd < |regs|
    requires ArchHeld(m, archs[0].x, busy, regs) && ResultsHeld(rob[..held], archs, busy, regs) && DoneHeld(rob, busy)
    requires b.done && v == XReg(archs[k + 1].x, rob[k].d.isaRd)
    ensures var p := rob[k].phyRd;
      && ArchHeld(m, archs[0].x, busy[p := b], regs[p := v])
      && ResultsHeld(rob[..held], archs, busy[p := b], regs[p := v]) && DoneHeld(rob, busy[p := b])
  {
    assert rob[..held][k] == rob[k];
    TargetIsFresh(regCount, free, m, rob[..held], k);
  }

  lemma ChainAt(cfg: Config, rob: seq<R.RobEntry>, maps: seq<seq<nat>>, archs: seq<Arch>, k: nat)
    requires |maps| == |archs| == |rob| + 1 && k < |rob| && MapsChain(rob, maps) && ArchChain(cfg, rob, archs)
    requires MapsOk(maps, cfg.regCount) && ArchsOk(archs)
    ensures rob[k].d.Writes() ==> rob[k].phyRd != 0 && XReg(archs[k + 1].x, rob[k].d.isaRd) == Result(cfg, archs[k], rob[k].d)
  {
    assert MapStep(maps[k], maps[k + 1], rob[k]) && archs[k + 1] == SeqStep(cfg, archs[k], rob[k].d);
    assert TableOk(maps[k], cfg.regCount);
  }

  // What the operation of a live instruction knows about its entry.
  lemma LiveFacts(cfg: Config, mem0: Mem, s: State, id: nat)
    requires InvShape(cfg, s) && InvMaps(cfg, s) && InvArch(cfg, mem0, s) && InvMode(s) && InvOps(cfg, s) && InvVals(cfg, s)
    requires id in s.ops && LiveOp(s.rcu.rob, s.ops[id])
    ensures var op := s.ops[id];
      var k := s.rcu.rob.Dist(op.robTag);
      && k < s.Held() && Tied(s.Rob()[k], s.g.maps[k], id, op) && op.d.WellDecoded()
      && OperandsOk(s.g.archs[k], op) && StageOk(cfg, s.g.archs[k], op)
      && (op.d.Writes() ==> op.phyRd != 0 && XReg(s.g.archs[k + 1].x, op.d.isaRd) == Result(cfg, s.g.archs[k], op.d))
  {
    hide R.AllBelow, R.EntriesInRange, R.TagsInRange, MapsOk, ArchsOk, AllValid, TagOk, FaultsBehind, EntriesOk,
      CauseOk, ReleasedOk, ReleasedSafe, MapsChain, ArchChain, OpsShape, OpsTied, OpsSquashed, BranchOk, ValsOk,
      ForwardedDone, OperandsOk, StageOk, Result;
    var op := s.ops[id];
    var k := s.rcu.rob.Dist(op.robTag);
    TiedAt(s.rcu.rob, s.g.maps, s.ops, id);
    OpWell(cfg, s.ops, s.g.robTag, id);
    LiveIsHeld(s.Rob(), s.rcu.mode, s.rcu.tag, s.g.released, k, s.rcu.rob);
    OpValues(cfg, s.rcu.rob, s.g.archs, s.ops, id);
    ChainAt(cfg, s.Rob(), s.g.maps, s.g.archs, k);
  }

  // Broadcasting a live writer's result.
  lemma ForwardLive(cfg: Config, mem0: Mem, s: State, id: nat)
    requires InvShape(cfg, s) && InvMaps(cfg, s) && InvArch(cfg, mem0, s) && InvCons(cfg, s) && InvMode(s) && InvOps(cfg, s)
    requires InvRegs(cfg, s) && InvVals(cfg, s) && CanForward(s, id) && LiveOp(s.rcu.rob, s.ops[id]) && s.ops[id].d.Writes()
    ensures var r' := Forward(s, id, {}).rcu;
      && ArchHeld(s.g.maps[0], s.g.archs[0].x, r'.busy, r'.regs)
      && ResultsHeld(s.Rob()[..s.Held()], s.g.archs, r'.busy, r'.regs) && DoneHeld(s.Rob(), r'.busy)
  {
    hide R.AllBelow, R.EntriesInRange, R.TagsInRange, MapsOk, ArchsOk, AllValid, InvMode, MapsChain, ArchChain,
      Conserved, InvOps, InvVals, ArchHeld, ResultsHeld, DoneHeld, Result, OperandsOk;
    var op := s.ops[id];
    var k := s.rcu.rob.Dist(op.robTag);
    LiveFacts(cfg, mem0, s, id);
    var b := s.rcu.busy[op.phyRd].(forwarding := true, done := true);
    WriteHeld(cfg.regCount, s.rcu.free, s.g.maps[0], s.Rob(), s.Held(), s.g.archs, s.rcu.busy, s.rcu.regs, k, b, op.stage.result);
  }

  lemma TiedAt(rob: Queue<R.RobEntry>, maps: seq<seq<nat>>, ops: map<nat, Op>, id: nat)
    requires |maps| == |rob.elems| + 1 && OpsTied(rob, maps, ops) && id in ops && LiveOp(rob, ops[id])
    ensures Tied(rob.elems[rob.Dist(ops[id].robTag)], maps[rob.Dist(ops[id].robTag)], id, ops[id])
  {
  }

  // Broadcasting a squashed writer's result touches a free register only.
  lemma ForwardSquashed(cfg: Config, s: State, id: nat)
    requires InvShape(cfg, s) && InvCons(cfg, s) && InvOps(cfg, s) && InvRegs(cfg, s) && InvMode(s)
    requires CanForward(s, id) && !LiveOp(s.rcu.rob, s.ops[id]) && s.ops[id].d.Writes()
    ensures var r' := Forward(s, id, {}).rcu;
      && s.ops[id].phyRd in s.rcu.free
      && ArchHeld(s.g.maps[0], s.g.archs[0].x, r'.busy, r'.regs)
      && ResultsHeld(s.Rob()[..s.Held()], s.g.archs, r'.busy, r'.regs) && DoneHeld(s.Rob(), r'.busy)
  {
    hide R.AllBelow, R.EntriesInRange, R.TagsInRange, MapsOk, ArchsOk, AllValid, TagOk, EntriesOk, CauseOk,
      FaultsBehind, ReleasedSafe, OpsTied, BranchOk, Conserved;
    FreeIsFresh(cfg.regCount, s.rcu.free, s.g.maps[0], s.Rob()[..s.Held()], s.ops[id].phyRd);
  }

  lemma ForwardRegs(cfg: Config, mem0: Mem, s: State, id: nat)
    requires InvShape(cfg, s) && InvMaps(cfg, s) && InvArch(cfg, mem0, s) && InvCons(cfg, s) && InvMode(s) && InvOps(cfg, s)
    requires InvRegs(cfg, s) && InvVals(cfg, s) && CanForward(s, id)
    ensures var r' := Forward(s, id, {}).rcu;
      && ArchHeld(s.g.maps[0], s.g.archs[0].x, r'.busy, r'.regs)
      && ResultsHeld(s.Rob()[..s.Held()], s.g.archs, r'.busy, r'.regs) && DoneHeld(s.Rob(), r'.busy)
  {
    hide R.AllBelow, R.EntriesInRange, R.TagsInRange, MapsOk, ArchsOk, AllValid, InvMode, MapsChain, ArchChain,
      Conserved, InvOps, InvVals;
    if s.ops[id].d.Writes() {
      if LiveOp(s.rcu.rob, s.ops[id]) {
        ForwardLive(cfg, mem0, s, id);
      } else {
        ForwardSquashed(cfg, s, id);
      }
    }
  }

  lemma OpWell(cfg: Config, ops: map<nat, Op>, robTag: map<nat, nat>, id: nat)
    requires OpsShape(cfg, ops, robTag) && id in ops
    ensures OpShape(ops[id], cfg.robSize, cfg.regCount, cfg.ldqSize, cfg.stqSize)
  {
  }

  lemma ForwardSame(s: State, id: nat, wake: set<nat>)
    requires CanForward(s, id)
    ensures SameOps(s.ops, Forward(s, id, wake).ops)
  {
  }

  lemma ForwardDone(cfg: Config, s: State, id: nat, wake: set<nat>)
    requires InvShape(cfg, s) && InvVals(cfg, s) && CanForward(s, id)
    ensures ForwardedDone(s.rcu.rob, Forward(s, id, wake).ops, Forward(s, id, wake).rcu.busy)
  {
    hide R.AllBelow, R.EntriesInRange, R.TagsInRange, MapsOk, ArchsOk, AllValid, ValsOk, Wake;
    var s' := Forward(s, id, wake);
    forall i | i in s'.ops && LiveOp(s'.rcu.rob, s'.ops[i]) && s'.ops[i].stage.Forwarded? && s'.ops[i].d.Writes()
      ensures Done(s'.rcu.busy, s'.ops[i].phyRd)
    {
      WakeKeeps(s.ops[i], s.ops[id].d, s.ops[id].phyRd, s.ops[id].stage.result);
    }
  }

  lemma WakeKeeps(op: Op, d: Decoded, phyRd: nat, result: Val)
    ensures SameOp(op, Wake(op, d, phyRd, result)) && Wake(op, d, phyRd, result).stage == op.stage
  {
  }

  // A woken operand gets the value the register now holds, which is its sequential value.
  lemma WakeValue(cfg: Config, mem0: Mem, s: State, id: nat, i: nat, second: bool)
    requires InvShape(cfg, s) && InvMaps(cfg, s) && InvArch(cfg, mem0, s) && InvCons(cfg, s) && InvMode(s) && InvOps(cfg, s)
    requires InvRegs(cfg, s) && InvVals(cfg, s) && CanForward(s, id) && i in s.ops && LiveOp(s.rcu.rob, s.ops[i])
    requires s.ops[id].d.Writes() && s.ops[id].phyRd != 0
    requires var op := s.ops[i]; (if second then op.phyRs2 else op.phyRs1) == s.ops[id].phyRd
    ensures var a := s.g.archs[s.rcu.rob.Dist(s.ops[i].robTag)];
      s.ops[id].stage.result == XReg(a.x, if second then s.ops[i].d.isaRs2 else s.ops[i].d.isaRs1)
  {
    hide R.AllBelow, R.EntriesInRange, R.TagsInRange, MapsOk, ArchsOk, AllValid, InvMode, MapsChain, ArchChain,
      Conserved, InvOps, InvVals, InvRegs, OperandsOk, StageOk, Result;
    LiveFacts(cfg, mem0, s, i);
    ForwardRegs(cfg, mem0, s, id);
    var k := s.rcu.rob.Dist(s.ops[i].robTag);
    ArchLength(s.g.archs, k);
    var r' := Forward(s, id, {}).rcu;
    if LiveOp(s.rcu.rob, s.ops[id]) {
      MapValue(cfg, s.Rob(), s.Held(), s.g.maps, s.g.archs, r'.busy, r'.regs, k, if second then s.ops[i].d.isaRs2
        else s.ops[i].d.isaRs1);
    } else {
      SquashedFree(cfg, s, id);
      FreeNotMapped(cfg.regCount, s.rcu.free, s.Rob(), s.Held(), s.g.maps, k, s.ops[id].phyRd);
    }
  }

  lemma SquashedFree(cfg: Config, s: State, id: nat)
    requires InvShape(cfg, s) && InvOps(cfg, s) && id in s.ops && !LiveOp(s.rcu.rob, s.ops[id]) && s.ops[id].d.Writes()
    ensures s.ops[id].phyRd in s.rcu.free
  {
  }

  lemma ForwardVals(cfg: Config, mem0: Mem, s: State, id: nat, wake: set<nat>)
    requires InvShape(cfg, s) && InvMaps(cfg, s) && InvArch(cfg, mem0, s) && InvCons(cfg, s) && InvMode(s) && InvOps(cfg, s)
    requires InvRegs(cfg, s) && InvVals(cfg, s) && CanForward(s, id)
    ensures ValsOk(cfg, s.rcu.rob, s.g.archs, Forward(s, id, wake).ops)
  {
    hide R.AllBelow, R.EntriesInRange, R.TagsInRange, MapsOk, ArchsOk, AllValid, InvMode, MapsChain, ArchChain,
      Conserved, InvOps, ValsOk, ForwardedDone, InvRegs, Result;
    var ops' := Forward(s, id, wake).ops;
    forall i | i in ops' && LiveOp(s.rcu.rob, ops'[i])
      ensures OperandsOk(s.g.archs[s.rcu.rob.Dist(ops'[i].robTag)], ops'[i])
      ensures StageOk(cfg, s.g.archs[s.rcu.rob.Dist(ops'[i].robTag)], ops'[i])
    {
      OpValues(cfg, s.rcu.rob, s.g.archs, s.ops, i);
      var p := s.ops[id].phyRd;
      if i != id && i in wake && s.ops[id].d.Writes() && p != 0 {
        if s.ops[i].phyRs1 == p {
          WakeValue(cfg, mem0, s, id, i, false);
        }
        if s.ops[i].phyRs2 == p {
          WakeValue(cfg, mem0, s, id, i, true);
        }
      }
    }
    ValsIntro(cfg, s.rcu.rob, s.g.archs, ops');
  }

  lemma ValsIntro(cfg: Config, rob: Queue<R.RobEntry>, archs: seq<Arch>, ops: map<nat, Op>)
    requires |archs| > |rob.elems|
    requires forall id :: id in ops && LiveOp(rob, ops[id]) ==>
      OperandsOk(archs[rob.Dist(ops[id].robTag)], ops[id]) && StageOk(cfg, archs[rob.Dist(ops[id].robTag)], ops[id])
    ensures ValsOk(cfg, rob, archs, ops)
  {
  }

  lemma ForwardStages(cfg: Config, s: State, id: nat, wake: set<nat>)
    requires InvLdq(cfg, s) && CanForward(s, id)
    ensures LoadStages(s.lsq.ldq.elems, Forward(s, id, wake).ops)
  {
    hide RobLoads, LoadsTied, LoadAddrs, LoadsDone, LoadsRetired, LoadOps, RespsTied, RespsOk, R.AllBelow,
      R.EntriesInRange;
  }

  lemma ForwardInv(cfg: Config, mem0: Mem, s: State, id: nat, wake: set<nat>)
    requires Inv(cfg, mem0, s) && CanForward(s, id)
    ensures Inv(cfg, mem0, Forward(s, id, wake))
  {
    hide R.AllBelow, R.EntriesInRange, R.TagsInRange, MapsOk, ArchsOk, AllValid, RobSorted, LdqSorted, StqSorted,
      TagsMatch, IdsBelow, NotDead, CommitsOk, MapsChain, ArchChain, Conserved, TagOk, FaultsBehind, EntriesOk,
      CauseOk, ReleasedOk, ReleasedSafe, PkgOk, OpsShape, OpsTied, OpsSquashed, BranchOk, ArchHeld, ResultsHeld,
      DoneHeld, ValsOk, ForwardedDone, RobLoads, LoadsTied, LoadAddrs, LoadStages, LoadsDone, LoadsRetired, LoadOps,
      RespsTied, RespsOk, RobStores, StoreData, StoresTied, StoresRetired, StoresKept, StoreOps, StoreResps,
      StoresInOrder, DepsOk, Drain, TraceSorted, TraceBeforeStores, TraceBeforeLoads, SameOps, Wake;
    var s' := Forward(s, id, wake);
    assert s'.rcu == Forward(s, id, {}).rcu;
    ForwardRegs(cfg, mem0, s, id);
    ForwardDone(cfg, s, id, wake);
    ForwardSame(s, id, wake);
    ForwardVals(cfg, mem0, s, id, wake);
    ForwardStages(cfg, s, id, wake);
    OpsFrame(cfg, s.rcu, s.g.maps, s.g.robTag, s.g.dead, s.ops, s'.ops);
    LsqOpsFrame(s.lsq, s.ops, s'.ops);
  }
}
