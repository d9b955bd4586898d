// The initial state satisfies the invariant, and dispatching one instruction keeps it.
module ProofDispatch {
  import opened DynInsn
  import opened LoopQueue
  import L = LsqSpec
  import R = RcuSpec
  import opened Backend
  import opened BackendInv
  import opened Registers

  lemma InitCons(regCount: nat)
    requires regCount >= 2
    ensures Conserved(regCount, seq(regCount - 2, i => i + 1), seq(ISA_REGS, _ => 0), [])
  {
  }

  lemma InitRob(cfg: Config, mem: Mem)
    requires cfg.Valid() && InvShape(cfg, Init(cfg, mem))
    ensures var s := Init(cfg, mem);
      && InvOrder(s) && InvMaps(cfg, s) && InvArch(cfg, mem, s) && InvMode(s) && InvPkg(s) && InvOps(cfg, s)
      && InvRegs(cfg, s) && InvVals(cfg, s)
  {
  }

  lemma InitLsq(cfg: Config, mem: Mem)
    requires cfg.Valid() && InvShape(cfg, Init(cfg, mem))
    ensures var s := Init(cfg, mem); InvLdq(cfg, s) && InvStq(cfg, s) && InvMem(cfg, s)
  {
    hide DepOk, StageMatches, ResultOk, Address, IdPos;
  }

  lemma InitInv(cfg: Config, mem: Mem)
    requires cfg.Valid()
    ensures Inv(cfg, mem, Init(cfg, mem))
  {
    var s := Init(cfg, mem);
    InitCons(cfg.regCount);
    assert s.Rob()[..s.Held()] == [];
    assert InvShape(cfg, s) && InvCons(cfg, s);
    InitRob(cfg, mem);
    InitLsq(cfg, mem);
  }

  // ---- order ----------------------------------------------------------------------------

  lemma PushOrder(rob: Queue<R.RobEntry>, e: R.RobEntry, robTag: map<nat, nat>, dead: set<nat>, commitIds: seq<nat>)
    requires rob.Valid() && !rob.Full()
    requires RobSorted(rob.elems, e.id) && TagsMatch(rob, robTag) && IdsBelow(robTag.Keys, e.id)
    requires IdsBelow(dead, e.id) && NotDead(rob.elems, dead) && CommitsOk(commitIds, dead, rob.elems, e.id)
    ensures RobSorted(rob.Push(e).elems, e.id + 1)
    ensures TagsMatch(rob.Push(e), robTag[e.id := rob.Tail()])
    ensures IdsBelow(robTag[e.id := rob.Tail()].Keys, e.id + 1) && IdsBelow(dead, e.id + 1)
    ensures NotDead(rob.Push(e).elems, dead)
    ensures CommitsOk(commitIds, dead, rob.Push(e).elems, e.id + 1)
  {
  }

  lemma PushLsqOrder(l: L.Lsq, id: nat, d: Decoded)
    requires l.Valid() && l.HasRoom(d) && LdqSorted(l.ldq.elems, id) && StqSorted(l.stq.elems, id)
    ensures LdqSorted(L.Allocate(l, id, d).0.ldq.elems, id + 1)
    ensures StqSorted(L.Allocate(l, id, d).0.stq.elems, id + 1)
  {
  }

  // ---- registers ---------------------------------------------------------------------------

  lemma PushCons(regCount: nat, r: R.Rcu, m0: seq<nat>, d: Decoded, e: R.RobEntry)
    requires regCount >= 2 && r.Valid() && d.WellDecoded() && R.CanAllocate(r, d)
    requires e.phyRd == R.RenameOne(r, d).phyRd
    requires Conserved(regCount, r.free, m0, r.rob.elems)
    ensures Conserved(regCount, R.TakeRegister(r, d).free, m0, r.rob.elems + [e])
  {
    var free' := R.TakeRegister(r, d).free;
    assert Dests(r.rob.elems + [e]) == Dests(r.rob.elems) + [e.phyRd];
    if d.Writes() {
      assert r.free == [r.free[0]] + free';
    }
  }

  lemma PushMaps(cfg: Config, r: R.Rcu, maps: seq<seq<nat>>, archs: seq<Arch>, d: Decoded, e: R.RobEntry)
    requires cfg.Valid() && |maps| == |archs| == |r.rob.elems| + 1 && r.table == maps[|r.rob.elems|]
    requires r.Valid() && d.WellDecoded() && R.CanAllocate(r, d) && Conserved(cfg.regCount, r.free, maps[0], r.rob.elems)
    requires e.d == d && e.phyRd == R.RenameOne(r, d).phyRd && e.lphyRd == R.RenameOne(r, d).lphyRd
    requires MapsChain(r.rob.elems, maps) && ArchChain(cfg, r.rob.elems, archs)
    requires MapsOk(maps, |r.regs|) && ArchsOk(archs)
    ensures MapsChain(r.rob.elems + [e], maps + [R.TakeRegister(r, d).table])
    ensures ArchChain(cfg, r.rob.elems + [e], archs + [SeqStep(cfg, archs[|archs| - 1], d)])
    ensures MapsOk(maps + [R.TakeRegister(r, d).table], |r.regs|)
    ensures ArchsOk(archs + [SeqStep(cfg, archs[|archs| - 1], d)])
  {
    if d.Writes() {
      assert r.free[0] in r.free;
    }
    var maps' := maps + [R.TakeRegister(r, d).table];
    assert maps'[|r.rob.elems|] == r.table;
  }

  // ---- recovery state -----------------------------------------------------------------------

  lemma PushMode(r: R.Rcu, e: R.RobEntry, pkg: nat)
    requires r.Valid() && !r.rob.Full() && r.mode == R.Idle && R.EntryInRange(e, |r.regs|)
    requires e.fault == e.d.excp && !e.isMisPred && e.done == e.d.DoneAtDispatch()
    requires FaultsBehind(r.rob, r.mode, r.tag) && EntriesOk(r.rob.elems) && PkgOk(r.rob, r.mode, r.tag, pkg)
    ensures var r' := R.CreateRobEntry(r, e);
      && TagOk(r'.rob, r'.mode, r'.tag) && FaultsBehind(r'.rob, r'.mode, r'.tag) && EntriesOk(r'.rob.elems)
      && CauseOk(r'.rob, r'.mode, r'.tag, r'.excp) && ReleasedOk(r'.rob.elems, r'.mode, false)
        && ReleasedSafe(r'.rob, r'.mode, r'.tag, false)
      && PkgOk(r'.rob, r'.mode, r'.tag, pkg)
  {
    SlotPos(r.rob, |r.rob.elems|);
  }

  // ---- operations ------------------------------------------------------------------------------

  predicate AllLive(rob: Queue<R.RobEntry>, ops: map<nat, Op>) { forall id :: id in ops ==> LiveOp(rob, ops[id]) }

  lemma IdleAllLive(rob: Queue<R.RobEntry>, ops: map<nat, Op>, dead: set<nat>, free: seq<nat>)
    requires OpsSquashed(rob, R.Idle, ops, dead, free)
    ensures AllLive(rob, ops)
  {
  }

  lemma AllLiveOps(rob: Queue<R.RobEntry>, mode: R.RobState, tag: nat, ops: map<nat, Op>, dead: set<nat>, free: seq<nat>)
    requires AllLive(rob, ops) && (mode == R.Idle || rob.Dist(tag) == |rob.elems| - 1)
    ensures OpsSquashed(rob, mode, ops, dead, free) && BranchOk(rob, mode, tag, ops)
  {
  }

  lemma TableBelow(table: seq<nat>, bound: nat, d: Decoded)
    requires R.AllBelow(table, bound) && |table| == ISA_REGS && d.WellDecoded()
    ensures table[d.isaRs1] < bound && table[d.isaRs2] < bound && table[d.isaRd] < bound
  {
  }

  lemma EntryFits(r: R.Rcu, id: nat, d: Decoded, lsqTag: nat)
    requires r.Valid() && d.WellDecoded() && R.CanAllocate(r, d) && |r.regs| > 0
    ensures R.EntryInRange(R.NewRobEntry(id, d, R.RenameOne(r, d), lsqTag), |r.regs|)
  {
  }

  lemma OpsBelow(cfg: Config, ops: map<nat, Op>, robTag: map<nat, nat>, bound: nat)
    requires OpsShape(cfg, ops, robTag) && IdsBelow(robTag.Keys, bound)
    ensures IdsBelow(ops.Keys, bound)
  {
  }

  lemma PushTied(rob: Queue<R.RobEntry>, maps: seq<seq<nat>>, m: seq<nat>, ops: map<nat, Op>, e: R.RobEntry)
    requires rob.Valid() && !rob.Full() && |maps| == |rob.elems| + 1
    requires OpsTied(rob, maps, ops) && AllLive(rob, ops)
    ensures OpsTied(rob.Push(e), maps + [m], ops) && AllLive(rob.Push(e), ops)
  {
  }

  lemma AddTied(rob: Queue<R.RobEntry>, maps: seq<seq<nat>>, ops: map<nat, Op>, id: nat, op: Op)
    requires |maps| == |rob.elems| + 1 && OpsTied(rob, maps, ops) && AllLive(rob, ops)
    requires LiveOp(rob, op) && Tied(rob.elems[rob.Dist(op.robTag)], maps[rob.Dist(op.robTag)], id, op)
    ensures OpsTied(rob, maps, ops[id := op]) && AllLive(rob, ops[id := op])
  {
  }

  lemma PushVals(cfg: Config, rob: Queue<R.RobEntry>, archs: seq<Arch>, a: Arch, ops: map<nat, Op>, e: R.RobEntry)
    requires rob.Valid() && !rob.Full() && |archs| == |rob.elems| + 1
    requires ValsOk(cfg, rob, archs, ops) && AllLive(rob, ops)
    ensures ValsOk(cfg, rob.Push(e), archs + [a], ops)
  {
  }

  lemma AddVals(cfg: Config, rob: Queue<R.RobEntry>, archs: seq<Arch>, ops: map<nat, Op>, id: nat, op: Op, busy: seq<R.Busy>)
    requires |archs| > |rob.elems| && ValsOk(cfg, rob, archs, ops) && ForwardedDone(rob, ops, busy)
    requires op.stage == Waiting && op.a == None && op.b == None
    ensures ValsOk(cfg, rob, archs, ops[id := op]) && ForwardedDone(rob, ops[id := op], busy)
  {
  }

  // ---- load and store queues --------------------------------------------------------------------

  lemma PushRobLoads(rob: Queue<R.RobEntry>, l: L.Lsq, e: R.RobEntry, dead: set<nat>)
    requires l.Valid() && l.HasRoom(e.d) && e.lsqTag == L.Allocate(l, e.id, e.d).1
    requires RobSorted(rob.elems, e.id) && LdqSorted(l.ldq.elems, e.id)
    requires RobLoads(rob.elems, |rob.elems|, l.ldq) && LoadsRetired(l.ldq.elems, dead, rob.elems)
    ensures var ldq' := L.Allocate(l, e.id, e.d).0.ldq;
      RobLoads(rob.elems + [e], |rob.elems| + 1, ldq') && LoadsRetired(ldq'.elems, dead, rob.elems + [e])
  {
    if !l.ldq.Full() {
      SlotPos(l.ldq, |l.ldq.elems|);
    }
  }

  lemma PushLoadsDone(rob: Queue<R.RobEntry>, l: L.Lsq, e: R.RobEntry)
    requires l.Valid() && l.HasRoom(e.d) && e.lsqTag == L.Allocate(l, e.id, e.d).1
    requires e.fault == e.d.excp && e.done == e.d.DoneAtDispatch()
    requires RobLoads(rob.elems, |rob.elems|, l.ldq) && LoadsDone(rob.elems, l.ldq)
    ensures LoadsDone(rob.elems + [e], L.Allocate(l, e.id, e.d).0.ldq)
  {
  }

  lemma PushLoadsTied(rob: Queue<R.RobEntry>, robTag: map<nat, nat>, l: L.Lsq, e: R.RobEntry)
    requires rob.Valid() && !rob.Full() && l.Valid() && l.HasRoom(e.d)
    requires e.lsqTag == L.Allocate(l, e.id, e.d).1 && LdqSorted(l.ldq.elems, e.id)
    requires LoadsTied(rob, |rob.elems|, robTag, l.ldq)
    ensures LoadsTied(rob.Push(e), |rob.elems| + 1, robTag[e.id := rob.Tail()], L.Allocate(l, e.id, e.d).0.ldq)
  {
    SlotPos(rob, |rob.elems|);
    if !l.ldq.Full() {
      SlotPos(l.ldq, |l.ldq.elems|);
    }
  }

  lemma PushLoadAddrs(cfg: Config, rob: Queue<R.RobEntry>, robTag: map<nat, nat>, archs: seq<Arch>, a: Arch, l: L.Lsq,
      e: R.RobEntry)
    requires rob.Valid() && !rob.Full() && l.Valid() && l.HasRoom(e.d) && |archs| == |rob.elems| + 1
    requires LdqSorted(l.ldq.elems, e.id) && LoadsTied(rob, |rob.elems|, robTag, l.ldq)
    requires LoadAddrs(cfg, rob, robTag, archs, l.ldq.elems)
    ensures LoadAddrs(cfg, rob.Push(e), robTag[e.id := rob.Tail()], archs + [a], L.Allocate(l, e.id, e.d).0.ldq.elems)
  {
  }

  lemma PushRespsTied(l: L.Lsq, id: nat, d: Decoded, lresp: map<nat, Resp>)
    requires l.Valid() && l.HasRoom(d) && RespsTied(l.ldq, lresp)
    ensures RespsTied(L.Allocate(l, id, d).0.ldq, lresp)
  {
  }

  lemma PushRespsOk(cfg: Config, rob: Queue<R.RobEntry>, robTag: map<nat, nat>, archs: seq<Arch>, a: Arch,
      ldq: Queue<L.LdqEntry>, e: R.RobEntry, lresp: map<nat, Resp>)
    requires rob.Valid() && !rob.Full() && |archs| == |rob.elems| + 1 && LdqSorted(ldq.elems, e.id)
      && LoadsTied(rob, |rob.elems|, robTag, ldq)
    requires RespsTied(ldq, lresp) && RespsOk(cfg, rob, robTag, archs, ldq, lresp)
    ensures RespsOk(cfg, rob.Push(e), robTag[e.id := rob.Tail()], archs + [a], ldq, lresp)
  {
    hide ResultOk;
  }

  lemma PushRespsQueue(cfg: Config, rob: Queue<R.RobEntry>, robTag: map<nat, nat>, archs: seq<Arch>, l: L.Lsq, id: nat,
      d: Decoded, lresp: map<nat, Resp>)
    requires l.Valid() && l.HasRoom(d) && RespsTied(l.ldq, lresp) && RespsOk(cfg, rob, robTag, archs, l.ldq, lresp)
    ensures RespsOk(cfg, rob, robTag, archs, L.Allocate(l, id, d).0.ldq, lresp)
  {
    hide ResultOk, IdPos;
  }

  lemma PushResps(cfg: Config, rob: Queue<R.RobEntry>, robTag: map<nat, nat>, archs: seq<Arch>, a: Arch, l: L.Lsq,
      e: R.RobEntry, lresp: map<nat, Resp>)
    requires rob.Valid() && !rob.Full() && l.Valid() && l.HasRoom(e.d) && |archs| == |rob.elems| + 1
    requires LdqSorted(l.ldq.elems, e.id) && LoadsTied(rob, |rob.elems|, robTag, l.ldq)
    requires RespsTied(l.ldq, lresp) && RespsOk(cfg, rob, robTag, archs, l.ldq, lresp)
    ensures var ldq' := L.Allocate(l, e.id, e.d).0.ldq;
      RespsTied(ldq', lresp) && RespsOk(cfg, rob.Push(e), robTag[e.id := rob.Tail()], archs + [a], ldq', lresp)
  {
    hide RespsTied, RespsOk, LoadsTied, LdqSorted, L.Allocate;
    PushRespsTied(l, e.id, e.d, lresp);
    PushRespsOk(cfg, rob, robTag, archs, a, l.ldq, e, lresp);
    PushRespsQueue(cfg, rob.Push(e), robTag[e.id := rob.Tail()], archs + [a], l, e.id, e.d, lresp);
  }

  lemma PushStages(rob: Queue<R.RobEntry>, l: L.Lsq, id: nat, d: Decoded, ops: map<nat, Op>, op: Op)
    requires l.Valid() && l.HasRoom(d) && LdqSorted(l.ldq.elems, id) && IdsBelow(ops.Keys, id)
    requires LoadStages(l.ldq.elems, ops) && op.stage == Waiting
    ensures LoadStages(L.Allocate(l, id, d).0.ldq.elems, ops) && LoadStages(L.Allocate(l, id, d).0.ldq.elems, ops[id := op])
  {
  }

  lemma PushLoadOps(rob: Queue<R.RobEntry>, maps: seq<seq<nat>>, l: L.Lsq, id: nat, d: Decoded, ops: map<nat, Op>, op: Op)
    requires l.Valid() && l.HasRoom(d) && |maps| == |rob.elems| + 1
    requires LdqSorted(l.ldq.elems, id) && IdsBelow(ops.Keys, id)
    requires OpsTied(rob, maps, ops) && AllLive(rob, ops) && RobLoads(rob.elems, |rob.elems|, l.ldq)
    requires LoadStages(l.ldq.elems, ops) && LoadOps(l.ldq, ops)
    requires op.d == d && op.lsqTag == L.Allocate(l, id, d).1 && op.stage == Waiting
    ensures var ldq' := L.Allocate(l, id, d).0.ldq;
      && LoadStages(ldq'.elems, ops) && LoadOps(ldq', ops)
      && LoadStages(ldq'.elems, ops[id := op]) && LoadOps(ldq', ops[id := op])
  {
    PushStages(rob, l, id, d, ops, op);
    hide LoadStages;
    if !l.ldq.Full() {
      SlotPos(l.ldq, |l.ldq.elems|);
    }
  }

  lemma PushRobStores(cfg: Config, rob: Queue<R.RobEntry>, archs: seq<Arch>, a: Arch, l: L.Lsq, e: R.RobEntry)
    requires l.Valid() && l.HasRoom(e.d) && |archs| == |rob.elems| + 1
    requires e.lsqTag == L.Allocate(l, e.id, e.d).1 && e.fault == e.d.excp && e.done == e.d.DoneAtDispatch()
    requires RobStores(rob.elems, |rob.elems|, l.stq) && StoreData(cfg, rob.elems, archs, l.stq)
    ensures var stq' := L.Allocate(l, e.id, e.d).0.stq;
      RobStores(rob.elems + [e], |rob.elems| + 1, stq') && StoreData(cfg, rob.elems + [e], archs + [a], stq')
  {
    if !l.stq.Full() {
      SlotPos(l.stq, |l.stq.elems|);
    }
  }

  lemma PushRobTied(rob: Queue<R.RobEntry>, robTag: map<nat, nat>, stq: Queue<L.StqEntry>, e: R.RobEntry)
    requires rob.Valid() && !rob.Full() && StqSorted(stq.elems, e.id) && StoresTied(rob, |rob.elems|, robTag, stq)
    ensures StoresTied(rob.Push(e), |rob.elems| + 1, robTag[e.id := rob.Tail()], stq)
  {
  }

  lemma PushStoresTied(rob: Queue<R.RobEntry>, robTag: map<nat, nat>, l: L.Lsq, e: R.RobEntry)
    requires rob.Valid() && !rob.Full() && l.Valid() && l.HasRoom(e.d)
    requires e.lsqTag == L.Allocate(l, e.id, e.d).1 && StqSorted(l.stq.elems, e.id)
    requires StoresTied(rob, |rob.elems|, robTag, l.stq)
    ensures StoresTied(rob.Push(e), |rob.elems| + 1, robTag[e.id := rob.Tail()], L.Allocate(l, e.id, e.d).0.stq)
  {
    PushRobTied(rob, robTag, l.stq, e);
    if e.d.fu == STU {
      SlotPos(rob, |rob.elems|);
      SlotPos(l.stq, |l.stq.elems|);
    }
  }

  lemma PushStoreQueue(rob: seq<R.RobEntry>, l: L.Lsq, e: R.RobEntry)
    requires l.Valid() && l.HasRoom(e.d) && StqSorted(l.stq.elems, e.id)
    requires StoresRetired(l.stq.elems, rob) && StoresInOrder(l.stq.elems)
    ensures var stq' := L.Allocate(l, e.id, e.d).0.stq;
      StoresRetired(stq'.elems, rob + [e]) && StoresInOrder(stq'.elems)
  {
  }

  lemma PushStoreResps(l: L.Lsq, id: nat, d: Decoded, sresp: map<nat, nat>, ids: seq<nat>)
    requires l.Valid() && l.HasRoom(d) && StoreResps(l.stq, sresp) && StoresKept(l.stq.elems, ids)
    ensures StoreResps(L.Allocate(l, id, d).0.stq, sresp) && StoresKept(L.Allocate(l, id, d).0.stq.elems, ids)
  {
  }

  lemma PushStoreOps(rob: Queue<R.RobEntry>, maps: seq<seq<nat>>, l: L.Lsq, id: nat, d: Decoded, ops: map<nat, Op>)
    requires l.Valid() && l.HasRoom(d) && |maps| == |rob.elems| + 1
    requires OpsTied(rob, maps, ops) && AllLive(rob, ops) && RobStores(rob.elems, |rob.elems|, l.stq) && StoreOps(l.stq, ops)
    ensures StoreOps(L.Allocate(l, id, d).0.stq, ops)
  {
  }

  lemma AddStoreOp(l: L.Lsq, id: nat, d: Decoded, ops: map<nat, Op>, op: Op)
    requires l.Valid() && l.HasRoom(d) && StoreOps(L.Allocate(l, id, d).0.stq, ops)
    requires op.d == d && op.lsqTag == L.Allocate(l, id, d).1
    ensures StoreOps(L.Allocate(l, id, d).0.stq, ops[id := op])
  {
  }

  lemma {:induction false} DrainPush(cfg: Config, mem: Mem, q: seq<L.StqEntry>, t: L.StqEntry)
    requires !Pending(t)
    ensures Drain(cfg, mem, q + [t]) == Drain(cfg, mem, q)
    decreases |q|
  {
    if q != [] {
      var mem' := if Pending(q[0]) then cfg.store(mem, q[0].d, q[0].address, q[0].data) else mem;
      DrainPush(cfg, mem', q[1..], t);
      assert (q + [t])[1..] == q[1..] + [t];
    } else {
      assert [t][1..] == [];
    }
  }

  lemma PushMem(cfg: Config, l: L.Lsq, id: nat, d: Decoded, mem: Mem, trace: seq<nat>, dead: set<nat>)
    requires l.Valid() && l.HasRoom(d) && LdqSorted(l.ldq.elems, id) && StqSorted(l.stq.elems, id)
    requires DepsOk(l.ldq.elems, l.stq)
    requires TraceSorted(trace, dead, id) && TraceBeforeStores(trace, dead, l.stq.elems)
      && TraceBeforeLoads(trace, dead, l.ldq.elems)
    ensures var l' := L.Allocate(l, id, d).0;
      && DepsOk(l'.ldq.elems, l'.stq) && Drain(cfg, mem, l'.stq.elems) == Drain(cfg, mem, l.stq.elems)
      && TraceSorted(trace, dead, id + 1) && TraceBeforeStores(trace, dead, l'.stq.elems)
        && TraceBeforeLoads(trace, dead, l'.ldq.elems)
  {
    if d.fu == STU {
      DrainPush(cfg, mem, l.stq.elems, L.NewStqEntry(id, d));
    }
    if l.stq.elems != [] {
      SlotPos(l.stq, 0);
    }
  }

  // ---- values -----------------------------------------------------------------------------------

  // Taking a free register clears a done flag nobody relies on.
  lemma PushRegs(cfg: Config, r: R.Rcu, maps: seq<seq<nat>>, archs: seq<Arch>, a: Arch, d: Decoded, e: R.RobEntry)
    requires cfg.Valid() && r.Valid() && d.WellDecoded() && R.CanAllocate(r, d)
    requires |archs| == |r.rob.elems| + 1 && |maps| > 0
    requires e.d == d && e.phyRd == R.RenameOne(r, d).phyRd && e.fault == d.excp && e.done == d.DoneAtDispatch()
    requires Conserved(cfg.regCount, r.free, maps[0], r.rob.elems)
    requires ArchHeld(maps[0], archs[0].x, r.busy, r.regs) && ResultsHeld(r.rob.elems, archs, r.busy, r.regs)
    requires DoneHeld(r.rob.elems, r.busy)
    ensures var r' := R.TakeRegister(r, d);
      && ArchHeld(maps[0], archs[0].x, r'.busy, r'.regs)
      && ResultsHeld(r.rob.elems + [e], archs + [a], r'.busy, r'.regs)
      && DoneHeld(r.rob.elems + [e], r'.busy)
  {
    if d.Writes() {
      assert r.free[0] in r.free;
      FreeIsFresh(cfg.regCount, r.free, maps[0], r.rob.elems, r.free[0]);
    }
  }

  lemma PushForwarded(regCount: nat, r: R.Rcu, maps: seq<seq<nat>>, ops: map<nat, Op>, d: Decoded)
    requires regCount >= 2 && r.Valid() && d.WellDecoded() && R.CanAllocate(r, d) && |maps| == |r.rob.elems| + 1
    requires Conserved(regCount, r.free, maps[0], r.rob.elems)
    requires OpsTied(r.rob, maps, ops) && AllLive(r.rob, ops) && ForwardedDone(r.rob, ops, r.busy)
    ensures forall rob' :: ForwardedDone(rob', ops, R.TakeRegister(r, d).busy)
  {
    if d.Writes() {
      assert r.free[0] in r.free;
      FreeIsFresh(regCount, r.free, maps[0], r.rob.elems, r.free[0]);
    }
  }

  // ---- assembly ---------------------------------------------------------------------------------

  lemma IdleFacts(cfg: Config, s: State)
    requires InvShape(cfg, s) && InvMode(s) && s.rcu.mode == R.Idle
    ensures !s.g.released && s.Held() == |s.Rob()| && s.Rob()[..s.Held()] == s.Rob()
  {
  }

  lemma DispatchShape(cfg: Config, s: State, d: Decoded)
    requires InvShape(cfg, s) && CanDispatch(s, d)
    requires MapsOk(Dispatch(cfg, s, d).g.maps, cfg.regCount) && ArchsOk(Dispatch(cfg, s, d).g.archs)
    ensures InvShape(cfg, Dispatch(cfg, s, d))
  {
    hide MapsOk, ArchsOk;
  }

  lemma DispatchOrder(cfg: Config, s: State, d: Decoded)
    requires InvShape(cfg, s) && InvMode(s) && InvOrder(s) && CanDispatch(s, d)
    ensures InvOrder(Dispatch(cfg, s, d))
  {
    hide R.AllBelow, R.EntriesInRange, R.TagsInRange, MapsOk, ArchsOk, AllValid, InvMode, RobSorted, LdqSorted,
      StqSorted, TagsMatch, IdsBelow, NotDead, CommitsOk;
    var s' := Dispatch(cfg, s, d);
    var n := |s.Rob()|;
    var e := s'.Rob()[n];
    IdleFacts(cfg, s);
    assert s'.Rob()[..n + 1] == s'.Rob();
    PushOrder(s.rcu.rob, e, s.g.robTag, s.g.dead, s.g.commitIds);
    PushLsqOrder(s.lsq, e.id, d);
  }

  lemma DispatchMaps(cfg: Config, mem0: Mem, s: State, d: Decoded)
    requires InvShape(cfg, s) && InvMode(s) && InvMaps(cfg, s) && InvArch(cfg, mem0, s) && InvCons(cfg, s) && CanDispatch(s, d)
    ensures var s' := Dispatch(cfg, s, d);
      InvShape(cfg, s') && InvMaps(cfg, s') && InvArch(cfg, mem0, s') && InvCons(cfg, s')
  {
    hide R.AllBelow, R.EntriesInRange, R.TagsInRange, MapsOk, ArchsOk, AllValid, InvMode, MapsChain, ArchChain,
      Conserved;
    var s' := Dispatch(cfg, s, d);
    var n := |s.Rob()|;
    var e := s'.Rob()[n];
    IdleFacts(cfg, s);
    assert s'.Rob()[..n + 1] == s'.Rob();
    PushMaps(cfg, s.rcu, s.g.maps, s.g.archs, d, e);
    DispatchShape(cfg, s, d);
    PushCons(cfg.regCount, s.rcu, s.g.maps[0], d, e);
  }

  lemma DispatchMode(cfg: Config, s: State, d: Decoded)
    requires InvShape(cfg, s) && InvMode(s) && InvPkg(s) && CanDispatch(s, d)
    ensures InvMode(Dispatch(cfg, s, d)) && InvPkg(Dispatch(cfg, s, d))
  {
    hide R.AllBelow, R.EntriesInRange, R.TagsInRange, MapsOk, ArchsOk, AllValid, TagOk, FaultsBehind, EntriesOk,
      CauseOk, ReleasedOk, ReleasedSafe, PkgOk;
    IdleFacts(cfg, s);
    EntryFits(s.rcu, s.nextId, d, L.Allocate(s.lsq, s.nextId, d).1);
    PushMode(R.TakeRegister(s.rcu, d), Dispatch(cfg, s, d).Rob()[|s.Rob()|], s.pkg);
  }

  lemma DispatchOpsShape(cfg: Config, s: State, d: Decoded)
    requires InvShape(cfg, s) && InvMode(s) && InvMaps(cfg, s) && InvOps(cfg, s) && InvOrder(s) && CanDispatch(s, d)
    ensures OpsShape(cfg, Dispatch(cfg, s, d).ops, Dispatch(cfg, s, d).g.robTag)
  {
    hide R.AllBelow, R.EntriesInRange, R.TagsInRange, MapsOk, ArchsOk, AllValid, InvMode, MapsChain, RobSorted,
      LdqSorted, StqSorted, TagsMatch, NotDead, CommitsOk, OpsTied, OpsSquashed, BranchOk;
    assert R.RenameOne(s.rcu, d).phyRd < cfg.regCount;
    if !d.DoneAtDispatch() {
      assert OpShape(NewOp(s, d), cfg.robSize, cfg.regCount, cfg.ldqSize, cfg.stqSize) by {
        assert R.AllBelow(s.rcu.table, cfg.regCount);
        TableBelow(s.rcu.table, cfg.regCount, d);
      }
    }
  }

  lemma DispatchOps(cfg: Config, s: State, d: Decoded)
    requires InvShape(cfg, s) && InvMode(s) && InvMaps(cfg, s) && InvOps(cfg, s) && InvVals(cfg, s) && InvOrder(s)
    requires InvCons(cfg, s) && CanDispatch(s, d) && InvShape(cfg, Dispatch(cfg, s, d))
    ensures InvOps(cfg, Dispatch(cfg, s, d)) && AllLive(Dispatch(cfg, s, d).rcu.rob, Dispatch(cfg, s, d).ops)
    ensures InvVals(cfg, Dispatch(cfg, s, d))
  {
    hide R.AllBelow, R.EntriesInRange, R.TagsInRange, MapsOk, ArchsOk, AllValid, TagOk, FaultsBehind, EntriesOk,
      CauseOk, ReleasedOk, ReleasedSafe, MapsChain, Conserved, OpsShape, OpsTied, OpsSquashed, BranchOk, ValsOk,
      ForwardedDone, RobSorted, LdqSorted, StqSorted, TagsMatch, IdsBelow, NotDead, CommitsOk, AllLive;
    var s' := Dispatch(cfg, s, d);
    var n := |s.Rob()|;
    IdleFacts(cfg, s);
    IdleAllLive(s.rcu.rob, s.ops, s.g.dead, s.rcu.free);
    DispatchOpsShape(cfg, s, d);
    PushTied(s.rcu.rob, s.g.maps, s'.g.maps[n + 1], s.ops, s'.Rob()[n]);
    PushVals(cfg, s.rcu.rob, s.g.archs, s'.g.archs[n + 1], s.ops, s'.Rob()[n]);
    PushForwarded(cfg.regCount, s.rcu, s.g.maps, s.ops, d);
    if !d.DoneAtDispatch() {
      var op := NewOp(s, d);
      SlotPos(s.rcu.rob, n);
      assert Tied(s'.Rob()[n], s'.g.maps[n], s.nextId, op);
      AddTied(s'.rcu.rob, s'.g.maps, s.ops, s.nextId, op);
      AddVals(cfg, s'.rcu.rob, s'.g.archs, s.ops, s.nextId, op, s'.rcu.busy);
    }
    AllLiveOps(s'.rcu.rob, s'.rcu.mode, s'.rcu.tag, s'.ops, s'.g.dead, s'.rcu.free);
  }

  lemma DispatchRegs(cfg: Config, s: State, d: Decoded)
    requires InvShape(cfg, s) && InvMode(s) && InvCons(cfg, s) && InvRegs(cfg, s) && CanDispatch(s, d)
    requires InvShape(cfg, Dispatch(cfg, s, d))
    ensures InvRegs(cfg, Dispatch(cfg, s, d))
  {
    hide R.AllBelow, R.EntriesInRange, R.TagsInRange, MapsOk, ArchsOk, AllValid, InvMode, Conserved, ArchHeld,
      ResultsHeld, DoneHeld;
    var s' := Dispatch(cfg, s, d);
    var n := |s.Rob()|;
    IdleFacts(cfg, s);
    assert s'.Rob()[..n + 1] == s'.Rob();
    PushRegs(cfg, s.rcu, s.g.maps, s.g.archs, s'.g.archs[n + 1], d, s'.Rob()[n]);
  }

  lemma DispatchLdq(cfg: Config, s: State, d: Decoded)
    requires InvShape(cfg, s) && InvMode(s) && InvOrder(s) && InvOps(cfg, s) && InvLdq(cfg, s) && CanDispatch(s, d)
    ensures InvLdq(cfg, Dispatch(cfg, s, d))
  {
    hide R.AllBelow, R.EntriesInRange, R.TagsInRange, MapsOk, ArchsOk, AllValid, InvMode, RobSorted, LdqSorted,
      StqSorted, TagsMatch, IdsBelow, NotDead, CommitsOk, OpsShape, OpsTied, OpsSquashed, BranchOk, RobLoads, LoadsTied,
      LoadAddrs, LoadStages, LoadsDone, LoadsRetired, LoadOps, RespsTied, RespsOk, AllLive;
    var s' := Dispatch(cfg, s, d);
    var n := |s.Rob()|;
    var e := s'.Rob()[n];
    IdleFacts(cfg, s);
    IdleAllLive(s.rcu.rob, s.ops, s.g.dead, s.rcu.free);
    OpsBelow(cfg, s.ops, s.g.robTag, s.nextId);
    PushRobLoads(s.rcu.rob, s.lsq, e, s.g.dead);
    PushLoadsDone(s.rcu.rob, s.lsq, e);
    PushLoadsTied(s.rcu.rob, s.g.robTag, s.lsq, e);
    PushLoadAddrs(cfg, s.rcu.rob, s.g.robTag, s.g.archs, s'.g.archs[n + 1], s.lsq, e);
    PushResps(cfg, s.rcu.rob, s.g.robTag, s.g.archs, s'.g.archs[n + 1], s.lsq, e, s.lresp);
    PushLoadOps(s.rcu.rob, s.g.maps, s.lsq, e.id, d, s.ops, NewOp(s, d));
  }

  lemma DispatchStq(cfg: Config, s: State, d: Decoded)
    requires InvShape(cfg, s) && InvMode(s) && InvOrder(s) && InvOps(cfg, s) && InvStq(cfg, s) && CanDispatch(s, d)
    requires InvShape(cfg, Dispatch(cfg, s, d))
    ensures InvStq(cfg, Dispatch(cfg, s, d))
  {
    hide R.AllBelow, R.EntriesInRange, R.TagsInRange, MapsOk, ArchsOk, AllValid, InvMode, RobSorted, LdqSorted,
      StqSorted, TagsMatch, IdsBelow, NotDead, CommitsOk, OpsShape, OpsTied, OpsSquashed, BranchOk, RobStores,
      StoreData, StoresTied, StoresRetired, StoreOps, StoreResps, StoresInOrder, AllLive;
    var s' := Dispatch(cfg, s, d);
    var n := |s.Rob()|;
    var e := s'.Rob()[n];
    IdleFacts(cfg, s);
    IdleAllLive(s.rcu.rob, s.ops, s.g.dead, s.rcu.free);
    OpsBelow(cfg, s.ops, s.g.robTag, s.nextId);
    PushRobStores(cfg, s.rcu.rob, s.g.archs, s'.g.archs[n + 1], s.lsq, e);
    PushStoresTied(s.rcu.rob, s.g.robTag, s.lsq, e);
    PushStoreQueue(s.Rob(), s.lsq, e);
    PushStoreResps(s.lsq, e.id, d, s.sresp, s.g.commitIds);
    PushStoreOps(s.rcu.rob, s.g.maps, s.lsq, e.id, d, s.ops);
    AddStoreOp(s.lsq, e.id, d, s.ops, NewOp(s, d));
  }

  lemma DispatchMem(cfg: Config, s: State, d: Decoded)
    requires InvShape(cfg, s) && InvOrder(s) && InvMem(cfg, s) && CanDispatch(s, d)
    requires InvShape(cfg, Dispatch(cfg, s, d))
    ensures InvMem(cfg, Dispatch(cfg, s, d))
  {
    hide R.AllBelow, R.EntriesInRange, R.TagsInRange, MapsOk, ArchsOk, AllValid, RobSorted, LdqSorted, StqSorted,
      TagsMatch, IdsBelow, NotDead, CommitsOk, DepsOk, Drain, TraceSorted, TraceBeforeStores, TraceBeforeLoads;
    PushMem(cfg, s.lsq, s.nextId, d, s.mem, s.g.trace, s.g.dead);
  }

  lemma DispatchInv(cfg: Config, mem0: Mem, s: State, d: Decoded)
    requires Inv(cfg, mem0, s) && CanDispatch(s, d)
    ensures Inv(cfg, mem0, Dispatch(cfg, s, d))
  {
    hide InvShape, InvOrder, InvMaps, InvArch, InvCons, InvMode, InvPkg, InvOps, InvRegs, InvVals, InvLdq, InvStq,
      InvMem, Dispatch;
    DispatchMaps(cfg, mem0, s, d);
    DispatchOrder(cfg, s, d);
    DispatchMode(cfg, s, d);
    DispatchOps(cfg, s, d);
    DispatchRegs(cfg, s, d);
    DispatchLdq(cfg, s, d);
    DispatchStq(cfg, s, d);
    DispatchMem(cfg, s, d);
  }
}
