// Retiring one entry of the commit package keeps the invariant.
module ProofCommit {
  import opened DynInsn
  import opened LoopQueue
  import L = LsqSpec
  import R = RcuSpec
  import opened Backend
  import opened BackendInv
  import opened Registers

  // ---- what kind of entry can be at the header ------------------------------------------------

  // A header entry in the package either retires normally, or is the trap the rollback
  // waits for; the rollback entry retires alone.
  lemma HeaderKinds(rob: Queue<R.RobEntry>, mode: R.RobState, tag: nat, pkg: nat, released: bool)
    requires rob.Valid() && tag < rob.size && pkg > 0
    requires TagOk(rob, mode, tag) && FaultsBehind(rob, mode, tag) && PkgOk(rob, mode, tag, pkg)
    requires ReleasedOk(rob.elems, mode, released)
    ensures rob.elems != [] && rob.elems[0].done
    ensures rob.elems[0].fault.Some? ==> mode == R.WaitForResume && rob.head == tag && released
    ensures mode == R.WaitForResume && rob.head == tag ==> |rob.elems| == 1
    ensures Recovering(mode) && !(mode == R.WaitForResume && rob.head == tag) ==> rob.Dist(tag) >= 1
    ensures rob.elems[0].fault.None? && |rob.elems| == 1 ==> !released
  {
  }

  // ---- the reorder buffer -----------------------------------------------------------------------

  lemma PopOrder(rob: Queue<R.RobEntry>, robTag: map<nat, nat>, dead: set<nat>, held: nat, ids: seq<nat>, bound: nat)
    requires rob.Valid() && rob.elems != [] && 1 <= held <= |rob.elems|
    requires RobSorted(rob.elems, bound) && TagsMatch(rob, robTag) && NotDead(rob.elems[..held], dead)
    requires CommitsOk(ids, dead, rob.elems, bound)
    ensures RobSorted(rob.Pop().elems, bound) && TagsMatch(rob.Pop(), robTag)
    ensures NotDead(rob.Pop().elems[..held - 1], dead)
    ensures CommitsOk(ids + [rob.elems[0].id], dead, rob.Pop().elems, bound)
  {
    forall k | 0 <= k < |rob.Pop().elems| ensures rob.Pop().Dist(robTag[rob.Pop().elems[k].id]) == k {
      assert rob.Pop().elems[k] == rob.elems[k + 1];
      PopShifts(rob, robTag[rob.elems[k + 1].id]);
    }
    assert rob.elems[..held][0] == rob.elems[0];
    assert rob.Pop().elems[..held - 1] == rob.elems[..held][1..];
  }

  lemma PopChains(cfg: Config, rob: seq<R.RobEntry>, maps: seq<seq<nat>>, archs: seq<Arch>)
    requires rob != [] && |maps| == |archs| == |rob| + 1
    requires MapsChain(rob, maps) && ArchChain(cfg, rob, archs) && MapsOk(maps, cfg.regCount) && ArchsOk(archs)
    ensures MapsChain(rob[1..], maps[1..]) && ArchChain(cfg, rob[1..], archs[1..])
    ensures MapsOk(maps[1..], cfg.regCount) && ArchsOk(archs[1..])
  {
  }

  lemma PopCons(regCount: nat, r: R.Rcu, maps: seq<seq<nat>>, held: seq<R.RobEntry>)
    requires regCount >= 2 && r.Valid() && held != [] && |maps| >= 2 && R.EntryInRange(held[0], |r.regs|)
    requires MapStep(maps[0], maps[1], held[0]) && Conserved(regCount, r.free, maps[0], held)
    ensures Conserved(regCount, R.RetireRegs(r, held[0]).free, maps[1], held[1..])
  {
    var e := held[0];
    assert Dests(held) == [e.phyRd] + Dests(held[1..]);
    if e.d.Writes() {
      assert multiset(maps[1]) == multiset(maps[0]) - multiset{e.lphyRd} + multiset{e.phyRd};
    }
  }

  lemma PopRegs(cfg: Config, r: R.Rcu, maps: seq<seq<nat>>, archs: seq<Arch>, held: nat)
    requires cfg.Valid() && r.Valid() && r.rob.elems != [] && 1 <= held <= |r.rob.elems|
    requires |maps| == |archs| == |r.rob.elems| + 1 && MapsOk(maps, cfg.regCount) && ArchsOk(archs)
    requires r.rob.elems[0].done && r.rob.elems[0].fault.None? && |r.regs| == cfg.regCount
    requires MapsChain(r.rob.elems, maps) && ArchChain(cfg, r.rob.elems, archs)
    requires Conserved(cfg.regCount, r.free, maps[0], r.rob.elems[..held])
    requires ArchHeld(maps[0], archs[0].x, r.busy, r.regs) && ResultsHeld(r.rob.elems[..held], archs, r.busy, r.regs)
    requires DoneHeld(r.rob.elems, r.busy)
    requires forall k :: held <= k < |r.rob.elems| ==> r.rob.elems[k].fault.Some?
    ensures var r' := R.RetireRegs(r, r.rob.elems[0]);
      && ArchHeld(maps[1], archs[1].x, r'.busy, r'.regs)
      && ResultsHeld(r.rob.elems[..held][1..], archs[1..], r'.busy, r'.regs)
      && DoneHeld(r.rob.elems[1..], r'.busy)
  {
    var e := r.rob.elems[0];
    var hs := r.rob.elems[..held];
    assert hs[0] == e;
    assert MapStep(maps[0], maps[1], e) && archs[1] == SeqStep(cfg, archs[0], e.d);
    assert TableOk(maps[0], cfg.regCount) && |archs[0].x| == ISA_REGS;
    if e.d.Writes() && e.lphyRd != 0 {
      MappingIsFresh(cfg.regCount, r.free, maps[0], hs, e.d.isaRd);
    }
    forall k | 0 <= k < |r.rob.elems[1..]| && r.rob.elems[1..][k].done && r.rob.elems[1..][k].fault.None?
      && r.rob.elems[1..][k].d.Writes()
      ensures Done(R.RetireRegs(r, e).busy, r.rob.elems[1..][k].phyRd)
    {
      assert r.rob.elems[1..][k] == r.rob.elems[k + 1] == hs[k + 1];
    }
  }

  // ---- recovery state ---------------------------------------------------------------------------

  lemma PopMode(r: R.Rcu, pkg: nat, released: bool)
    requires r.rob.Valid() && r.tag < r.rob.size && pkg > 0
    requires TagOk(r.rob, r.mode, r.tag) && FaultsBehind(r.rob, r.mode, r.tag) && PkgOk(r.rob, r.mode, r.tag, pkg)
    requires ReleasedOk(r.rob.elems, r.mode, released) && ReleasedSafe(r.rob, r.mode, r.tag, released)
      && EntriesOk(r.rob.elems) && CauseOk(r.rob, r.mode, r.tag, r.excp)
    ensures var q := r.rob.Pop();
      var mode := if r.mode == R.WaitForResume && r.rob.head == r.tag then R.FlushBackend else r.mode;
      && TagOk(q, mode, r.tag) && FaultsBehind(q, mode, r.tag) && PkgOk(q, mode, r.tag, pkg - 1)
      && ReleasedOk(q.elems, mode, released && |r.rob.elems| > 1)
      && ReleasedSafe(q, mode, r.tag, released && |r.rob.elems| > 1) && EntriesOk(q.elems) && CauseOk(q, mode, r.tag, r.excp)
  {
  }

  // ---- operations -------------------------------------------------------------------------------

  lemma PopDist(rob: Queue<R.RobEntry>, maps: seq<seq<nat>>, ops: map<nat, Op>, id: nat)
    requires rob.Valid() && rob.elems != [] && rob.elems[0].done && |maps| == |rob.elems| + 1 && id in ops
    requires OpsTied(rob, maps, ops) && ops[id].robTag < rob.size
    ensures LiveOp(rob.Pop(), ops[id]) <==> LiveOp(rob, ops[id])
    ensures LiveOp(rob, ops[id]) ==> rob.Pop().Dist(ops[id].robTag) == rob.Dist(ops[id].robTag) - 1
  {
  }

  lemma PopOps(cfg: Config, rob: Queue<R.RobEntry>, maps: seq<seq<nat>>, archs: seq<Arch>, ops: map<nat, Op>,
      robTag: map<nat, nat>)
    requires rob.Valid() && rob.elems != [] && rob.elems[0].done && |maps| == |archs| == |rob.elems| + 1
    requires rob.size == cfg.robSize && OpsShape(cfg, ops, robTag)
    requires OpsTied(rob, maps, ops) && ValsOk(cfg, rob, archs, ops)
    ensures OpsTied(rob.Pop(), maps[1..], ops) && ValsOk(cfg, rob.Pop(), archs[1..], ops)
  {
    hide OperandsOk, StageOk;
    forall id | id in ops && LiveOp(rob.Pop(), ops[id])
      ensures Tied(rob.Pop().elems[rob.Pop().Dist(ops[id].robTag)], maps[1..][rob.Pop().Dist(ops[id].robTag)], id, ops[id])
      ensures OperandsOk(archs[1..][rob.Pop().Dist(ops[id].robTag)], ops[id])
      ensures StageOk(cfg, archs[1..][rob.Pop().Dist(ops[id].robTag)], ops[id])
    {
      PopDist(rob, maps, ops, id);
    }
  }

  lemma PopSquashed(cfg: Config, r: R.Rcu, maps: seq<seq<nat>>, ops: map<nat, Op>, robTag: map<nat, nat>,
      dead: set<nat>, free': seq<nat>)
    requires r.rob.Valid() && r.rob.elems != [] && r.rob.elems[0].done && |maps| == |r.rob.elems| + 1
    requires r.rob.size == cfg.robSize && OpsShape(cfg, ops, robTag) && r.tag < r.rob.size
    requires OpsTied(r.rob, maps, ops) && OpsSquashed(r.rob, r.mode, ops, dead, r.free)
    requires BranchOk(r.rob, r.mode, r.tag, ops) && (Recovering(r.mode) ==> r.rob.Dist(r.tag) >= 1)
    requires forall p :: p in r.free ==> p in free'
    ensures OpsSquashed(r.rob.Pop(), r.mode, ops, dead, free') && BranchOk(r.rob.Pop(), r.mode, r.tag, ops)
  {
    forall id | id in ops ensures LiveOp(r.rob.Pop(), ops[id]) <==> LiveOp(r.rob, ops[id]) {
      PopDist(r.rob, maps, ops, id);
    }
    PopShifts(r.rob, r.tag);
  }

  lemma PopForwarded(cfg: Config, r: R.Rcu, maps: seq<seq<nat>>, ops: map<nat, Op>, robTag: map<nat, nat>, held: nat)
    requires cfg.Valid() && r.Valid() && r.rob.elems != [] && r.rob.elems[0].done && |maps| == |r.rob.elems| + 1
    requires r.rob.size == cfg.robSize && OpsShape(cfg, ops, robTag) && OpsTied(r.rob, maps, ops)
    requires 1 <= held <= |r.rob.elems| && (forall k :: held <= k < |r.rob.elems| ==> r.rob.elems[k].done)
    requires MapStep(maps[0], maps[1], r.rob.elems[0])
    requires Conserved(cfg.regCount, r.free, maps[0], r.rob.elems[..held]) && ForwardedDone(r.rob, ops, r.busy)
    ensures ForwardedDone(r.rob.Pop(), ops, R.RetireRegs(r, r.rob.elems[0]).busy)
  {
    var e := r.rob.elems[0];
    var hs := r.rob.elems[..held];
    forall id | id in ops && LiveOp(r.rob.Pop(), ops[id]) && ops[id].stage.Forwarded? && ops[id].d.Writes()
      ensures Done(R.RetireRegs(r, e).busy, ops[id].phyRd)
    {
      PopDist(r.rob, maps, ops, id);
      var k := r.rob.Dist(ops[id].robTag);
      assert hs[k].phyRd == ops[id].phyRd;
      if e.d.Writes() && e.lphyRd != 0 {
        MappingIsFresh(cfg.regCount, r.free, maps[0], hs, e.d.isaRd);
      }
    }
  }

  // ---- load queue -------------------------------------------------------------------------------

  // The header load's own entry, and what retiring it changes.
  lemma RetireLoadAt(rob: seq<R.RobEntry>, held: nat, l: L.Lsq)
    requires l.Valid() && rob != [] && 1 <= held <= |rob| && rob[0].d.fu == LDU && rob[0].done && rob[0].fault.None?
    requires R.TagInRange(rob[0], l.ldq.size, l.stq.size) && RobLoads(rob, held, l.ldq) && LoadsDone(rob, l.ldq)
    ensures var j := l.ldq.Dist(rob[0].lsqTag);
      && 0 <= j < |l.ldq.elems| && Active(l.ldq.elems[j]) && l.ldq.elems[j].id == rob[0].id
      && l.ldq.elems[j].state == L.LoadExecuted
      && R.RetireLsq(l, rob[0]) == l.(ldq := l.ldq.(elems := l.ldq.elems[j := l.ldq.elems[j].(commited := true)]))
  {
  }

  lemma RetireRobLoads(rob: seq<R.RobEntry>, held: nat, l: L.Lsq, dead: set<nat>, bound: nat)
    requires l.Valid() && rob != [] && 1 <= held <= |rob| && rob[0].done && rob[0].fault.None?
    requires R.TagInRange(rob[0], l.ldq.size, l.stq.size) && RobSorted(rob, bound)
    requires RobLoads(rob, held, l.ldq) && LoadsDone(rob, l.ldq) && LoadsRetired(l.ldq.elems, dead, rob)
    ensures var ldq' := R.RetireLsq(l, rob[0]).ldq;
      RobLoads(rob[1..], held - 1, ldq') && LoadsDone(rob[1..], ldq') && LoadsRetired(ldq'.elems, dead, rob[1..])
  {
    if rob[0].d.fu == LDU {
      RetireLoadAt(rob, held, l);
    }
  }

  // Active loads other than the header's keep their positions, one step closer to the header.
  lemma ActiveShift(rob: Queue<R.RobEntry>, held: nat, robTag: map<nat, nat>, l: L.Lsq, j: nat)
    requires l.Valid() && rob.Valid() && rob.elems != [] && 1 <= held <= |rob.elems|
    requires rob.elems[0].done && rob.elems[0].fault.None?
    requires R.TagInRange(rob.elems[0], l.ldq.size, l.stq.size) && TagsMatch(rob, robTag)
    requires RobLoads(rob.elems, held, l.ldq) && LoadsDone(rob.elems, l.ldq) && LoadsTied(rob, held, robTag, l.ldq)
    requires j < |l.ldq.elems| && Active(R.RetireLsq(l, rob.elems[0]).ldq.elems[j])
    ensures R.RetireLsq(l, rob.elems[0]).ldq.elems[j] == l.ldq.elems[j]
    ensures 1 <= IdPos(rob, robTag, l.ldq.elems[j].id) < held
    ensures IdPos(rob.Pop(), robTag, l.ldq.elems[j].id) == IdPos(rob, robTag, l.ldq.elems[j].id) - 1
  {
  }

  lemma RetireLoadsTied(cfg: Config, rob: Queue<R.RobEntry>, held: nat, robTag: map<nat, nat>, archs: seq<Arch>, l: L.Lsq)
    requires l.Valid() && rob.Valid() && rob.elems != [] && 1 <= held <= |rob.elems| && |archs| == |rob.elems| + 1
    requires rob.elems[0].done && rob.elems[0].fault.None?
    requires R.TagInRange(rob.elems[0], l.ldq.size, l.stq.size) && TagsMatch(rob, robTag)
    requires RobLoads(rob.elems, held, l.ldq) && LoadsDone(rob.elems, l.ldq) && LoadsTied(rob, held, robTag, l.ldq)
    requires LoadAddrs(cfg, rob, robTag, archs, l.ldq.elems)
    ensures var ldq' := R.RetireLsq(l, rob.elems[0]).ldq;
      LoadsTied(rob.Pop(), held - 1, robTag, ldq') && LoadAddrs(cfg, rob.Pop(), robTag, archs[1..], ldq'.elems)
  {
    hide Address;
    var ldq' := R.RetireLsq(l, rob.elems[0]).ldq;
    forall j | 0 <= j < |ldq'.elems| && Active(ldq'.elems[j])
      ensures ldq'.elems[j] == l.ldq.elems[j] && 1 <= IdPos(rob, robTag, l.ldq.elems[j].id) < held
      ensures IdPos(rob.Pop(), robTag, l.ldq.elems[j].id) == IdPos(rob, robTag, l.ldq.elems[j].id) - 1
    {
      ActiveShift(rob, held, robTag, l, j);
    }
  }

  lemma RetireResps(cfg: Config, rob: Queue<R.RobEntry>, held: nat, robTag: map<nat, nat>, archs: seq<Arch>, l: L.Lsq,
      lresp: map<nat, Resp>)
    requires l.Valid() && rob.Valid() && rob.elems != [] && 1 <= held <= |rob.elems| && |archs| == |rob.elems| + 1
    requires rob.elems[0].done && rob.elems[0].fault.None?
    requires R.TagInRange(rob.elems[0], l.ldq.size, l.stq.size) && TagsMatch(rob, robTag)
    requires RobLoads(rob.elems, held, l.ldq) && LoadsDone(rob.elems, l.ldq) && LoadsTied(rob, held, robTag, l.ldq)
    requires RespsTied(l.ldq, lresp) && RespsOk(cfg, rob, robTag, archs, l.ldq, lresp)
    ensures var ldq' := R.RetireLsq(l, rob.elems[0]).ldq;
      RespsTied(ldq', lresp) && RespsOk(cfg, rob.Pop(), robTag, archs[1..], ldq', lresp)
  {
    hide ResultOk;
    var ldq' := R.RetireLsq(l, rob.elems[0]).ldq;
    forall slot | slot in lresp && 0 <= ldq'.Dist(slot) < |ldq'.elems| && Active(ldq'.elems[ldq'.Dist(slot)])
                  && 0 <= IdPos(rob.Pop(), robTag, ldq'.elems[ldq'.Dist(slot)].id) < |archs[1..]|
      ensures ResultOk(cfg, archs[1..][IdPos(rob.Pop(), robTag, ldq'.elems[ldq'.Dist(slot)].id)],
                       ldq'.elems[ldq'.Dist(slot)].d, lresp[slot].value, lresp[slot].fault)
    {
      ActiveShift(rob, held, robTag, l, ldq'.Dist(slot));
    }
  }

  lemma RetireLoadOps(rob: seq<R.RobEntry>, held: nat, l: L.Lsq, ops: map<nat, Op>)
    requires l.Valid() && rob != [] && 1 <= held <= |rob| && rob[0].done && rob[0].fault.None?
    requires R.TagInRange(rob[0], l.ldq.size, l.stq.size) && RobLoads(rob, held, l.ldq) && LoadsDone(rob, l.ldq)
    requires LoadStages(l.ldq.elems, ops) && LoadOps(l.ldq, ops)
    ensures var ldq' := R.RetireLsq(l, rob[0]).ldq;
      LoadStages(ldq'.elems, ops) && LoadOps(ldq', ops)
  {
  }

  // ---- store queue ------------------------------------------------------------------------------

  lemma RetireStoreAt(rob: seq<R.RobEntry>, held: nat, l: L.Lsq)
    requires l.Valid() && rob != [] && 1 <= held <= |rob| && rob[0].d.fu == STU
    requires R.TagInRange(rob[0], l.ldq.size, l.stq.size) && RobStores(rob, held, l.stq)
    ensures var j := l.stq.Dist(rob[0].lsqTag);
      && 0 <= j < |l.stq.elems| && !l.stq.elems[j].commited && l.stq.elems[j].id == rob[0].id && l.stq.elems[j].d == rob[0].d
      && R.RetireLsq(l, rob[0]) == l.(stq := l.stq.(elems := l.stq.elems[j := l.stq.elems[j].(commited := true)]))
  {
  }

  lemma RetireRobStores(cfg: Config, rob: seq<R.RobEntry>, held: nat, archs: seq<Arch>, l: L.Lsq, bound: nat)
    requires l.Valid() && rob != [] && 1 <= held <= |rob| && |archs| == |rob| + 1
    requires R.TagInRange(rob[0], l.ldq.size, l.stq.size) && RobSorted(rob, bound)
    requires RobStores(rob, held, l.stq) && StoreData(cfg, rob, archs, l.stq) && StoresRetired(l.stq.elems, rob)
    requires StoresInOrder(l.stq.elems)
    ensures var stq' := R.RetireLsq(l, rob[0]).stq;
      && RobStores(rob[1..], held - 1, stq') && StoreData(cfg, rob[1..], archs[1..], stq')
      && StoresRetired(stq'.elems, rob[1..]) && StoresInOrder(stq'.elems)
  {
    hide Address, OperandB;
    if rob[0].d.fu == STU {
      RetireStoreAt(rob, held, l);
    }
  }

  lemma RetireStoresTied(rob: Queue<R.RobEntry>, held: nat, robTag: map<nat, nat>, l: L.Lsq)
    requires l.Valid() && rob.Valid() && rob.elems != [] && 1 <= held <= |rob.elems|
    requires R.TagInRange(rob.elems[0], l.ldq.size, l.stq.size) && TagsMatch(rob, robTag)
    requires RobStores(rob.elems, held, l.stq) && StoresTied(rob, held, robTag, l.stq)
    ensures StoresTied(rob.Pop(), held - 1, robTag, R.RetireLsq(l, rob.elems[0]).stq)
  {
    if rob.elems[0].d.fu == STU {
      RetireStoreAt(rob.elems, held, l);
    }
    var stq' := R.RetireLsq(l, rob.elems[0]).stq;
    forall j | 0 <= j < |stq'.elems| && !stq'.elems[j].commited
      ensures stq'.elems[j] == l.stq.elems[j] && 1 <= IdPos(rob, robTag, l.stq.elems[j].id) < held
      ensures IdPos(rob.Pop(), robTag, l.stq.elems[j].id) == IdPos(rob, robTag, l.stq.elems[j].id) - 1
    {
      PopShifts(rob, robTag[l.stq.elems[j].id]);
    }
  }

  lemma RetireKept(rob: seq<R.RobEntry>, held: nat, l: L.Lsq, ids: seq<nat>)
    requires l.Valid() && rob != [] && 1 <= held <= |rob|
    requires R.TagInRange(rob[0], l.ldq.size, l.stq.size) && RobStores(rob, held, l.stq) && StoresKept(l.stq.elems, ids)
    ensures StoresKept(R.RetireLsq(l, rob[0]).stq.elems, ids + [rob[0].id])
  {
  }

  lemma RetireStoreOps(rob: seq<R.RobEntry>, held: nat, l: L.Lsq, ops: map<nat, Op>, sresp: map<nat, nat>)
    requires l.Valid() && rob != [] && 1 <= held <= |rob|
    requires R.TagInRange(rob[0], l.ldq.size, l.stq.size) && RobStores(rob, held, l.stq)
    requires StoreOps(l.stq, ops) && StoreResps(l.stq, sresp)
    ensures StoreOps(R.RetireLsq(l, rob[0]).stq, ops) && StoreResps(R.RetireLsq(l, rob[0]).stq, sresp)
  {
    if rob[0].d.fu == STU {
      RetireStoreAt(rob, held, l);
    }
  }

  // ---- memory -----------------------------------------------------------------------------------

  lemma {:induction false} NothingPending(cfg: Config, mem: Mem, q: seq<L.StqEntry>)
    requires forall i :: 0 <= i < |q| ==> !Pending(q[i])
    ensures Drain(cfg, mem, q) == mem
    decreases |q|
  {
    if q != [] {
      NothingPending(cfg, mem, q[1..]);
    }
  }

  // Committing the oldest uncommitted store appends its write to the pending ones.
  lemma {:induction false} DrainCommit(cfg: Config, mem: Mem, q: seq<L.StqEntry>, j: nat)
    requires j < |q| && q[j].state == L.StoreWaitSend && forall i :: j <= i < |q| ==> !q[i].commited
    ensures Drain(cfg, mem, q[j := q[j].(commited := true)]) == cfg.store(Drain(cfg, mem, q), q[j].d, q[j].address, q[j].data)
    decreases |q|
  {
    var q' := q[j := q[j].(commited := true)];
    if j == 0 {
      assert q'[1..] == q[1..];
      NothingPending(cfg, cfg.store(mem, q[0].d, q[0].address, q[0].data), q[1..]);
      NothingPending(cfg, mem, q);
    } else {
      var mem' := if Pending(q[0]) then cfg.store(mem, q[0].d, q[0].address, q[0].data) else mem;
      DrainCommit(cfg, mem', q[1..], j - 1);
      assert q'[1..] == q[1..][j - 1 := q[1..][j - 1].(commited := true)];
    }
  }

  lemma RetireDrain(cfg: Config, mem: Mem, rob: seq<R.RobEntry>, held: nat, archs: seq<Arch>, l: L.Lsq, bound: nat)
    requires l.Valid() && rob != [] && 1 <= held <= |rob| && |archs| == |rob| + 1
    requires rob[0].done && rob[0].fault.None? && R.TagInRange(rob[0], l.ldq.size, l.stq.size)
    requires StqSorted(l.stq.elems, bound) && RobStores(rob, held, l.stq) && StoreData(cfg, rob, archs, l.stq)
    requires StoresRetired(l.stq.elems, rob)
      && (forall j :: 0 <= j < |l.stq.elems| && !l.stq.elems[j].commited ==> l.stq.elems[j].state == L.StoreWaitSend)
    requires Drain(cfg, mem, l.stq.elems) == archs[0].mem && archs[1] == SeqStep(cfg, archs[0], rob[0].d)
    ensures Drain(cfg, mem, R.RetireLsq(l, rob[0]).stq.elems) == archs[1].mem
  {
    if rob[0].d.fu == STU {
      RetireStoreAt(rob, held, l);
      var j := l.stq.Dist(rob[0].lsqTag);
      assert forall i :: j <= i < |l.stq.elems| ==> !l.stq.elems[i].commited;
      DrainCommit(cfg, mem, l.stq.elems, j);
    }
  }

  lemma RetireDeps(rob: seq<R.RobEntry>, held: nat, l: L.Lsq, trace: seq<nat>, dead: set<nat>)
    requires l.Valid() && rob != [] && 1 <= held <= |rob| && rob[0].done && rob[0].fault.None?
    requires R.TagInRange(rob[0], l.ldq.size, l.stq.size)
    requires RobLoads(rob, held, l.ldq) && LoadsDone(rob, l.ldq) && RobStores(rob, held, l.stq)
    requires DepsOk(l.ldq.elems, l.stq)
    requires TraceBeforeStores(trace, dead, l.stq.elems) && TraceBeforeLoads(trace, dead, l.ldq.elems)
    ensures var l' := R.RetireLsq(l, rob[0]);
      && DepsOk(l'.ldq.elems, l'.stq)
      && TraceBeforeStores(trace, dead, l'.stq.elems) && TraceBeforeLoads(trace, dead, l'.ldq.elems)
  {
    if rob[0].d.fu == LDU {
      RetireLoadAt(rob, held, l);
    } else if rob[0].d.fu == STU {
      RetireStoreAt(rob, held, l);
    }
  }

  // ---- the flush that follows the rollback entry ------------------------------------------------

  lemma NoOps(cfg: Config, r: R.Rcu, maps: seq<seq<nat>>, archs: seq<Arch>, robTag: map<nat, nat>, dead: set<nat>)
    requires |maps| == |archs| == |r.rob.elems| + 1 && r.rob.elems == []
    ensures OpsShape(cfg, map[], robTag) && OpsTied(r.rob, maps, map[]) && OpsSquashed(r.rob, r.mode, map[], dead, r.free)
    ensures BranchOk(r.rob, r.mode, r.tag, map[]) && ValsOk(cfg, r.rob, archs, map[]) && ForwardedDone(r.rob, map[], r.busy)
  {
  }

  // With an empty reorder buffer no active load is left to wait for an operation.
  lemma NoLoadOps(rob: Queue<R.RobEntry>, robTag: map<nat, nat>, ldq: Queue<L.LdqEntry>)
    requires rob.elems == [] && LoadsTied(rob, 0, robTag, ldq)
    ensures LoadStages(ldq.elems, map[]) && LoadOps(ldq, map[])
  {
  }

  lemma NoStoreOps(stq: Queue<L.StqEntry>)
    ensures StoreOps(stq, map[])
  {
  }

  lemma RetireLsqOrder(l: L.Lsq, e: R.RobEntry, bound: nat)
    requires l.Valid() && R.TagInRange(e, l.ldq.size, l.stq.size) && LdqSorted(l.ldq.elems, bound)
      && StqSorted(l.stq.elems, bound)
    ensures LdqSorted(R.RetireLsq(l, e).ldq.elems, bound) && StqSorted(R.RetireLsq(l, e).stq.elems, bound)
  {
  }

  // ---- assembly: an ordinary instruction retires ------------------------------------------------

  predicate Retires(cfg: Config, s: State) {
    && InvShape(cfg, s) && InvMode(s) && InvPkg(s) && CanCommitOne(s) && s.Rob()[0].fault.None?
  }

  lemma RetireFacts(cfg: Config, s: State)
    requires Retires(cfg, s)
    ensures R.CommitsNormally(s.Core()) && 1 <= s.Held() && s.Rob()[0].done
    ensures CommitOne(s).Held() == s.Held() - 1
    ensures CommitOne(s).Rob()[..s.Held() - 1] == s.Rob()[..s.Held()][1..]
    ensures CommitOne(s).rcu.rob == s.rcu.rob.Pop()
    ensures forall k :: s.Held() <= k < |s.Rob()| ==> s.Rob()[k].fault.Some? && s.Rob()[k].done
    ensures R.EntryInRange(s.Rob()[0], |s.rcu.regs|) && R.TagInRange(s.Rob()[0], s.lsq.ldq.size, s.lsq.stq.size)
    ensures R.ResumesAtCommit(s.Core()) ==> |s.Rob()| == 1
    ensures Recovering(s.rcu.mode) && !R.ResumesAtCommit(s.Core()) ==> s.rcu.rob.Dist(s.rcu.tag) >= 1
  {
    hide R.AllBelow, MapsOk, ArchsOk, PkgOk, TagOk, EntriesOk, CauseOk;
    HeaderKinds(s.rcu.rob, s.rcu.mode, s.rcu.tag, s.pkg, s.g.released);
  }

  lemma RetireShape(cfg: Config, s: State)
    requires Retires(cfg, s) && MapsOk(s.g.maps[1..], cfg.regCount) && ArchsOk(s.g.archs[1..])
    ensures InvShape(cfg, CommitOne(s))
  {
    hide MapsOk, ArchsOk, InvMode, PkgOk;
    RetireFacts(cfg, s);
  }

  lemma RetireMaps(cfg: Config, mem0: Mem, s: State)
    requires Retires(cfg, s) && InvMaps(cfg, s) && InvArch(cfg, mem0, s) && InvCons(cfg, s)
    ensures InvShape(cfg, CommitOne(s)) && InvMaps(cfg, CommitOne(s)) && InvArch(cfg, mem0, CommitOne(s))
      && InvCons(cfg, CommitOne(s))
  {
    hide R.AllBelow, R.EntriesInRange, R.TagsInRange, MapsOk, ArchsOk, AllValid, InvMode, PkgOk, Conserved, MapStep;
    RetireFacts(cfg, s);
    PopChains(cfg, s.Rob(), s.g.maps, s.g.archs);
    RetireShape(cfg, s);
    PopCons(cfg.regCount, s.rcu, s.g.maps, s.Rob()[..s.Held()]);
    assert CommitOne(s).g.committed[..|s.g.committed|] == s.g.committed;
  }

  lemma RetireOrder(cfg: Config, s: State)
    requires Retires(cfg, s) && InvOrder(s)
    ensures InvOrder(CommitOne(s))
  {
    hide R.AllBelow, R.EntriesInRange, R.TagsInRange, MapsOk, ArchsOk, AllValid, InvMode, PkgOk, RobSorted, LdqSorted,
      StqSorted, TagsMatch, IdsBelow, NotDead, CommitsOk;
    RetireFacts(cfg, s);
    PopOrder(s.rcu.rob, s.g.robTag, s.g.dead, s.Held(), s.g.commitIds, s.nextId);
    RetireLsqOrder(s.lsq, s.Rob()[0], s.nextId);
  }

  // The recovery state of CommitInsn's one turn.
  lemma CommitControl(s: State)
    requires CanCommitOne(s)
    ensures var s' := CommitOne(s);
      && s'.rcu.mode == (if R.ResumesAtCommit(s.Core()) then R.FlushBackend else s.rcu.mode)
      && s'.rcu.tag == s.rcu.tag && s'.rcu.excp == s.rcu.excp && s'.rcu.rob == s.rcu.rob.Pop() && s'.pkg == s.pkg - 1
      && s'.g.released == (s.g.released && |s.Rob()| > 1)
  {
  }

  lemma RetireMode(cfg: Config, s: State)
    requires Retires(cfg, s)
    ensures InvMode(CommitOne(s)) && InvPkg(CommitOne(s))
  {
    RetireFacts(cfg, s);
    CommitControl(s);
    hide R.AllBelow, R.EntriesInRange, R.TagsInRange, MapsOk, ArchsOk, AllValid, InvMode, PkgOk, CommitOne,
      R.CommitOne;
    PopMode(s.rcu, s.pkg, s.g.released);
  }

  lemma RetireOps(cfg: Config, s: State)
    requires Retires(cfg, s) && InvOps(cfg, s) && InvVals(cfg, s) && InvCons(cfg, s) && InvMaps(cfg, s)
    requires InvShape(cfg, CommitOne(s))
    ensures InvOps(cfg, CommitOne(s)) && InvVals(cfg, CommitOne(s))
  {
    hide R.AllBelow, R.EntriesInRange, R.TagsInRange, MapsOk, ArchsOk, AllValid, InvMode, PkgOk, Conserved, OpsShape,
      OpsTied, OpsSquashed, BranchOk, ValsOk, ForwardedDone, MapStep;
    RetireFacts(cfg, s);
    var e := s.Rob()[0];
    if R.ResumesAtCommit(s.Core()) {
      NoOps(cfg, CommitOne(s).rcu, CommitOne(s).g.maps, CommitOne(s).g.archs, s.g.robTag, s.g.dead);
    } else {
      PopOps(cfg, s.rcu.rob, s.g.maps, s.g.archs, s.ops, s.g.robTag);
      PopSquashed(cfg, s.rcu, s.g.maps, s.ops, s.g.robTag, s.g.dead, R.RetireRegs(s.rcu, e).free);
      PopForwarded(cfg, s.rcu, s.g.maps, s.ops, s.g.robTag, s.Held());
    }
  }

  lemma RetireRegsHeld(cfg: Config, mem0: Mem, s: State)
    requires Retires(cfg, s) && InvMaps(cfg, s) && InvArch(cfg, mem0, s) && InvCons(cfg, s) && InvRegs(cfg, s)
    requires InvShape(cfg, CommitOne(s))
    ensures InvRegs(cfg, CommitOne(s))
  {
    hide R.AllBelow, R.EntriesInRange, R.TagsInRange, MapsOk, ArchsOk, AllValid, InvMode, PkgOk, Conserved, ArchHeld,
      ResultsHeld, DoneHeld, MapsChain, ArchChain;
    RetireFacts(cfg, s);
    PopRegs(cfg, s.rcu, s.g.maps, s.g.archs, s.Held());
  }

  lemma RetireLdq(cfg: Config, s: State)
    requires Retires(cfg, s) && InvOrder(s) && InvLdq(cfg, s)
    ensures InvLdq(cfg, CommitOne(s))
  {
    hide R.AllBelow, R.EntriesInRange, R.TagsInRange, MapsOk, ArchsOk, AllValid, InvMode, PkgOk, RobSorted, LdqSorted,
      StqSorted, TagsMatch, IdsBelow, NotDead, CommitsOk, RobLoads, LoadsTied, LoadAddrs, LoadStages, LoadsDone,
      LoadsRetired, LoadOps, RespsTied, RespsOk;
    RetireFacts(cfg, s);
    var u := s.Held();
    RetireRobLoads(s.Rob(), u, s.lsq, s.g.dead, s.nextId);
    RetireLoadsTied(cfg, s.rcu.rob, u, s.g.robTag, s.g.archs, s.lsq);
    RetireResps(cfg, s.rcu.rob, u, s.g.robTag, s.g.archs, s.lsq, s.lresp);
    RetireLoadOps(s.Rob(), u, s.lsq, s.ops);
    if R.ResumesAtCommit(s.Core()) {
      NoLoadOps(s.rcu.rob.Pop(), s.g.robTag, CommitOne(s).lsq.ldq);
    }
  }

  lemma RetireStq(cfg: Config, s: State)
    requires Retires(cfg, s) && InvOrder(s) && InvStq(cfg, s) && InvShape(cfg, CommitOne(s))
    ensures InvStq(cfg, CommitOne(s))
  {
    hide R.AllBelow, R.EntriesInRange, R.TagsInRange, MapsOk, ArchsOk, AllValid, InvMode, PkgOk, RobSorted, LdqSorted,
      StqSorted, TagsMatch, IdsBelow, NotDead, CommitsOk, RobStores, StoreData, StoresTied, StoresRetired, StoresKept,
      StoreOps, StoreResps, StoresInOrder;
    RetireFacts(cfg, s);
    var u := s.Held();
    RetireRobStores(cfg, s.Rob(), u, s.g.archs, s.lsq, s.nextId);
    RetireStoresTied(s.rcu.rob, u, s.g.robTag, s.lsq);
    RetireStoreOps(s.Rob(), u, s.lsq, s.ops, s.sresp);
    RetireKept(s.Rob(), u, s.lsq, s.g.commitIds);
    NoStoreOps(CommitOne(s).lsq.stq);
  }

  lemma RetireMem(cfg: Config, mem0: Mem, s: State)
    requires Retires(cfg, s) && InvOrder(s) && InvArch(cfg, mem0, s) && InvLdq(cfg, s) && InvStq(cfg, s) && InvMem(cfg, s)
    requires InvShape(cfg, CommitOne(s))
    ensures InvMem(cfg, CommitOne(s))
  {
    hide R.AllBelow, R.EntriesInRange, R.TagsInRange, MapsOk, ArchsOk, AllValid, InvMode, PkgOk, RobSorted, LdqSorted,
      StqSorted, TagsMatch, IdsBelow, NotDead, CommitsOk, RobLoads, LoadsTied, LoadAddrs, LoadStages, LoadsDone,
      LoadsRetired, LoadOps, RespsTied, RespsOk, RobStores, StoreData, StoresRetired, StoresKept, StoreOps, StoreResps,
      StoresInOrder, DepsOk, Drain, TraceSorted, TraceBeforeStores, TraceBeforeLoads, SeqStep, IdPos;
    RetireFacts(cfg, s);
    RetireDrain(cfg, s.mem, s.Rob(), s.Held(), s.g.archs, s.lsq, s.nextId);
    RetireDeps(s.Rob(), s.Held(), s.lsq, s.g.trace, s.g.dead);
  }

  lemma RetireInv(cfg: Config, mem0: Mem, s: State)
    requires Inv(cfg, mem0, s) && Retires(cfg, s)
    ensures Inv(cfg, mem0, CommitOne(s))
  {
    hide InvShape, InvOrder, InvMaps, InvArch, InvCons, InvMode, InvPkg, InvOps, InvRegs, InvVals, InvLdq, InvStq,
      InvMem, CommitOne, Retires;
    RetireMaps(cfg, mem0, s);
    RetireOrder(cfg, s);
    RetireMode(cfg, s);
    RetireOps(cfg, s);
    RetireRegsHeld(cfg, mem0, s);
    RetireLdq(cfg, s);
    RetireStq(cfg, s);
    RetireMem(cfg, mem0, s);
  }

  // ---- assembly: the trap retires ---------------------------------------------------------------

  predicate Traps(cfg: Config, s: State) {
    && InvShape(cfg, s) && InvMode(s) && InvPkg(s) && CanCommitOne(s) && s.Rob()[0].fault.Some?
  }

  lemma TrapFacts(cfg: Config, s: State)
    requires Traps(cfg, s)
    ensures |s.Rob()| == 1 && s.g.released && s.Held() == 0 && s.rcu.mode == R.WaitForResume && s.rcu.rob.head == s.rcu.tag
    ensures R.ResumesAtCommit(s.Core()) && !R.CommitsNormally(s.Core()) && CommitOne(s).Rob() == [] && CommitOne(s).Held() == 0
    ensures s.Rob()[..0] == [] && CommitOne(s).Rob()[..0] == []
    ensures R.TrapAtCommit(s.Core()) == Some(R.Trap(s.Rob()[0].d.pc, s.rcu.excp))
  {
  }

  lemma TrapOrder(cfg: Config, s: State)
    requires Traps(cfg, s) && InvOrder(s)
    ensures InvOrder(CommitOne(s))
  {
    hide R.AllBelow, R.EntriesInRange, R.TagsInRange, MapsOk, ArchsOk, AllValid, InvMode, PkgOk, LdqSorted, StqSorted;
    TrapFacts(cfg, s);
  }

  lemma TrapMaps(cfg: Config, mem0: Mem, s: State)
    requires Traps(cfg, s) && InvMaps(cfg, s) && InvArch(cfg, mem0, s) && InvCons(cfg, s)
    ensures InvShape(cfg, CommitOne(s)) && InvMaps(cfg, CommitOne(s)) && InvArch(cfg, mem0, CommitOne(s))
      && InvCons(cfg, CommitOne(s))
  {
    hide R.AllBelow, InvMode, PkgOk, Conserved;
    TrapFacts(cfg, s);
  }

  lemma TrapMode(cfg: Config, s: State)
    requires Traps(cfg, s)
    ensures InvMode(CommitOne(s)) && InvPkg(CommitOne(s))
  {
    hide R.AllBelow, R.EntriesInRange, R.TagsInRange, MapsOk, ArchsOk, AllValid, TagOk, FaultsBehind, EntriesOk,
      CauseOk, ReleasedOk, ReleasedSafe, PkgOk;
    TrapFacts(cfg, s);
    PopMode(s.rcu, s.pkg, s.g.released);
  }

  lemma TrapOps(cfg: Config, s: State)
    requires Traps(cfg, s) && InvRegs(cfg, s) && InvShape(cfg, CommitOne(s))
    ensures InvOps(cfg, CommitOne(s)) && InvVals(cfg, CommitOne(s)) && InvRegs(cfg, CommitOne(s))
  {
    hide R.AllBelow, R.EntriesInRange, R.TagsInRange, MapsOk, ArchsOk, AllValid, InvMode, PkgOk, ArchHeld;
    TrapFacts(cfg, s);
    NoOps(cfg, CommitOne(s).rcu, CommitOne(s).g.maps, CommitOne(s).g.archs, s.g.robTag, CommitOne(s).g.dead);
  }

  lemma TrapLdq(cfg: Config, s: State)
    requires Traps(cfg, s) && InvLdq(cfg, s)
    ensures InvLdq(cfg, CommitOne(s))
  {
    hide R.AllBelow, R.EntriesInRange, R.TagsInRange, MapsOk, ArchsOk, AllValid, InvMode, PkgOk, InvOps, ResultOk,
      Address;
    TrapFacts(cfg, s);
    var ldq := s.lsq.ldq;
    assert forall j :: 0 <= j < |ldq.elems| ==> !Active(ldq.elems[j]);
    NoLoadOps(CommitOne(s).rcu.rob, s.g.robTag, ldq);
  }

  lemma TrapStq(cfg: Config, s: State)
    requires Traps(cfg, s) && InvStq(cfg, s) && InvShape(cfg, CommitOne(s))
    ensures InvStq(cfg, CommitOne(s))
  {
    hide R.AllBelow, R.EntriesInRange, R.TagsInRange, MapsOk, ArchsOk, AllValid, InvMode, PkgOk, StoreResps,
      StoresInOrder, StoresKept;
    TrapFacts(cfg, s);
  }

  lemma TrapMem(cfg: Config, s: State)
    requires Traps(cfg, s) && InvMem(cfg, s) && InvShape(cfg, CommitOne(s))
    ensures InvMem(cfg, CommitOne(s))
  {
    hide R.AllBelow, R.EntriesInRange, R.TagsInRange, MapsOk, ArchsOk, AllValid, InvMode, PkgOk, DepsOk, Drain;
    TrapFacts(cfg, s);
  }

  lemma TrapInv(cfg: Config, mem0: Mem, s: State)
    requires Inv(cfg, mem0, s) && Traps(cfg, s)
    ensures Inv(cfg, mem0, CommitOne(s))
  {
    hide InvShape, InvOrder, InvMaps, InvArch, InvCons, InvMode, InvPkg, InvOps, InvRegs, InvVals, InvLdq, InvStq,
      InvMem, CommitOne, Traps;
    TrapMaps(cfg, mem0, s);
    TrapOrder(cfg, s);
    TrapMode(cfg, s);
    TrapOps(cfg, s);
    TrapLdq(cfg, s);
    TrapStq(cfg, s);
    TrapMem(cfg, s);
  }

  lemma CommitInv(cfg: Config, mem0: Mem, s: State)
    requires Inv(cfg, mem0, s) && CanCommitOne(s)
    ensures Inv(cfg, mem0, CommitOne(s))
  {
    hide InvShape, InvOrder, InvMaps, InvArch, InvCons, InvMode, InvPkg, InvOps, InvRegs, InvVals, InvLdq, InvStq,
      InvMem, CommitOne;
    if s.Rob()[0].fault.None? {
      RetireInv(cfg, mem0, s);
    } else {
      TrapInv(cfg, mem0, s);
    }
  }
}
