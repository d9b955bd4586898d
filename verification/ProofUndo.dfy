// Releasing and removing the youngest entry keeps the invariant.
module ProofUndo {
  import opened DynInsn
  import opened LoopQueue
  import L = LsqSpec
  import R = RcuSpec
  import opened Backend
  import opened BackendInv
  import opened Registers
  import opened ProofDispatch

  // ---- registers --------------------------------------------------------------------------------

  function FreedList(r: R.Rcu): seq<nat>
    requires r.rob.elems != []
  { var e := R.Youngest(r); if e.d.Writes() then r.free + [e.phyRd] else r.free }

  function FreedBusy(r: R.Rcu): seq<R.Busy>
    requires r.rob.elems != [] && R.Youngest(r).phyRd < |r.busy|
  { var e := R.Youngest(r); if e.d.Writes() then r.busy[e.phyRd := R.Busy(false, false, false)] else r.busy }

  lemma ReleaseCons(regCount: nat, r: R.Rcu, m0: seq<nat>, n: nat)
    requires regCount >= 2 && |r.rob.elems| == n > 0
    requires R.Youngest(r).d.Writes() <==> R.Youngest(r).phyRd != 0
    requires Conserved(regCount, r.free, m0, r.rob.elems)
    ensures Conserved(regCount, FreedList(r), m0, r.rob.elems[..n - 1])
  {
    assert Dests(r.rob.elems) == Dests(r.rob.elems[..n - 1]) + [r.rob.elems[n - 1].phyRd];
  }

  // Returning the youngest writer's register leaves every other value in place.
  lemma ReleaseRegs(cfg: Config, r: R.Rcu, m0: seq<nat>, archs: seq<Arch>, n: nat)
    requires cfg.Valid() && r.Valid() && |r.rob.elems| == n > 0 && |archs| == n + 1
    requires R.Youngest(r).d.Writes() <==> R.Youngest(r).phyRd != 0
    requires Conserved(cfg.regCount, r.free, m0, r.rob.elems)
    requires ArchHeld(m0, archs[0].x, r.busy, r.regs) && ResultsHeld(r.rob.elems, archs, r.busy, r.regs)
    requires DoneHeld(r.rob.elems, r.busy)
    ensures ArchHeld(m0, archs[0].x, FreedBusy(r), r.regs)
    ensures ResultsHeld(r.rob.elems[..n - 1], archs, FreedBusy(r), r.regs) && DoneHeld(r.rob.elems[..n - 1], FreedBusy(r))
  {
    if R.Youngest(r).d.Writes() {
      TargetIsFresh(cfg.regCount, r.free, m0, r.rob.elems, n - 1);
    }
  }

  lemma ReleaseForwarded(cfg: Config, r: R.Rcu, maps: seq<seq<nat>>, ops: map<nat, Op>)
    requires cfg.Valid() && r.Valid() && r.rob.elems != [] && |maps| == |r.rob.elems| + 1
    requires Conserved(cfg.regCount, r.free, maps[0], r.rob.elems) && OpsTied(r.rob, maps, ops)
    requires ForwardedDone(r.rob, ops, r.busy) && R.Youngest(r).d.Writes() && R.Youngest(r).phyRd != 0
    requires |r.busy| == |r.regs|
    ensures ForwardedDone(r.rob.DropLatest(), ops, FreedBusy(r))
    ensures R.Youngest(r).done ==> ForwardedDone(r.rob, ops, FreedBusy(r))
  {
    TargetIsFresh(cfg.regCount, r.free, maps[0], r.rob.elems, |r.rob.elems| - 1);
  }

  // ---- dropping the youngest entry --------------------------------------------------------------

  lemma DropOrder(rob: Queue<R.RobEntry>, robTag: map<nat, nat>, dead: set<nat>, held: nat, ids: seq<nat>, bound: nat)
    requires rob.Valid() && rob.elems != [] && |rob.elems| - 1 <= held <= |rob.elems|
    requires RobSorted(rob.elems, bound) && TagsMatch(rob, robTag) && NotDead(rob.elems[..held], dead)
    requires CommitsOk(ids, dead, rob.elems, bound) && IdsBelow(dead, bound)
    ensures var n := |rob.elems|;
      var dead' := dead + {rob.elems[n - 1].id};
      && RobSorted(rob.DropLatest().elems, bound) && TagsMatch(rob.DropLatest(), robTag)
      && NotDead(rob.DropLatest().elems, dead') && CommitsOk(ids, dead', rob.elems, bound)
        && CommitsOk(ids, dead', rob.DropLatest().elems, bound)
      && IdsBelow(dead', bound)
  {
  }

  lemma DropChains(cfg: Config, rob: seq<R.RobEntry>, maps: seq<seq<nat>>, archs: seq<Arch>)
    requires rob != [] && |maps| == |archs| == |rob| + 1
    requires MapsChain(rob, maps) && ArchChain(cfg, rob, archs) && MapsOk(maps, cfg.regCount) && ArchsOk(archs)
    ensures var n := |rob|;
      && MapsChain(rob[..n - 1], maps[..n]) && ArchChain(cfg, rob[..n - 1], archs[..n])
      && MapsOk(maps[..n], cfg.regCount) && ArchsOk(archs[..n])
  {
  }

  lemma DropMode(r: R.Rcu, pkg: nat, released: bool)
    requires r.rob.Valid() && r.tag < r.rob.size && r.mode == R.Undo && r.rob.elems != []
    requires r.rob.Dist(r.tag) < |r.rob.elems| - 1
    requires TagOk(r.rob, r.mode, r.tag) && FaultsBehind(r.rob, r.mode, r.tag) && EntriesOk(r.rob.elems)
    requires CauseOk(r.rob, r.mode, r.tag, r.excp) && PkgOk(r.rob, r.mode, r.tag, pkg)
    ensures var q := r.rob.DropLatest();
      && TagOk(q, R.Undo, r.tag) && FaultsBehind(q, R.Undo, r.tag) && EntriesOk(q.elems) && CauseOk(q, R.Undo, r.tag, r.excp)
      && ReleasedOk(q.elems, R.Undo, false) && ReleasedSafe(q, R.Undo, r.tag, false) && PkgOk(q, R.Undo, r.tag, pkg)
  {
  }

  lemma DropOps(cfg: Config, rob: Queue<R.RobEntry>, maps: seq<seq<nat>>, archs: seq<Arch>, ops: map<nat, Op>)
    requires rob.Valid() && rob.elems != [] && |maps| == |archs| == |rob.elems| + 1
    requires OpsTied(rob, maps, ops) && ValsOk(cfg, rob, archs, ops)
    ensures OpsTied(rob.DropLatest(), maps[..|rob.elems|], ops) && ValsOk(cfg, rob.DropLatest(), archs[..|rob.elems|], ops)
  {
    hide OperandsOk, StageOk;
  }

  lemma DropSquashed(rob: Queue<R.RobEntry>, maps: seq<seq<nat>>, tag: nat, ops: map<nat, Op>, dead: set<nat>,
      free: seq<nat>, free': seq<nat>)
    requires rob.Valid() && rob.elems != [] && |maps| == |rob.elems| + 1 && 0 <= rob.Dist(tag) < |rob.elems| - 1
    requires OpsTied(rob, maps, ops) && OpsSquashed(rob, R.Undo, ops, dead, free) && BranchOk(rob, R.Undo, tag, ops)
    requires forall p :: p in free ==> p in free'
    requires var e := rob.elems[|rob.elems| - 1]; e.d.Writes() && !e.done ==> e.phyRd in free'
    ensures OpsSquashed(rob.DropLatest(), R.Undo, ops, dead + {rob.elems[|rob.elems| - 1].id}, free')
    ensures BranchOk(rob.DropLatest(), R.Undo, tag, ops)
  {
  }

  lemma DropForwarded(rob: Queue<R.RobEntry>, ops: map<nat, Op>, busy: seq<R.Busy>)
    requires rob.Valid() && rob.elems != [] && ForwardedDone(rob, ops, busy)
    ensures ForwardedDone(rob.DropLatest(), ops, busy)
  {
  }

  lemma DropResults(held: seq<R.RobEntry>, archs: seq<Arch>, busy: seq<R.Busy>, regs: seq<Val>)
    requires |archs| == |held| + 2 && ResultsHeld(held, archs, busy, regs)
    ensures ResultsHeld(held, archs[..|held| + 1], busy, regs)
  {
  }

  lemma MoreDead(ldq: seq<L.LdqEntry>, dead: set<nat>, id: nat, rob: seq<R.RobEntry>)
    requires LoadsRetired(ldq, dead, rob)
    ensures LoadsRetired(ldq, dead + {id}, rob)
  {
  }

  lemma KillLdqOrder(e: R.RobEntry, l: L.Lsq, bound: nat)
    requires l.Valid() && R.TagInRange(e, l.ldq.size, l.stq.size) && LdqSorted(l.ldq.elems, bound)
    ensures LdqSorted(KilledLdq(e, l).elems, bound)
  {
  }

  // ---- load queue -------------------------------------------------------------------------------

  lemma KillLoadAt(rob: seq<R.RobEntry>, l: L.Lsq)
    requires l.Valid() && rob != [] && rob[|rob| - 1].d.fu == LDU && RobLoads(rob, |rob|, l.ldq)
    requires R.TagInRange(rob[|rob| - 1], l.ldq.size, l.stq.size)
    ensures var e := rob[|rob| - 1];
      var j := l.ldq.Dist(e.lsqTag);
      && 0 <= j < |l.ldq.elems| && Active(l.ldq.elems[j]) && l.ldq.elems[j].id == e.id
      && L.KillLoad(l, e.lsqTag) == l.(ldq := l.ldq.(elems := l.ldq.elems[j := l.ldq.elems[j].(killed := true)]))
  {
  }

  // The load-queue effect of ReleaseResource on the youngest entry.
  function KilledLdq(e: R.RobEntry, l: L.Lsq): Queue<L.LdqEntry>
    requires l.Valid() && R.TagInRange(e, l.ldq.size, l.stq.size)
  { if e.d.fu == LDU then L.KillLoad(l, e.lsqTag).ldq else l.ldq }

  lemma KillRobLoads(rob: seq<R.RobEntry>, l: L.Lsq, dead: set<nat>, bound: nat)
    requires l.Valid() && rob != [] && R.TagInRange(rob[|rob| - 1], l.ldq.size, l.stq.size) && RobSorted(rob, bound)
    requires RobLoads(rob, |rob|, l.ldq) && LoadsDone(rob, l.ldq) && LoadsRetired(l.ldq.elems, dead, rob)
    ensures var ldq' := KilledLdq(rob[|rob| - 1], l);
      && RobLoads(rob, |rob| - 1, ldq') && LoadsDone(rob, ldq')
      && LoadsRetired(ldq'.elems, dead + {rob[|rob| - 1].id}, rob)
  {
    if rob[|rob| - 1].d.fu == LDU {
      KillLoadAt(rob, l);
    }
  }

  lemma KillLoadsTied(rob: Queue<R.RobEntry>, robTag: map<nat, nat>, l: L.Lsq)
    requires l.Valid() && rob.Valid() && rob.elems != [] && TagsMatch(rob, robTag)
    requires R.TagInRange(rob.elems[|rob.elems| - 1], l.ldq.size, l.stq.size)
    requires RobLoads(rob.elems, |rob.elems|, l.ldq) && LoadsTied(rob, |rob.elems|, robTag, l.ldq)
    ensures LoadsTied(rob, |rob.elems| - 1, robTag, KilledLdq(rob.elems[|rob.elems| - 1], l))
  {
  }

  lemma KillLoadState(cfg: Config, rob: Queue<R.RobEntry>, robTag: map<nat, nat>, archs: seq<Arch>, l: L.Lsq, ops: map<nat, Op>)
    requires l.Valid() && rob.elems != [] && R.TagInRange(rob.elems[|rob.elems| - 1], l.ldq.size, l.stq.size)
    requires RobLoads(rob.elems, |rob.elems|, l.ldq)
    requires LoadAddrs(cfg, rob, robTag, archs, l.ldq.elems) && LoadStages(l.ldq.elems, ops) && LoadOps(l.ldq, ops)
    ensures var ldq' := KilledLdq(rob.elems[|rob.elems| - 1], l);
      LoadAddrs(cfg, rob, robTag, archs, ldq'.elems) && LoadStages(ldq'.elems, ops) && LoadOps(ldq', ops)
  {
  }

  lemma KillResps(cfg: Config, rob: Queue<R.RobEntry>, robTag: map<nat, nat>, archs: seq<Arch>, l: L.Lsq, lresp: map<nat, Resp>)
    requires l.Valid() && rob.elems != [] && R.TagInRange(rob.elems[|rob.elems| - 1], l.ldq.size, l.stq.size)
    requires RobLoads(rob.elems, |rob.elems|, l.ldq)
    requires RespsTied(l.ldq, lresp) && RespsOk(cfg, rob, robTag, archs, l.ldq, lresp)
    ensures var ldq' := KilledLdq(rob.elems[|rob.elems| - 1], l);
      RespsTied(ldq', lresp) && RespsOk(cfg, rob, robTag, archs, ldq', lresp)
  {
    hide ResultOk;
    if rob.elems[|rob.elems| - 1].d.fu == LDU {
      KillLoadAt(rob.elems, l);
    }
  }

  // A second kill of a released load finds its slot dead or already killed.
  lemma KillAgain(rob: Queue<R.RobEntry>, robTag: map<nat, nat>, l: L.Lsq, dead: set<nat>)
    requires l.Valid() && rob.Valid() && rob.elems != [] && TagsMatch(rob, robTag)
    requires R.TagInRange(rob.elems[|rob.elems| - 1], l.ldq.size, l.stq.size)
    requires RobLoads(rob.elems, |rob.elems| - 1, l.ldq) && LoadsTied(rob, |rob.elems| - 1, robTag, l.ldq)
    requires LoadsRetired(l.ldq.elems, dead, rob.elems)
    ensures KilledLdq(rob.elems[|rob.elems| - 1], l) == l.ldq
  {
  }

  lemma DropLoads(cfg: Config, rob: Queue<R.RobEntry>, robTag: map<nat, nat>, archs: seq<Arch>, ldq: Queue<L.LdqEntry>,
      dead: set<nat>)
    requires rob.Valid() && rob.elems != [] && |archs| == |rob.elems| + 1
    requires RobLoads(rob.elems, |rob.elems| - 1, ldq) && LoadsTied(rob, |rob.elems| - 1, robTag, ldq)
      && LoadsDone(rob.elems, ldq)
    requires LoadAddrs(cfg, rob, robTag, archs, ldq.elems) && LoadsRetired(ldq.elems, dead, rob.elems)
    ensures var rob' := rob.DropLatest();
      && RobLoads(rob'.elems, |rob'.elems|, ldq) && LoadsTied(rob', |rob'.elems|, robTag, ldq) && LoadsDone(rob'.elems, ldq)
      && LoadAddrs(cfg, rob', robTag, archs[..|rob.elems|], ldq.elems) && LoadsRetired(ldq.elems, dead, rob'.elems)
  {
    hide Address;
  }

  lemma DropResps(cfg: Config, rob: Queue<R.RobEntry>, robTag: map<nat, nat>, archs: seq<Arch>, ldq: Queue<L.LdqEntry>,
      lresp: map<nat, Resp>)
    requires rob.Valid() && rob.elems != [] && |archs| == |rob.elems| + 1
    requires RespsOk(cfg, rob, robTag, archs, ldq, lresp)
    ensures RespsOk(cfg, rob.DropLatest(), robTag, archs[..|rob.elems|], ldq, lresp)
  {
  }

  // ---- store queue ------------------------------------------------------------------------------

  // KillStoreEntry removes precisely the store whose tag it was given.
  lemma KilledStoreIsLatest(rob: Queue<R.RobEntry>, robTag: map<nat, nat>, stq: Queue<L.StqEntry>, bound: nat, sbound: nat)
    requires stq.Valid() && rob.elems != [] && R.TagInRange(rob.elems[|rob.elems| - 1], 0, stq.size)
    requires rob.elems[|rob.elems| - 1].d.fu == STU && RobSorted(rob.elems, bound) && StqSorted(stq.elems, sbound)
    requires RobStores(rob.elems, |rob.elems|, stq) && StoresTied(rob, |rob.elems|, robTag, stq)
      && StoresRetired(stq.elems, rob.elems)
    ensures stq.elems != [] && stq.Dist(rob.elems[|rob.elems| - 1].lsqTag) == |stq.elems| - 1
    ensures stq.Latest() == rob.elems[|rob.elems| - 1].lsqTag
    ensures stq.elems[|stq.elems| - 1].id == rob.elems[|rob.elems| - 1].id && !stq.elems[|stq.elems| - 1].commited
  {
    SlotPos(stq, 0);
    var e := rob.elems[|rob.elems| - 1];
    var t := stq.elems[|stq.elems| - 1];
    assert t.id <= e.id by {
      if !t.commited {
        assert rob.elems[IdPos(rob, robTag, t.id)].id == t.id;
      }
    }
    assert stq.Dist(e.lsqTag) == |stq.elems| - 1;
    assert stq.Slot(stq.Pos(e.lsqTag)) == e.lsqTag && stq.Slot(stq.Pos(stq.Latest())) == stq.Latest();
  }

  function KilledStq(e: R.RobEntry, stq: Queue<L.StqEntry>): Queue<L.StqEntry>
    requires stq.Valid() && (e.d.fu == STU ==> stq.elems != [])
  { if e.d.fu == STU then stq.DropLatest() else stq }

  predicate LastStoreIs(e: R.RobEntry, stq: Queue<L.StqEntry>) {
    e.d.fu == STU ==>
      && stq.Valid() && stq.elems != [] && stq.Dist(e.lsqTag) == |stq.elems| - 1
      && stq.elems[|stq.elems| - 1].id == e.id && !stq.elems[|stq.elems| - 1].commited
  }

  lemma KillRobStores(cfg: Config, rob: Queue<R.RobEntry>, robTag: map<nat, nat>, archs: seq<Arch>,
      stq: Queue<L.StqEntry>, bound: nat)
    requires stq.Valid() && rob.elems != [] && LastStoreIs(rob.elems[|rob.elems| - 1], stq) && |archs| == |rob.elems| + 1
    requires RobSorted(rob.elems, bound) && TagsMatch(rob, robTag)
    requires RobStores(rob.elems, |rob.elems|, stq) && StoresTied(rob, |rob.elems|, robTag, stq)
      && StoreData(cfg, rob.elems, archs, stq)
    ensures var stq' := KilledStq(rob.elems[|rob.elems| - 1], stq);
      && RobStores(rob.elems, |rob.elems| - 1, stq') && StoresTied(rob, |rob.elems| - 1, robTag, stq')
      && StoreData(cfg, rob.elems, archs, stq')
  {
    hide Address, OperandB;
    var stq' := KilledStq(rob.elems[|rob.elems| - 1], stq);
    assert RobStores(rob.elems, |rob.elems| - 1, stq') by {
      hide StoresTied, StoreData;
    }
    assert StoreData(cfg, rob.elems, archs, stq') by {
      hide StoresTied, RobStores;
    }
  }

  lemma KillStoreQueue(rob: seq<R.RobEntry>, stq: Queue<L.StqEntry>, ids: seq<nat>, bound: nat)
    requires stq.Valid() && rob != [] && LastStoreIs(rob[|rob| - 1], stq) && StqSorted(stq.elems, bound)
      && StoresKept(stq.elems, ids)
    requires StoresRetired(stq.elems, rob) && StoresInOrder(stq.elems)
    ensures var stq' := KilledStq(rob[|rob| - 1], stq);
      StoresRetired(stq'.elems, rob) && StoresInOrder(stq'.elems) && StqSorted(stq'.elems, bound) && StoresKept(stq'.elems, ids)
  {
  }

  lemma KillStoreOps(e: R.RobEntry, stq: Queue<L.StqEntry>, ops: map<nat, Op>, sresp: map<nat, nat>)
    requires stq.Valid() && LastStoreIs(e, stq)
    requires forall j :: 0 <= j < |stq.elems| && !stq.elems[j].commited ==> stq.elems[j].state == L.StoreWaitSend
    requires StoreOps(stq, ops) && StoreResps(stq, sresp)
    ensures StoreOps(KilledStq(e, stq), ops) && StoreResps(KilledStq(e, stq), sresp)
  {
  }

  lemma DropStores(cfg: Config, rob: Queue<R.RobEntry>, robTag: map<nat, nat>, archs: seq<Arch>, stq: Queue<L.StqEntry>)
    requires rob.Valid() && rob.elems != [] && |archs| == |rob.elems| + 1
    requires RobStores(rob.elems, |rob.elems| - 1, stq) && StoresTied(rob, |rob.elems| - 1, robTag, stq)
    requires StoreData(cfg, rob.elems, archs, stq) && StoresRetired(stq.elems, rob.elems)
    ensures var rob' := rob.DropLatest();
      && RobStores(rob'.elems, |rob'.elems|, stq) && StoresTied(rob', |rob'.elems|, robTag, stq)
      && StoreData(cfg, rob'.elems, archs[..|rob.elems|], stq) && StoresRetired(stq.elems, rob'.elems)
  {
    hide Address, OperandB;
  }

  // ---- memory -----------------------------------------------------------------------------------

  // No surviving load depends on the store being killed.
  lemma KillDeps(rob: Queue<R.RobEntry>, robTag: map<nat, nat>, l: L.Lsq, dead: set<nat>, bound: nat)
    requires l.Valid() && rob.elems != [] && LastStoreIs(rob.elems[|rob.elems| - 1], l.stq)
    requires RobSorted(rob.elems, bound) && LoadsTied(rob, |rob.elems|, robTag, l.ldq)
      && LoadsRetired(l.ldq.elems, dead, rob.elems)
    requires R.TagInRange(rob.elems[|rob.elems| - 1], l.ldq.size, l.stq.size)
    requires RobLoads(rob.elems, |rob.elems|, l.ldq) && DepsOk(l.ldq.elems, l.stq)
    ensures DepsOk(KilledLdq(rob.elems[|rob.elems| - 1], l).elems, KilledStq(rob.elems[|rob.elems| - 1], l.stq))
  {
  }

  lemma KillMem(cfg: Config, rob: seq<R.RobEntry>, l: L.Lsq, mem: Mem, trace: seq<nat>, dead: set<nat>, bound: nat)
    requires l.Valid() && rob != [] && LastStoreIs(rob[|rob| - 1], l.stq) && RobLoads(rob, |rob|, l.ldq)
    requires R.TagInRange(rob[|rob| - 1], l.ldq.size, l.stq.size)
    requires TraceSorted(trace, dead, bound) && TraceBeforeStores(trace, dead, l.stq.elems)
      && TraceBeforeLoads(trace, dead, l.ldq.elems)
    ensures var e := rob[|rob| - 1];
      var dead' := dead + {e.id};
      && Drain(cfg, mem, KilledStq(e, l.stq).elems) == Drain(cfg, mem, l.stq.elems)
      && TraceSorted(trace, dead', bound) && TraceBeforeStores(trace, dead', KilledStq(e, l.stq).elems)
      && TraceBeforeLoads(trace, dead', KilledLdq(e, l).elems)
  {
    var e := rob[|rob| - 1];
    if e.d.fu == LDU {
      KillLoadAt(rob, l);
    } else if e.d.fu == STU {
      var q := l.stq.elems;
      DrainPush(cfg, mem, q[..|q| - 1], q[|q| - 1]);
      assert q == q[..|q| - 1] + [q[|q| - 1]];
    }
  }

  // ---- assembly ---------------------------------------------------------------------------------

  // The state of the components after the youngest entry's resources have been released.
  lemma ReleaseEffect(cfg: Config, c: R.Core)
    requires c.Valid() && c.rcu.rob.elems != [] && |c.rcu.regs| == cfg.regCount
    requires var e := R.Youngest(c.rcu);
      R.TagInRange(e, c.lsq.ldq.size, c.lsq.stq.size) && (e.d.Writes() <==> e.phyRd != 0) && LastStoreIs(e, c.lsq.stq)
    ensures var e := R.Youngest(c.rcu);
      R.EntryInRange(e, |c.rcu.regs|)
    ensures var e := R.Youngest(c.rcu);
      var c' := R.Release(c, e);
      && c'.rcu == c.rcu.(free := FreedList(c.rcu), busy := FreedBusy(c.rcu),
                          table := if e.d.Writes() then c.rcu.table[e.d.isaRd := e.lphyRd] else c.rcu.table)
      && c'.lsq == L.Lsq(KilledLdq(e, c.lsq), KilledStq(e, c.lsq.stq))
  {
  }

  // An entry of the chain writes a register exactly when it was given one.
  lemma WritesIffTarget(rob: seq<R.RobEntry>, maps: seq<seq<nat>>)
    requires |maps| == |rob| + 1 && rob != [] && MapsChain(rob, maps)
    ensures var e := rob[|rob| - 1];
      && (e.d.Writes() <==> e.phyRd != 0)
      && maps[|rob|] == (if e.d.Writes() && e.d.isaRd < |maps[|rob| - 1]| then maps[|rob| - 1][e.d.isaRd := e.phyRd]
        else maps[|rob| - 1])
      && (e.d.Writes() ==> e.d.isaRd < |maps[|rob| - 1]| && e.lphyRd == maps[|rob| - 1][e.d.isaRd])
  {
    assert MapStep(maps[|rob| - 1], maps[|rob|], rob[|rob| - 1]);
  }

  // Undoing the youngest entry's renaming restores the table it found.
  lemma RestoreTable(rob: seq<R.RobEntry>, maps: seq<seq<nat>>, table: seq<nat>)
    requires |maps| == |rob| + 1 && rob != [] && MapsChain(rob, maps) && |table| == ISA_REGS && rob[|rob| - 1].d.WellDecoded()
    requires table == maps[|rob|] || table == maps[|rob| - 1]
    ensures var e := rob[|rob| - 1];
      (if e.d.Writes() then table[e.d.isaRd := e.lphyRd] else table) == maps[|rob| - 1]
  {
  }

  // ---- the youngest entry, still holding its resources, is removed ------------------------------

  predicate Undoes(cfg: Config, s: State) {
    && InvShape(cfg, s) && InvMode(s) && InvMaps(cfg, s) && InvOrder(s) && InvStq(cfg, s)
    && s.Rob() != [] && !s.g.released && s.rcu.mode == R.Undo
  }

  lemma YoungestFacts(cfg: Config, s: State)
    requires Undoes(cfg, s)
    ensures var e := R.Youngest(s.rcu);
      && s.Held() == |s.Rob()| && s.Rob()[..s.Held()] == s.Rob()
      && (e.d.Writes() <==> e.phyRd != 0) && LastStoreIs(e, s.lsq.stq)
      && R.TagInRange(e, s.lsq.ldq.size, s.lsq.stq.size) && R.EntryInRange(e, |s.rcu.regs|) && e.valid
      && (if e.d.Writes() then s.rcu.table[e.d.isaRd := e.lphyRd] else s.rcu.table) == s.g.maps[|s.Rob()| - 1]
    ensures var e := R.Youngest(s.rcu);
      var r' := R.Release(s.Core(), e);
      && r'.rcu == s.rcu.(free := FreedList(s.rcu), busy := FreedBusy(s.rcu), table := s.g.maps[|s.Rob()| - 1])
      && r'.lsq == L.Lsq(KilledLdq(e, s.lsq), KilledStq(e, s.lsq.stq))
  {
    hide R.AllBelow, MapsOk, ArchsOk, InvMode, RobSorted, LdqSorted, StqSorted, TagsMatch, IdsBelow, NotDead,
      CommitsOk, MapsChain, StoreData, StoreOps, StoreResps, StoresInOrder, RobStores, StoresTied, StoresRetired;
    RestoreTable(s.Rob(), s.g.maps, s.rcu.table);
    WritesIffTarget(s.Rob(), s.g.maps);
    if R.Youngest(s.rcu).d.fu == STU {
      KilledStoreIsLatest(s.rcu.rob, s.g.robTag, s.lsq.stq, s.nextId, s.nextId);
    }
    ReleaseEffect(cfg, s.Core());
  }

  lemma UndoFacts(cfg: Config, s: State)
    requires Undoes(cfg, s) && CanUndoOne(s)
    ensures var e := R.Youngest(s.rcu);
      var s' := UndoOne(s);
      var n := |s.Rob()|;
      && s'.rcu == s.rcu.(rob := s.rcu.rob.DropLatest(), free := FreedList(s.rcu), busy := FreedBusy(s.rcu),
        table := s.g.maps[n - 1])
      && s'.lsq == L.Lsq(KilledLdq(e, s.lsq), KilledStq(e, s.lsq.stq))
      && s'.Held() == n - 1 && s'.Rob()[..n - 1] == s'.Rob() && s.rcu.rob.Dist(s.rcu.tag) < n - 1
  {
    hide R.AllBelow, R.EntriesInRange, R.TagsInRange, MapsOk, ArchsOk, AllValid, InvMode, InvOrder, MapsChain, InvStq,
      FreedList, FreedBusy;
    YoungestFacts(cfg, s);
    SlotPos(s.rcu.rob, 0);
    OlderIsDistance(s.rcu.rob.size, s.rcu.rob.head, s.rcu.tag, s.rcu.rob.Latest());
  }

  lemma UndoShape(cfg: Config, mem0: Mem, s: State)
    requires Undoes(cfg, s) && CanUndoOne(s) && InvArch(cfg, mem0, s) && InvCons(cfg, s)
    ensures var s' := UndoOne(s);
      InvShape(cfg, s') && InvMaps(cfg, s') && InvArch(cfg, mem0, s') && InvCons(cfg, s')
  {
    hide R.AllBelow, R.EntriesInRange, R.TagsInRange, MapsOk, ArchsOk, InvMode, InvOrder, InvStq, MapsChain,
      ArchChain, Conserved, FreedList, FreedBusy;
    YoungestFacts(cfg, s);
    UndoFacts(cfg, s);
    DropChains(cfg, s.Rob(), s.g.maps, s.g.archs);
    ReleaseCons(cfg.regCount, s.rcu, s.g.maps[0], |s.Rob()|);
  }

  lemma UndoOrder(cfg: Config, s: State)
    requires Undoes(cfg, s) && CanUndoOne(s)
    ensures InvOrder(UndoOne(s))
  {
    hide R.AllBelow, R.EntriesInRange, R.TagsInRange, MapsOk, ArchsOk, AllValid, InvMode, RobSorted, LdqSorted,
      StqSorted, TagsMatch, IdsBelow, NotDead, CommitsOk, MapsChain, FreedList, FreedBusy, RobStores, StoreData,
      StoresTied, StoreOps, StoreResps;
    YoungestFacts(cfg, s);
    UndoFacts(cfg, s);
    DropOrder(s.rcu.rob, s.g.robTag, s.g.dead, s.Held(), s.g.commitIds, s.nextId);
    KillStoreQueue(s.Rob(), s.lsq.stq, s.g.commitIds, s.nextId);
    KillLdqOrder(R.Youngest(s.rcu), s.lsq, s.nextId);
  }

  lemma UndoMode(cfg: Config, s: State)
    requires Undoes(cfg, s) && CanUndoOne(s) && InvPkg(s)
    ensures InvMode(UndoOne(s)) && InvPkg(UndoOne(s))
  {
    hide R.AllBelow, R.EntriesInRange, R.TagsInRange, MapsOk, ArchsOk, AllValid, TagOk, FaultsBehind, EntriesOk,
      CauseOk, ReleasedOk, ReleasedSafe, InvOrder, MapsChain, InvStq, PkgOk, FreedList, FreedBusy;
    UndoFacts(cfg, s);
    DropMode(s.rcu, s.pkg, s.g.released);
  }

  lemma UndoOps(cfg: Config, s: State)
    requires Undoes(cfg, s) && CanUndoOne(s) && InvOps(cfg, s) && InvVals(cfg, s) && InvCons(cfg, s)
    requires InvShape(cfg, UndoOne(s))
    ensures InvOps(cfg, UndoOne(s)) && InvVals(cfg, UndoOne(s))
  {
    hide R.AllBelow, R.EntriesInRange, R.TagsInRange, MapsOk, ArchsOk, AllValid, FaultsBehind, EntriesOk, CauseOk,
      ReleasedOk, ReleasedSafe, InvOrder, MapsChain, InvStq, Conserved, OpsShape, OpsTied, OpsSquashed, BranchOk,
      ValsOk, ForwardedDone;
    YoungestFacts(cfg, s);
    UndoFacts(cfg, s);
    DropOps(cfg, s.rcu.rob, s.g.maps, s.g.archs, s.ops);
    DropSquashed(s.rcu.rob, s.g.maps, s.rcu.tag, s.ops, s.g.dead, s.rcu.free, FreedList(s.rcu));
    if R.Youngest(s.rcu).d.Writes() {
      ReleaseForwarded(cfg, s.rcu, s.g.maps, s.ops);
    } else {
      DropForwarded(s.rcu.rob, s.ops, s.rcu.busy);
    }
  }

  lemma UndoRegs(cfg: Config, s: State)
    requires Undoes(cfg, s) && CanUndoOne(s) && InvRegs(cfg, s) && InvCons(cfg, s) && InvShape(cfg, UndoOne(s))
    ensures InvRegs(cfg, UndoOne(s))
  {
    hide R.AllBelow, R.EntriesInRange, R.TagsInRange, MapsOk, ArchsOk, AllValid, InvMode, InvOrder, MapsChain, InvStq,
      Conserved, ArchHeld, ResultsHeld, DoneHeld, FreedList, FreedBusy;
    YoungestFacts(cfg, s);
    UndoFacts(cfg, s);
    ReleaseRegs(cfg, s.rcu, s.g.maps[0], s.g.archs, |s.Rob()|);
    DropResults(UndoOne(s).Rob(), s.g.archs, FreedBusy(s.rcu), s.rcu.regs);
  }

  lemma UndoLdq(cfg: Config, s: State)
    requires Undoes(cfg, s) && CanUndoOne(s) && InvLdq(cfg, s)
    ensures InvLdq(cfg, UndoOne(s))
  {
    hide R.AllBelow, R.EntriesInRange, R.TagsInRange, MapsOk, ArchsOk, AllValid, InvMode, RobSorted, LdqSorted,
      StqSorted, TagsMatch, IdsBelow, NotDead, CommitsOk, MapsChain, InvStq, RobLoads, LoadsTied, LoadAddrs, LoadStages,
      LoadsDone, LoadsRetired, LoadOps, RespsTied, RespsOk, FreedList, FreedBusy, KilledLdq;
    YoungestFacts(cfg, s);
    UndoFacts(cfg, s);
    var e := R.Youngest(s.rcu);
    var ldq' := KilledLdq(e, s.lsq);
    KillRobLoads(s.Rob(), s.lsq, s.g.dead, s.nextId);
    KillLoadsTied(s.rcu.rob, s.g.robTag, s.lsq);
    KillLoadState(cfg, s.rcu.rob, s.g.robTag, s.g.archs, s.lsq, s.ops);
    KillResps(cfg, s.rcu.rob, s.g.robTag, s.g.archs, s.lsq, s.lresp);
    DropLoads(cfg, s.rcu.rob, s.g.robTag, s.g.archs, ldq', s.g.dead + {e.id});
    DropResps(cfg, s.rcu.rob, s.g.robTag, s.g.archs, ldq', s.lresp);
  }

  lemma UndoStq(cfg: Config, s: State)
    requires Undoes(cfg, s) && CanUndoOne(s) && InvShape(cfg, UndoOne(s))
    ensures InvStq(cfg, UndoOne(s))
  {
    hide R.AllBelow, R.EntriesInRange, R.TagsInRange, MapsOk, ArchsOk, AllValid, InvMode, RobSorted, LdqSorted,
      StqSorted, TagsMatch, IdsBelow, NotDead, CommitsOk, MapsChain, RobStores, StoreData, StoresRetired, StoresKept,
      StoreOps, StoreResps, StoresInOrder, FreedList, FreedBusy, KilledStq, IdPos;
    YoungestFacts(cfg, s);
    UndoFacts(cfg, s);
    var e := R.Youngest(s.rcu);
    KillRobStores(cfg, s.rcu.rob, s.g.robTag, s.g.archs, s.lsq.stq, s.nextId);
    KillStoreQueue(s.Rob(), s.lsq.stq, s.g.commitIds, s.nextId);
    KillStoreOps(e, s.lsq.stq, s.ops, s.sresp);
    DropStores(cfg, s.rcu.rob, s.g.robTag, s.g.archs, KilledStq(e, s.lsq.stq));
  }

  lemma UndoMem(cfg: Config, s: State)
    requires Undoes(cfg, s) && CanUndoOne(s) && InvLdq(cfg, s) && InvMem(cfg, s) && InvShape(cfg, UndoOne(s))
    ensures InvMem(cfg, UndoOne(s))
  {
    hide R.AllBelow, R.EntriesInRange, R.TagsInRange, MapsOk, ArchsOk, AllValid, InvMode, RobSorted, LdqSorted,
      StqSorted, TagsMatch, IdsBelow, NotDead, CommitsOk, MapsChain, InvStq, RobLoads, LoadsTied, LoadAddrs, LoadStages,
      LoadsDone, LoadsRetired, LoadOps, RespsTied, RespsOk, DepsOk, Drain, TraceSorted, TraceBeforeStores,
      TraceBeforeLoads, FreedList, FreedBusy, KilledLdq, KilledStq;
    YoungestFacts(cfg, s);
    UndoFacts(cfg, s);
    KillDeps(s.rcu.rob, s.g.robTag, s.lsq, s.g.dead, s.nextId);
    KillMem(cfg, s.Rob(), s.lsq, s.mem, s.g.trace, s.g.dead, s.nextId);
  }

  lemma UndoFreshInv(cfg: Config, mem0: Mem, s: State)
    requires Inv(cfg, mem0, s) && CanUndoOne(s) && !s.g.released
    ensures Inv(cfg, mem0, UndoOne(s))
  {
    hide InvShape, InvOrder, InvMaps, InvArch, InvCons, InvMode, InvPkg, InvOps, InvRegs, InvVals, InvLdq, InvStq,
      InvMem, UndoOne;
    UndoShape(cfg, mem0, s);
    UndoOrder(cfg, s);
    UndoMode(cfg, s);
    UndoOps(cfg, s);
    UndoRegs(cfg, s);
    UndoLdq(cfg, s);
    UndoStq(cfg, s);
    UndoMem(cfg, s);
  }

  // ---- a released entry, holding neither register nor store, is removed -------------------------

  predicate UndoesAgain(cfg: Config, s: State) {
    && InvShape(cfg, s) && InvMode(s) && InvMaps(cfg, s) && InvOrder(s) && InvLdq(cfg, s)
    && s.Rob() != [] && s.g.released && CanUndoOne(s)
  }

  lemma AgainFacts(cfg: Config, s: State)
    requires UndoesAgain(cfg, s)
    ensures var s' := UndoOne(s);
      var n := |s.Rob()|;
      && s'.rcu == s.rcu.(rob := s.rcu.rob.DropLatest()) && s'.lsq == s.lsq
      && s.Held() == n - 1 && s'.Held() == n - 1 && s'.Rob()[..n - 1] == s'.Rob() && s.Rob()[..n - 1] == s'.Rob()
      && s.rcu.rob.Dist(s.rcu.tag) < n - 1 && s.rcu.mode == R.Undo && R.Youngest(s.rcu).done && R.Youngest(s.rcu).fault.Some?
  {
    hide R.AllBelow, MapsOk, ArchsOk, TagOk, EntriesOk, CauseOk, MapsChain, RobSorted, LdqSorted, StqSorted,
      NotDead, CommitsOk, RobLoads, LoadsTied, LoadAddrs, LoadStages, LoadsDone, LoadsRetired, LoadOps, RespsTied,
      RespsOk, TagsMatch;
    KillAgain(s.rcu.rob, s.g.robTag, s.lsq, s.g.dead);
  }

  lemma AgainShape(cfg: Config, mem0: Mem, s: State)
    requires UndoesAgain(cfg, s) && InvArch(cfg, mem0, s) && InvCons(cfg, s)
    ensures var s' := UndoOne(s);
      InvShape(cfg, s') && InvMaps(cfg, s') && InvArch(cfg, mem0, s') && InvCons(cfg, s')
  {
    hide R.AllBelow, R.EntriesInRange, R.TagsInRange, MapsOk, ArchsOk, InvMode, InvOrder, MapsChain, ArchChain,
      Conserved, InvLdq;
    AgainFacts(cfg, s);
    DropChains(cfg, s.Rob(), s.g.maps, s.g.archs);
  }

  lemma AgainOrder(cfg: Config, s: State)
    requires UndoesAgain(cfg, s) && InvPkg(s)
    ensures InvOrder(UndoOne(s)) && InvMode(UndoOne(s)) && InvPkg(UndoOne(s))
  {
    hide R.AllBelow, R.EntriesInRange, R.TagsInRange, MapsOk, ArchsOk, AllValid, TagOk, FaultsBehind, EntriesOk,
      CauseOk, ReleasedOk, ReleasedSafe, RobSorted, LdqSorted, StqSorted, TagsMatch, IdsBelow, NotDead, CommitsOk,
      MapsChain, InvLdq, PkgOk;
    AgainFacts(cfg, s);
    DropOrder(s.rcu.rob, s.g.robTag, s.g.dead, s.Held(), s.g.commitIds, s.nextId);
    DropMode(s.rcu, s.pkg, s.g.released);
  }

  lemma AgainOps(cfg: Config, s: State)
    requires UndoesAgain(cfg, s) && InvOps(cfg, s) && InvVals(cfg, s) && InvRegs(cfg, s) && InvShape(cfg, UndoOne(s))
    ensures InvOps(cfg, UndoOne(s)) && InvVals(cfg, UndoOne(s)) && InvRegs(cfg, UndoOne(s))
  {
    hide R.AllBelow, R.EntriesInRange, R.TagsInRange, MapsOk, ArchsOk, AllValid, FaultsBehind, EntriesOk, CauseOk,
      ReleasedOk, ReleasedSafe, InvOrder, MapsChain, InvLdq, OpsShape, OpsTied, OpsSquashed, BranchOk, ValsOk,
      ForwardedDone, ArchHeld, ResultsHeld;
    AgainFacts(cfg, s);
    DropOps(cfg, s.rcu.rob, s.g.maps, s.g.archs, s.ops);
    DropSquashed(s.rcu.rob, s.g.maps, s.rcu.tag, s.ops, s.g.dead, s.rcu.free, s.rcu.free);
    DropForwarded(s.rcu.rob, s.ops, s.rcu.busy);
    DropResults(UndoOne(s).Rob(), s.g.archs, s.rcu.busy, s.rcu.regs);
  }

  lemma AgainLsq(cfg: Config, s: State)
    requires UndoesAgain(cfg, s) && InvStq(cfg, s) && InvMem(cfg, s) && InvShape(cfg, UndoOne(s))
    ensures InvLdq(cfg, UndoOne(s)) && InvStq(cfg, UndoOne(s)) && InvMem(cfg, UndoOne(s))
  {
    hide R.AllBelow, R.EntriesInRange, R.TagsInRange, MapsOk, ArchsOk, AllValid, InvMode, InvOrder, MapsChain,
      RobLoads, LoadsTied, LoadAddrs, LoadStages, LoadsDone, LoadsRetired, LoadOps, RespsTied, RespsOk, RobStores,
      StoreData, StoresTied, StoresRetired, StoresKept, StoreOps, StoreResps, StoresInOrder, DepsOk, Drain;
    AgainFacts(cfg, s);
    DropLoads(cfg, s.rcu.rob, s.g.robTag, s.g.archs, s.lsq.ldq, s.g.dead);
    DropResps(cfg, s.rcu.rob, s.g.robTag, s.g.archs, s.lsq.ldq, s.lresp);
    MoreDead(s.lsq.ldq.elems, s.g.dead, R.Youngest(s.rcu).id, UndoOne(s).Rob());
    DropStores(cfg, s.rcu.rob, s.g.robTag, s.g.archs, s.lsq.stq);
  }

  lemma UndoAgainInv(cfg: Config, mem0: Mem, s: State)
    requires Inv(cfg, mem0, s) && CanUndoOne(s) && s.g.released
    ensures Inv(cfg, mem0, UndoOne(s))
  {
    hide InvShape, InvOrder, InvMaps, InvArch, InvCons, InvMode, InvPkg, InvOps, InvRegs, InvVals, InvLdq, InvStq,
      InvMem, UndoOne;
    AgainShape(cfg, mem0, s);
    AgainOrder(cfg, s);
    AgainOps(cfg, s);
    AgainLsq(cfg, s);
  }

  lemma UndoInv(cfg: Config, mem0: Mem, s: State)
    requires Inv(cfg, mem0, s) && CanUndoOne(s)
    ensures Inv(cfg, mem0, UndoOne(s))
  {
    hide InvShape, InvOrder, InvMaps, InvArch, InvCons, InvMode, InvPkg, InvOps, InvRegs, InvVals, InvLdq, InvStq,
      InvMem, UndoOne;
    if s.g.released {
      UndoAgainInv(cfg, mem0, s);
    } else {
      UndoFreshInv(cfg, mem0, s);
    }
  }

  // ---- the rollback entry is reached ------------------------------------------------------------

  // No fault: dispatch stays stopped behind the rollback entry, nothing else changes.
  lemma FinishPlain(cfg: Config, mem0: Mem, s: State)
    requires Inv(cfg, mem0, s) && CanFinishUndo(s) && R.Youngest(s.rcu).fault.None?
    ensures Inv(cfg, mem0, FinishUndo(s))
  {
    hide R.AllBelow, R.EntriesInRange, R.TagsInRange, MapsOk, ArchsOk, RobSorted, LdqSorted, StqSorted, TagsMatch,
      IdsBelow, NotDead, CommitsOk, MapsChain, ArchChain, Conserved, OpsShape, OpsTied, ArchHeld, ResultsHeld,
      DoneHeld, ValsOk, ForwardedDone, RobLoads, LoadsTied, LoadAddrs, LoadStages, LoadsDone, LoadsRetired, LoadOps,
      RespsTied, RespsOk, RobStores, StoreData, StoresTied, StoresRetired, StoresKept, StoreOps, StoreResps,
      StoresInOrder, DepsOk, Drain, TraceSorted, TraceBeforeStores, TraceBeforeLoads, EntriesOk;
    SlotPos(s.rcu.rob, 0);
  }

  predicate FinishesFault(cfg: Config, s: State) {
    Undoes(cfg, s) && CanFinishUndo(s) && R.Youngest(s.rcu).fault.Some?
  }

  lemma FinishFacts(cfg: Config, s: State)
    requires FinishesFault(cfg, s)
    ensures var e := R.Youngest(s.rcu);
      var s' := FinishUndo(s);
      var n := |s.Rob()|;
      && s'.rcu == s.rcu.(mode := R.WaitForResume, free := FreedList(s.rcu), busy := FreedBusy(s.rcu), table := s.g.maps[n - 1])
      && s'.lsq == L.Lsq(KilledLdq(e, s.lsq), KilledStq(e, s.lsq.stq))
      && s'.Held() == n - 1 && s.rcu.rob.Dist(s.rcu.tag) == n - 1 && e.done
  {
    hide R.AllBelow, MapsOk, ArchsOk, TagOk, EntriesOk, CauseOk, InvOrder, MapsChain, InvStq, FreedList, FreedBusy;
    YoungestFacts(cfg, s);
    SlotPos(s.rcu.rob, 0);
  }

  lemma FinishShape(cfg: Config, mem0: Mem, s: State)
    requires FinishesFault(cfg, s) && InvArch(cfg, mem0, s) && InvCons(cfg, s)
    ensures var s' := FinishUndo(s);
      InvShape(cfg, s') && InvMaps(cfg, s') && InvArch(cfg, mem0, s') && InvCons(cfg, s')
  {
    hide R.AllBelow, R.EntriesInRange, R.TagsInRange, MapsOk, ArchsOk, InvMode, InvOrder, InvStq, MapsChain,
      ArchChain, Conserved, FreedList, FreedBusy;
    YoungestFacts(cfg, s);
    FinishFacts(cfg, s);
    ReleaseCons(cfg.regCount, s.rcu, s.g.maps[0], |s.Rob()|);
  }

  lemma FinishOrder(cfg: Config, s: State)
    requires FinishesFault(cfg, s) && InvPkg(s)
    ensures InvOrder(FinishUndo(s)) && InvMode(FinishUndo(s)) && InvPkg(FinishUndo(s))
  {
    hide R.AllBelow, R.EntriesInRange, R.TagsInRange, MapsOk, ArchsOk, AllValid, EntriesOk, RobSorted, LdqSorted,
      StqSorted, TagsMatch, IdsBelow, NotDead, CommitsOk, MapsChain, FreedList, FreedBusy, RobStores, StoreData,
      StoresTied, StoreOps, StoreResps;
    YoungestFacts(cfg, s);
    FinishFacts(cfg, s);
    DropOrder(s.rcu.rob, s.g.robTag, s.g.dead, s.Held(), s.g.commitIds, s.nextId);
    KillStoreQueue(s.Rob(), s.lsq.stq, s.g.commitIds, s.nextId);
    KillLdqOrder(R.Youngest(s.rcu), s.lsq, s.nextId);
  }

  lemma FinishOps(cfg: Config, s: State)
    requires FinishesFault(cfg, s) && InvOps(cfg, s) && InvVals(cfg, s) && InvCons(cfg, s) && InvRegs(cfg, s)
    requires InvShape(cfg, FinishUndo(s))
    ensures InvOps(cfg, FinishUndo(s)) && InvVals(cfg, FinishUndo(s)) && InvRegs(cfg, FinishUndo(s))
  {
    hide R.AllBelow, R.EntriesInRange, R.TagsInRange, MapsOk, ArchsOk, AllValid, FaultsBehind, EntriesOk, CauseOk,
      ReleasedOk, ReleasedSafe, InvOrder, MapsChain, InvStq, Conserved, OpsShape, OpsTied, ValsOk, ForwardedDone,
      ArchHeld, ResultsHeld;
    YoungestFacts(cfg, s);
    FinishFacts(cfg, s);
    if R.Youngest(s.rcu).d.Writes() {
      ReleaseForwarded(cfg, s.rcu, s.g.maps, s.ops);
    }
    ReleaseRegs(cfg, s.rcu, s.g.maps[0], s.g.archs, |s.Rob()|);
  }

  lemma FinishLsq(cfg: Config, s: State)
    requires FinishesFault(cfg, s) && InvLdq(cfg, s) && InvMem(cfg, s) && InvShape(cfg, FinishUndo(s))
    ensures InvLdq(cfg, FinishUndo(s)) && InvStq(cfg, FinishUndo(s)) && InvMem(cfg, FinishUndo(s))
  {
    hide R.AllBelow, R.EntriesInRange, R.TagsInRange, MapsOk, ArchsOk, AllValid, InvMode, RobSorted, LdqSorted,
      StqSorted, TagsMatch, IdsBelow, NotDead, CommitsOk, MapsChain, RobStores, StoreData, StoresRetired, StoresKept,
      StoreOps, StoreResps, StoresInOrder, RobLoads, LoadsTied, LoadAddrs, LoadStages, LoadsDone, LoadsRetired, LoadOps,
      RespsTied, RespsOk, DepsOk, Drain, TraceSorted, TraceBeforeStores, TraceBeforeLoads, FreedList, FreedBusy,
      KilledLdq, KilledStq, IdPos;
    YoungestFacts(cfg, s);
    FinishFacts(cfg, s);
    var e := R.Youngest(s.rcu);
    KillRobLoads(s.Rob(), s.lsq, s.g.dead, s.nextId);
    KillLoadsTied(s.rcu.rob, s.g.robTag, s.lsq);
    KillLoadState(cfg, s.rcu.rob, s.g.robTag, s.g.archs, s.lsq, s.ops);
    KillResps(cfg, s.rcu.rob, s.g.robTag, s.g.archs, s.lsq, s.lresp);
    KillRobStores(cfg, s.rcu.rob, s.g.robTag, s.g.archs, s.lsq.stq, s.nextId);
    KillStoreQueue(s.Rob(), s.lsq.stq, s.g.commitIds, s.nextId);
    KillStoreOps(e, s.lsq.stq, s.ops, s.sresp);
    KillDeps(s.rcu.rob, s.g.robTag, s.lsq, s.g.dead, s.nextId);
    KillMem(cfg, s.Rob(), s.lsq, s.mem, s.g.trace, s.g.dead, s.nextId);
  }

  lemma FinishInv(cfg: Config, mem0: Mem, s: State)
    requires Inv(cfg, mem0, s) && CanFinishUndo(s)
    ensures Inv(cfg, mem0, FinishUndo(s))
  {
    hide InvShape, InvOrder, InvMaps, InvArch, InvCons, InvPkg, InvOps, InvRegs, InvVals, InvLdq, InvStq, InvMem,
      FinishUndo, TagOk, FaultsBehind, EntriesOk, CauseOk, ReleasedOk;
    if R.Youngest(s.rcu).fault.None? {
      FinishPlain(cfg, mem0, s);
    } else {
      FinishNotReleased(cfg, s);
      FinishShape(cfg, mem0, s);
      FinishOrder(cfg, s);
      FinishOps(cfg, s);
      FinishLsq(cfg, s);
    }
  }

  lemma FinishNotReleased(cfg: Config, s: State)
    requires InvShape(cfg, s) && InvMode(s) && CanFinishUndo(s)
    ensures !s.g.released
  {
  }

  // Rcu::Evaulate leaves FlushBackend: the reorder buffer is empty and nothing is in flight.
  lemma LeaveFlushInv(cfg: Config, mem0: Mem, s: State)
    requires Inv(cfg, mem0, s) && CanLeaveFlush(s)
    ensures Inv(cfg, mem0, LeaveFlush(s))
  {
    hide R.AllBelow, R.EntriesInRange, R.TagsInRange, MapsOk, ArchsOk, RobSorted, LdqSorted, StqSorted, TagsMatch,
      IdsBelow, NotDead, CommitsOk, MapsChain, ArchChain, Conserved, OpsShape, OpsTied, ArchHeld, ResultsHeld,
      DoneHeld, ValsOk, ForwardedDone, RobLoads, LoadsTied, LoadAddrs, LoadStages, LoadsDone, LoadsRetired, LoadOps,
      RespsTied, RespsOk, RobStores, StoreData, StoresTied, StoresRetired, StoresKept, StoreOps, StoreResps,
      StoresInOrder, DepsOk, Drain, TraceSorted, TraceBeforeStores, TraceBeforeLoads, EntriesOk;
  }
}
