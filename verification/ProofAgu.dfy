// Address generation and the choice of the commit package keep the invariant.
module ProofAgu {
  import opened DynInsn
  import opened LoopQueue
  import L = LsqSpec
  import R = RcuSpec
  import opened Backend
  import opened BackendInv
  import opened ProofExec
  import opened ProofWriteBack

  // The address unit marks an entry stable.
  lemma StableMode(c: Ctl, k: nat, e: R.RobEntry, pkg: nat, released: bool)
    requires CtlOk(c, pkg, released) && k < |c.rob.elems| && e == c.rob.elems[k].(isStable := true)
    ensures CtlOk(Ctl(Mark(c.rob, k, e), c.mode, c.tag, c.excp), pkg, released)
  {
  }

  function AguEntry(e: R.RobEntry, d: Decoded): R.RobEntry {
    if d.fu == STU then e.(isStable := true, done := true) else e.(isStable := true)
  }

  predicate AguLive(cfg: Config, mem0: Mem, s: State, id: nat) {
    && InvShape(cfg, s) && InvMaps(cfg, s) && InvArch(cfg, mem0, s) && InvMode(s) && InvPkg(s) && InvOps(cfg, s)
      && InvVals(cfg, s)
    && CanAgu(s, id) && LiveOp(s.rcu.rob, s.ops[id])
  }

  lemma AguFacts(cfg: Config, mem0: Mem, s: State, id: nat)
    requires AguLive(cfg, mem0, s, id)
    ensures var op := s.ops[id];
      var k := s.rcu.rob.Dist(op.robTag);
      var e := s.Rob()[k];
      && k < s.Held() && e.id == id && e.d == op.d && !e.done && e.lsqTag == op.lsqTag && op.d.WellDecoded()
      && SameEntry(e, AguEntry(e, op.d)) && (op.d.fu == STU ==> !op.d.Writes())
      && Agu(cfg, s, id).rcu == s.rcu.(rob := Mark(s.rcu.rob, k, AguEntry(e, op.d))) && Agu(cfg, s, id).Held() == s.Held()
      && cfg.addr(op.d, op.ValA()) == Address(cfg, s.g.archs[k], op.d) && op.ValB() == OperandB(s.g.archs[k], op.d)
      && OperandsOk(s.g.archs[k], op)
  {
    hide R.AllBelow, R.EntriesInRange, R.TagsInRange, MapsOk, ArchsOk, AllValid, MapsChain, ArchChain, InvMode, PkgOk,
      InvOps, InvVals, L.WriteBack, Result;
    LiveFacts(cfg, mem0, s, id);
  }

  lemma AguShape(cfg: Config, mem0: Mem, s: State, id: nat)
    requires AguLive(cfg, mem0, s, id) && InvCons(cfg, s)
    ensures var s' := Agu(cfg, s, id);
      InvShape(cfg, s') && InvMaps(cfg, s') && InvArch(cfg, mem0, s') && InvCons(cfg, s')
  {
    hide R.AllBelow, R.EntriesInRange, R.TagsInRange, MapsOk, ArchsOk, AllValid, MapsChain, ArchChain, InvMode, PkgOk,
      InvOps, InvVals, Conserved, R.AguDetect;
    AguFacts(cfg, mem0, s, id);
    var k := s.rcu.rob.Dist(s.ops[id].robTag);
    var e := AguEntry(s.Rob()[k], s.ops[id].d);
    MarkShape(s.rcu.rob, k, e, cfg.regCount, cfg.ldqSize, cfg.stqSize);
    MarkChains(cfg, s.rcu.rob, k, e, s.Held(), s.g.maps, s.g.archs, s.rcu.free);
  }

  lemma AguLsqOrder(l: L.Lsq, d: Decoded, tag: nat, addr: nat, data: Val, bound: nat)
    requires l.Valid() && (d.fu == LDU ==> tag < l.ldq.size) && (d.fu == STU ==> tag < l.stq.size)
    requires LdqSorted(l.ldq.elems, bound) && StqSorted(l.stq.elems, bound)
    ensures LdqSorted(L.WriteBack(l, d, tag, addr, data).ldq.elems, bound)
      && StqSorted(L.WriteBack(l, d, tag, addr, data).stq.elems, bound)
  {
  }

  lemma AguOrder(cfg: Config, mem0: Mem, s: State, id: nat)
    requires AguLive(cfg, mem0, s, id) && InvOrder(s)
    ensures InvOrder(Agu(cfg, s, id)) && InvMode(Agu(cfg, s, id)) && InvPkg(Agu(cfg, s, id))
  {
    hide R.AllBelow, R.EntriesInRange, R.TagsInRange, MapsOk, ArchsOk, AllValid, MapsChain, ArchChain, TagOk,
      FaultsBehind, EntriesOk, CauseOk, ReleasedOk, ReleasedSafe, PkgOk, InvOps, InvVals, RobSorted, LdqSorted,
      StqSorted, TagsMatch, IdsBelow, NotDead, CommitsOk, R.AguDetect, L.WriteBack;
    AguFacts(cfg, mem0, s, id);
    var op := s.ops[id];
    var k := s.rcu.rob.Dist(op.robTag);
    var e := AguEntry(s.Rob()[k], op.d);
    MarkOrder(s.rcu.rob, k, e, s.Held(), s.g.robTag, s.g.dead, s.g.commitIds, s.nextId);
    AguLsqOrder(s.lsq, op.d, op.lsqTag, cfg.addr(op.d, op.ValA()), op.ValB(), s.nextId);
    var c := CtlOf(s.rcu);
    assert CtlOk(c, s.pkg, s.g.released);
    if op.d.fu == STU {
      IdleHasNoFlush(c, k, s.pkg, s.g.released);
      RecordMode(c, k, e, s.pkg, s.g.released);
    } else {
      StableMode(c, k, e, s.pkg, s.g.released);
    }
  }

  lemma AguOps(cfg: Config, mem0: Mem, s: State, id: nat)
    requires AguLive(cfg, mem0, s, id) && InvShape(cfg, Agu(cfg, s, id))
    ensures InvOps(cfg, Agu(cfg, s, id)) && InvVals(cfg, Agu(cfg, s, id))
  {
    hide R.AllBelow, R.EntriesInRange, R.TagsInRange, MapsOk, ArchsOk, AllValid, MapsChain, ArchChain, InvMode, PkgOk,
      OpsShape, OpsTied, OpsSquashed, BranchOk, ValsOk, ForwardedDone, R.AguDetect, L.WriteBack, SameOps, OperandsOk;
    AguFacts(cfg, mem0, s, id);
    var op := s.ops[id];
    var k := s.rcu.rob.Dist(op.robTag);
    var e := AguEntry(s.Rob()[k], op.d);
    var q := Mark(s.rcu.rob, k, e);
    if op.d.fu == STU {
      MarkOps(cfg, s.rcu.rob, k, e, s.g.maps, s.g.archs, s.ops, id, s.rcu.busy);
      WrittenSquash(s.rcu.rob, k, e, s.rcu.mode, s.rcu.tag, s.rcu.mode, s.rcu.tag, s.ops, id, s.g.dead, s.rcu.free);
      FewerOps(cfg, s.ops, s.g.robTag, id);
    } else {
      var op' := op.(stage := InLsq);
      OperandsInLsq(s.g.archs[k], op);
      SetOp(cfg, s.rcu.rob, s.g.archs, s.ops, s.rcu.busy, id, op');
      OpsFrame(cfg, s.rcu, s.g.maps, s.g.robTag, s.g.dead, s.ops, s.ops[id := op']);
      StableOps(cfg, s.rcu, k, e, s.g.maps, s.g.archs, s.ops[id := op'], s.g.dead);
    }
  }

  lemma OperandsInLsq(a: Arch, op: Op)
    requires OperandsOk(a, op) && op.Ready()
    ensures OperandsOk(a, op.(stage := InLsq))
  {
  }

  lemma StableOps(cfg: Config, r: R.Rcu, k: nat, e: R.RobEntry, maps: seq<seq<nat>>, archs: seq<Arch>,
      ops: map<nat, Op>, dead: set<nat>)
    requires k < |r.rob.elems| && e == r.rob.elems[k].(isStable := true) && |maps| == |archs| == |r.rob.elems| + 1
    requires OpsTied(r.rob, maps, ops) && ValsOk(cfg, r.rob, archs, ops) && ForwardedDone(r.rob, ops, r.busy)
    requires OpsSquashed(r.rob, r.mode, ops, dead, r.free) && BranchOk(r.rob, r.mode, r.tag, ops)
    ensures var q := Mark(r.rob, k, e);
      && OpsTied(q, maps, ops) && ValsOk(cfg, q, archs, ops) && ForwardedDone(q, ops, r.busy)
      && OpsSquashed(q, r.mode, ops, dead, r.free) && BranchOk(q, r.mode, r.tag, ops)
  {
    hide OperandsOk, StageOk;
  }

  lemma AguRegs(cfg: Config, mem0: Mem, s: State, id: nat)
    requires AguLive(cfg, mem0, s, id) && InvRegs(cfg, s) && InvShape(cfg, Agu(cfg, s, id))
    ensures InvRegs(cfg, Agu(cfg, s, id))
  {
    hide R.AllBelow, R.EntriesInRange, R.TagsInRange, MapsOk, ArchsOk, AllValid, MapsChain, ArchChain, InvMode, PkgOk,
      InvOps, InvVals, ArchHeld, ResultsHeld, DoneHeld, R.AguDetect, L.WriteBack;
    AguFacts(cfg, mem0, s, id);
    var k := s.rcu.rob.Dist(s.ops[id].robTag);
    var e := AguEntry(s.Rob()[k], s.ops[id].d);
    MarkResults(s.rcu.rob, k, e, s.Held(), s.g.archs, s.rcu.busy, s.rcu.regs);
    MarkDone(s.rcu.rob, k, e, s.rcu.busy);
  }

  // ---- the load queue ---------------------------------------------------------------------------

  // Filling in the address of the waiting load in slot `tag`.
  lemma AddressLoad(cfg: Config, rob: Queue<R.RobEntry>, k: nat, held: nat, robTag: map<nat, nat>, archs: seq<Arch>, l: L.Lsq,
                    ops: map<nat, Op>, id: nat, addr: nat)
    requires l.Valid() && k < held <= |rob.elems| && |archs| == |rob.elems| + 1 && id in ops && ops[id].stage == Waiting
    requires rob.elems[k].id == id && rob.elems[k].d == ops[id].d && ops[id].d.fu == LDU && rob.elems[k].lsqTag == ops[id].lsqTag
    requires ops[id].lsqTag < l.ldq.size && IdPos(rob, robTag, id) == k && addr == Address(cfg, archs[k], ops[id].d)
    requires RobLoads(rob.elems, held, l.ldq) && LoadsTied(rob, held, robTag, l.ldq)
    requires LoadAddrs(cfg, rob, robTag, archs, l.ldq.elems) && LoadStages(l.ldq.elems, ops)
    ensures var j := l.ldq.Dist(ops[id].lsqTag);
      && 0 <= j < |l.ldq.elems| && Active(l.ldq.elems[j]) && l.ldq.elems[j].id == id
      && l.ldq.elems[j].state == L.LoadWaitSend && !l.ldq.elems[j].addressReady && l.ldq.elems[j].d == ops[id].d
      && L.WriteBack(l, ops[id].d, ops[id].lsqTag, addr, 0) ==
         l.(ldq := l.ldq.(elems := l.ldq.elems[j := l.ldq.elems[j].(addressReady := true, address := addr)]))
  {
  }

  function Addressed(ldq: Queue<L.LdqEntry>, j: nat, addr: nat): Queue<L.LdqEntry>
    requires j < |ldq.elems|
  { ldq.(elems := ldq.elems[j := ldq.elems[j].(addressReady := true, address := addr)]) }

  lemma AddressRobLoads(rob: seq<R.RobEntry>, held: nat, ldq: Queue<L.LdqEntry>, j: nat, addr: nat, dead: set<nat>)
    requires held <= |rob| && j < |ldq.elems| && RobLoads(rob, held, ldq) && LoadsDone(rob, ldq)
      && LoadsRetired(ldq.elems, dead, rob)
    ensures var q := Addressed(ldq, j, addr); RobLoads(rob, held, q) && LoadsDone(rob, q) && LoadsRetired(q.elems, dead, rob)
  {
  }

  lemma AddressTied(rob: Queue<R.RobEntry>, held: nat, robTag: map<nat, nat>, ldq: Queue<L.LdqEntry>, j: nat, addr: nat)
    requires held <= |rob.elems| && j < |ldq.elems| && LoadsTied(rob, held, robTag, ldq)
    ensures LoadsTied(rob, held, robTag, Addressed(ldq, j, addr))
  {
  }

  lemma AddressAddrs(cfg: Config, rob: Queue<R.RobEntry>, robTag: map<nat, nat>, archs: seq<Arch>,
      ldq: Queue<L.LdqEntry>, j: nat, addr: nat)
    requires j < |ldq.elems| && LoadAddrs(cfg, rob, robTag, archs, ldq.elems)
    requires 0 <= IdPos(rob, robTag, ldq.elems[j].id) < |archs|
      ==> addr == Address(cfg, archs[IdPos(rob, robTag, ldq.elems[j].id)], ldq.elems[j].d)
    ensures LoadAddrs(cfg, rob, robTag, archs, Addressed(ldq, j, addr).elems)
  {
  }

  lemma AddressStages(ldq: Queue<L.LdqEntry>, ops: map<nat, Op>, id: nat, j: nat, addr: nat, bound: nat)
    requires j < |ldq.elems| && ldq.elems[j].id == id && id in ops && LdqSorted(ldq.elems, bound)
    requires ldq.elems[j].state != L.LoadExecuted && LoadStages(ldq.elems, ops) && LoadOps(ldq, ops)
    ensures var ldq' := Addressed(ldq, j, addr);
      LoadStages(ldq'.elems, ops[id := ops[id].(stage := InLsq)]) && LoadOps(ldq', ops[id := ops[id].(stage := InLsq)])
  {
  }

  lemma AddressResps(cfg: Config, rob: Queue<R.RobEntry>, robTag: map<nat, nat>, archs: seq<Arch>,
      ldq: Queue<L.LdqEntry>, lresp: map<nat, Resp>, j: nat, addr: nat)
    requires j < |ldq.elems| && RespsTied(ldq, lresp) && RespsOk(cfg, rob, robTag, archs, ldq, lresp)
    ensures var ldq' := Addressed(ldq, j, addr);
      RespsTied(ldq', lresp) && RespsOk(cfg, rob, robTag, archs, ldq', lresp)
  {
    hide ResultOk;
  }

  lemma AguLdq(cfg: Config, mem0: Mem, s: State, id: nat)
    requires AguLive(cfg, mem0, s, id) && InvLdq(cfg, s) && InvOrder(s)
    ensures InvLdq(cfg, Agu(cfg, s, id))
  {
    hide R.AllBelow, R.EntriesInRange, R.TagsInRange, MapsOk, ArchsOk, AllValid, MapsChain, ArchChain, InvMode, PkgOk,
      InvOps, InvVals, RobLoads, LoadsTied, LoadAddrs, LoadStages, LoadsDone, LoadsRetired, LoadOps, RespsTied, RespsOk,
      RobSorted, LdqSorted, StqSorted, TagsMatch, IdsBelow, NotDead, CommitsOk, R.AguDetect;
    AguFacts(cfg, mem0, s, id);
    var op := s.ops[id];
    var k := s.rcu.rob.Dist(op.robTag);
    var e := AguEntry(s.Rob()[k], op.d);
    MarkLoads(cfg, s.rcu.rob, k, e, s.Held(), s.g.robTag, s.g.archs, s.lsq.ldq, s.g.dead);
    MarkResps(cfg, s.rcu.rob, k, e, s.g.robTag, s.g.archs, s.lsq.ldq, s.lresp);
    StableLoads(s.rcu.rob, k, e, s.lsq.ldq);
    if op.d.fu == LDU {
      TagOf(cfg, s, id);
      var addr := cfg.addr(op.d, op.ValA());
      var j := s.lsq.ldq.Dist(op.lsqTag);
      AddressLoad(cfg, s.rcu.rob, k, s.Held(), s.g.robTag, s.g.archs, s.lsq, s.ops, id, addr);
      AddressRobLoads(Mark(s.rcu.rob, k, e).elems, s.Held(), s.lsq.ldq, j, addr, s.g.dead);
      AddressTied(Mark(s.rcu.rob, k, e), s.Held(), s.g.robTag, s.lsq.ldq, j, addr);
      AddressAddrs(cfg, Mark(s.rcu.rob, k, e), s.g.robTag, s.g.archs, s.lsq.ldq, j, addr);
      AddressStages(s.lsq.ldq, s.ops, id, j, addr, s.nextId);
      AddressResps(cfg, Mark(s.rcu.rob, k, e), s.g.robTag, s.g.archs, s.lsq.ldq, s.lresp, j, addr);
    } else {
      StoreLeavesStages(cfg, s, id);
    }
  }

  lemma TagOf(cfg: Config, s: State, id: nat)
    requires InvShape(cfg, s) && InvOps(cfg, s) && id in s.ops
    ensures IdPos(s.rcu.rob, s.g.robTag, id) == s.rcu.rob.Dist(s.ops[id].robTag)
  {
  }

  lemma StableLoads(rob: Queue<R.RobEntry>, k: nat, e: R.RobEntry, ldq: Queue<L.LdqEntry>)
    requires k < |rob.elems| && LoadsDone(rob.elems, ldq) && SameEntry(rob.elems[k], e)
      && (e.d.fu != LDU || e == rob.elems[k].(isStable := true))
    ensures LoadsDone(Mark(rob, k, e).elems, ldq)
  {
  }

  lemma StoreLeavesStages(cfg: Config, s: State, id: nat)
    requires InvShape(cfg, s) && InvOps(cfg, s) && InvLdq(cfg, s) && id in s.ops && s.ops[id].d.fu == STU
    ensures LoadStages(s.lsq.ldq.elems, s.ops - {id}) && LoadOps(s.lsq.ldq, s.ops - {id})
  {
    hide R.AllBelow, R.EntriesInRange, R.TagsInRange, MapsOk, ArchsOk, AllValid, OpsShape, OpsTied, OpsSquashed,
      BranchOk, RobLoads, LoadsTied, LoadAddrs, LoadsDone, LoadsRetired, RespsTied, RespsOk;
    forall j | 0 <= j < |s.lsq.ldq.elems| && Active(s.lsq.ldq.elems[j]) && s.lsq.ldq.elems[j].id in s.ops
      ensures s.lsq.ldq.elems[j].id != id
    {
      ActiveIsLoad(cfg, s.rcu.rob, s.Held(), s.g.maps, s.g.robTag, s.ops, s.lsq.ldq, j);
    }
  }

  // ---- the store queue --------------------------------------------------------------------------

  lemma AddressStore(rob: seq<R.RobEntry>, k: nat, held: nat, l: L.Lsq, d: Decoded, addr: nat, data: Val)
    requires l.Valid() && k < held <= |rob| && rob[k].d == d && d.fu == STU && rob[k].lsqTag < l.stq.size
      && RobStores(rob, held, l.stq)
    ensures var j := l.stq.Dist(rob[k].lsqTag);
      && 0 <= j < |l.stq.elems| && !l.stq.elems[j].commited && l.stq.elems[j].id == rob[k].id
      && L.WriteBack(l, d, rob[k].lsqTag, addr, data) ==
         l.(stq := l.stq.(elems := l.stq.elems[j := l.stq.elems[j].(addressReady := true, address := addr, data := data)]))
  {
  }

  function Filled(stq: Queue<L.StqEntry>, j: nat, addr: nat, data: Val): Queue<L.StqEntry>
    requires j < |stq.elems|
  { stq.(elems := stq.elems[j := stq.elems[j].(addressReady := true, address := addr, data := data)]) }

  lemma FillStores(rob: Queue<R.RobEntry>, held: nat, robTag: map<nat, nat>, stq: Queue<L.StqEntry>, j: nat, addr: nat,
      data: Val, ids: seq<nat>)
    requires held <= |rob.elems| && j < |stq.elems| && !stq.elems[j].commited
    requires RobStores(rob.elems, held, stq) && StoresTied(rob, held, robTag, stq) && StoresRetired(stq.elems, rob.elems)
    requires StoresKept(stq.elems, ids) && StoresInOrder(stq.elems)
    ensures var q := Filled(stq, j, addr, data);
      && RobStores(rob.elems, held, q) && StoresTied(rob, held, robTag, q) && StoresRetired(q.elems, rob.elems)
      && StoresKept(q.elems, ids) && StoresInOrder(q.elems)
  {
  }

  lemma FillData(cfg: Config, rob: Queue<R.RobEntry>, k: nat, held: nat, archs: seq<Arch>, stq: Queue<L.StqEntry>,
      j: nat, addr: nat, data: Val, e: R.RobEntry, bound: nat)
    requires k < held <= |rob.elems| && |archs| > |rob.elems| && j < |stq.elems| && j == stq.Dist(rob.elems[k].lsqTag)
    requires SameEntry(rob.elems[k], e) && RobSorted(rob.elems, bound) && RobStores(rob.elems, held, stq)
    requires forall i :: held <= i < |rob.elems| ==> rob.elems[i].fault.Some?
    requires rob.elems[k].d.fu == STU && addr == Address(cfg, archs[k], rob.elems[k].d)
      && data == OperandB(archs[k], rob.elems[k].d)
    requires StoreData(cfg, rob.elems, archs, stq)
    ensures StoreData(cfg, Mark(rob, k, e).elems, archs, Filled(stq, j, addr, data))
  {
  }

  lemma FillOps(stq: Queue<L.StqEntry>, j: nat, addr: nat, data: Val, ops: map<nat, Op>, id: nat, sresp: map<nat, nat>,
      bound: nat)
    requires j < |stq.elems| && StoreOps(stq, ops) && StoreResps(stq, sresp) && StqSorted(stq.elems, bound)
    ensures StoreOps(Filled(stq, j, addr, data), ops - {id}) && StoreResps(Filled(stq, j, addr, data), sresp)
  {
    assert StoreOps(Filled(stq, j, addr, data), ops - {id}) by {
      hide StoreResps, StqSorted;
    }
    assert StoreResps(Filled(stq, j, addr, data), sresp) by {
      hide StoreOps, StqSorted;
    }
  }

  lemma FillMem(cfg: Config, mem: Mem, l: L.Lsq, j: nat, addr: nat, data: Val, trace: seq<nat>, dead: set<nat>)
    requires j < |l.stq.elems| && !l.stq.elems[j].commited && DepsOk(l.ldq.elems, l.stq)
      && TraceBeforeStores(trace, dead, l.stq.elems)
    ensures var q := Filled(l.stq, j, addr, data);
      && DepsOk(l.ldq.elems, q) && TraceBeforeStores(trace, dead, q.elems)
      && Drain(cfg, mem, q.elems) == Drain(cfg, mem, l.stq.elems)
  {
    DrainFill(cfg, mem, l.stq.elems, j, l.stq.elems[j].(addressReady := true, address := addr, data := data));
  }

  lemma {:induction false} DrainFill(cfg: Config, mem: Mem, q: seq<L.StqEntry>, j: nat, t: L.StqEntry)
    requires j < |q| && !Pending(q[j]) && !Pending(t)
    ensures Drain(cfg, mem, q[j := t]) == Drain(cfg, mem, q)
    decreases |q|
  {
    if j == 0 {
      assert q[j := t][1..] == q[1..];
    } else {
      var mem' := if Pending(q[0]) then cfg.store(mem, q[0].d, q[0].address, q[0].data) else mem;
      DrainFill(cfg, mem', q[1..], j - 1, t);
      assert q[j := t][1..] == q[1..][j - 1 := t];
    }
  }

  lemma AguStq(cfg: Config, mem0: Mem, s: State, id: nat)
    requires AguLive(cfg, mem0, s, id) && InvStq(cfg, s) && InvMem(cfg, s) && InvOrder(s) && InvShape(cfg, Agu(cfg, s, id))
    ensures InvStq(cfg, Agu(cfg, s, id)) && InvMem(cfg, Agu(cfg, s, id))
  {
    hide R.AllBelow, R.EntriesInRange, R.TagsInRange, MapsOk, ArchsOk, AllValid, MapsChain, ArchChain, TagOk,
      FaultsBehind, EntriesOk, CauseOk, ReleasedSafe, PkgOk, InvOps, InvVals, RobStores, StoreData, StoresTied,
      StoresRetired, StoresKept, StoreOps, StoreResps, StoresInOrder, DepsOk, Drain, TraceSorted, TraceBeforeStores,
      TraceBeforeLoads, RobSorted, LdqSorted, StqSorted, TagsMatch, IdsBelow, NotDead, CommitsOk, R.AguDetect, Filled;
    AguFacts(cfg, mem0, s, id);
    var op := s.ops[id];
    var k := s.rcu.rob.Dist(op.robTag);
    var e := AguEntry(s.Rob()[k], op.d);
    MarkStores(s.rcu.rob, k, e, s.Held(), s.g.robTag, s.lsq.stq);
    if op.d.fu == STU {
      var addr := cfg.addr(op.d, op.ValA());
      var j := s.lsq.stq.Dist(op.lsqTag);
      AddressStore(s.Rob(), k, s.Held(), s.lsq, op.d, addr, op.ValB());
      assert Agu(cfg, s, id).lsq.stq == Filled(s.lsq.stq, j, addr, op.ValB()) by { FilledIs(s.lsq.stq, j, addr, op.ValB()); }
      FillStores(Mark(s.rcu.rob, k, e), s.Held(), s.g.robTag, s.lsq.stq, j, addr, op.ValB(), s.g.commitIds);
      FillData(cfg, s.rcu.rob, k, s.Held(), s.g.archs, s.lsq.stq, j, addr, op.ValB(), e, s.nextId);
      FillOps(s.lsq.stq, j, addr, op.ValB(), s.ops, id, s.sresp, s.nextId);
      FillMem(cfg, s.mem, s.lsq, j, addr, op.ValB(), s.g.trace, s.g.dead);
    } else {
      MarkStoreData(cfg, s.rcu.rob, k, e, s.g.archs, s.lsq.stq);
      LoadLeavesStores(s.lsq.stq, s.ops, id);
      AddressDeps(s.lsq, op.d, op.lsqTag, cfg.addr(op.d, op.ValA()), op.ValB(), s.g.trace, s.g.dead);
    }
  }

  lemma FilledIs(stq: Queue<L.StqEntry>, j: nat, addr: nat, data: Val)
    requires j < |stq.elems|
    ensures Filled(stq, j, addr,
      data) == stq.(elems := stq.elems[j := stq.elems[j].(addressReady := true, address := addr, data := data)])
  {
  }

  lemma LoadLeavesStores(stq: Queue<L.StqEntry>, ops: map<nat, Op>, id: nat)
    requires StoreOps(stq, ops) && id in ops && ops[id].d.fu == LDU
    ensures StoreOps(stq, ops[id := ops[id].(stage := InLsq)])
  {
  }

  lemma AddressDeps(l: L.Lsq, d: Decoded, tag: nat, addr: nat, data: Val, trace: seq<nat>, dead: set<nat>)
    requires l.Valid() && d.fu == LDU && tag < l.ldq.size && DepsOk(l.ldq.elems, l.stq)
      && TraceBeforeLoads(trace, dead, l.ldq.elems)
    ensures DepsOk(L.WriteBack(l, d, tag, addr, data).ldq.elems, l.stq)
    ensures TraceBeforeLoads(trace, dead, L.WriteBack(l, d, tag, addr, data).ldq.elems)
    ensures L.WriteBack(l, d, tag, addr, data).stq == l.stq
  {
  }

  lemma AguLiveInv(cfg: Config, mem0: Mem, s: State, id: nat)
    requires Inv(cfg, mem0, s) && CanAgu(s, id) && LiveOp(s.rcu.rob, s.ops[id])
    ensures Inv(cfg, mem0, Agu(cfg, s, id))
  {
    hide InvShape, InvOrder, InvMaps, InvArch, InvCons, InvMode, InvPkg, InvOps, InvRegs, InvVals, InvLdq, InvStq,
      InvMem, Agu;
    AguShape(cfg, mem0, s, id);
    AguOrder(cfg, mem0, s, id);
    AguOps(cfg, mem0, s, id);
    AguRegs(cfg, mem0, s, id);
    AguLdq(cfg, mem0, s, id);
    AguStq(cfg, mem0, s, id);
  }

  // ---- a squashed load or store -----------------------------------------------------------------

  // A squashed load may still fill in the address of its own, killed, entry.
  lemma AguDeadLoad(cfg: Config, s: State, id: nat)
    requires InvShape(cfg, s) && InvOps(cfg, s) && InvLdq(cfg, s) && CanAgu(s, id) && s.ops[id].d.fu == LDU
    requires !LiveOp(s.rcu.rob, s.ops[id]) && s.lsq.ldq.Live(s.ops[id].lsqTag)
    ensures !Active(s.lsq.ldq.elems[s.lsq.ldq.Dist(s.ops[id].lsqTag)])
  {
  }

  // A squashed store's slot is dead.
  lemma AguDeadStore(cfg: Config, s: State, id: nat)
    requires InvShape(cfg, s) && InvOps(cfg, s) && InvStq(cfg, s) && InvOrder(s) && CanAgu(s, id) && s.ops[id].d.fu == STU
    requires !LiveOp(s.rcu.rob, s.ops[id])
    ensures !s.lsq.stq.Live(s.ops[id].lsqTag)
  {
    hide R.AllBelow, R.EntriesInRange, R.TagsInRange, MapsOk, ArchsOk, AllValid, OpsTied, BranchOk, RobStores,
      StoreData, StoresRetired, StoreResps, StoresInOrder, RobSorted, LdqSorted, StqSorted, TagsMatch, IdsBelow,
      NotDead;
    if s.lsq.stq.Live(s.ops[id].lsqTag) {
      var t := s.lsq.stq.elems[s.lsq.stq.Dist(s.ops[id].lsqTag)];
      assert t.id == id;
      KeptNotDead(s.g.commitIds, s.g.dead, s.Rob(), s.nextId, id);
    }
  }

  lemma KeptNotDead(ids: seq<nat>, dead: set<nat>, rob: seq<R.RobEntry>, bound: nat, id: nat)
    requires CommitsOk(ids, dead, rob, bound)
    ensures id in ids ==> id !in dead
  {
  }

  lemma PassiveAddrs(cfg: Config, rob: Queue<R.RobEntry>, robTag: map<nat, nat>, archs: seq<Arch>,
      ldq: Queue<L.LdqEntry>, j: nat, addr: nat)
    requires j < |ldq.elems| && !Active(ldq.elems[j]) && LoadAddrs(cfg, rob, robTag, archs, ldq.elems)
    ensures LoadAddrs(cfg, rob, robTag, archs, Addressed(ldq, j, addr).elems)
  {
  }

  lemma SquashedStages(cfg: Config, s: State, id: nat, op': Op)
    requires InvShape(cfg, s) && InvOps(cfg, s) && InvLdq(cfg, s) && id in s.ops && !LiveOp(s.rcu.rob, s.ops[id])
    ensures LoadStages(s.lsq.ldq.elems, s.ops[id := op']) && LoadStages(s.lsq.ldq.elems, s.ops - {id})
  {
    hide R.AllBelow, R.EntriesInRange, R.TagsInRange, MapsOk, ArchsOk, AllValid, OpsShape, OpsTied, OpsSquashed,
      BranchOk, RobLoads, LoadsTied, LoadAddrs, LoadsDone, LoadsRetired, LoadOps, RespsTied, RespsOk;
    forall j | 0 <= j < |s.lsq.ldq.elems| && Active(s.lsq.ldq.elems[j]) && s.lsq.ldq.elems[j].id in s.ops
      ensures s.lsq.ldq.elems[j].id != id
    {
      ActiveIsLoad(cfg, s.rcu.rob, s.Held(), s.g.maps, s.g.robTag, s.ops, s.lsq.ldq, j);
    }
  }

  // What address generation does for a squashed instruction.
  lemma AguDeadEffect(cfg: Config, s: State, id: nat)
    requires InvShape(cfg, s) && InvOps(cfg, s) && InvLdq(cfg, s) && InvStq(cfg, s) && InvOrder(s) && CanAgu(s, id)
    requires !LiveOp(s.rcu.rob, s.ops[id])
    ensures var s' := Agu(cfg, s, id);
      var op := s.ops[id];
      && s' == s.(lsq := s'.lsq, ops := s'.ops) && s'.lsq.stq == s.lsq.stq
      && s'.ops == (if op.d.fu == LDU then s.ops[id := op.(stage := InLsq)] else s.ops - {id})
      && var j := s.lsq.ldq.Dist(op.lsqTag);
         if op.d.fu == LDU && 0 <= j < |s.lsq.ldq.elems| then
           !Active(s.lsq.ldq.elems[j]) && s'.lsq.ldq == Addressed(s.lsq.ldq, j, cfg.addr(op.d, op.ValA()))
         else s'.lsq.ldq == s.lsq.ldq
  {
    hide R.AllBelow, R.EntriesInRange, R.TagsInRange, MapsOk, ArchsOk, AllValid, InvOps, InvLdq, InvStq, InvOrder;
    var op := s.ops[id];
    if op.d.fu == STU {
      AguDeadStore(cfg, s, id);
    } else if s.lsq.ldq.Live(op.lsqTag) {
      AguDeadLoad(cfg, s, id);
    }
  }

  lemma AguDeadOps(cfg: Config, s: State, id: nat)
    requires InvShape(cfg, s) && InvOps(cfg, s) && InvVals(cfg, s) && CanAgu(s, id) && !LiveOp(s.rcu.rob, s.ops[id])
    ensures SameOps(s.ops, Agu(cfg, s, id).ops)
    ensures ValsOk(cfg, s.rcu.rob, s.g.archs, Agu(cfg, s, id).ops) && ForwardedDone(s.rcu.rob, Agu(cfg, s, id).ops, s.rcu.busy)
  {
    hide R.AllBelow, R.EntriesInRange, R.TagsInRange, MapsOk, ArchsOk, AllValid, InvOps, ValsOk, ForwardedDone,
      SameOps, L.WriteBack, R.AguDetect;
    if s.ops[id].d.fu == LDU {
      SetOp(cfg, s.rcu.rob, s.g.archs, s.ops, s.rcu.busy, id, s.ops[id].(stage := InLsq));
    } else {
      DropOp(cfg, s.rcu.rob, s.g.archs, s.ops, s.rcu.busy, id);
    }
  }

  lemma AguDeadInv(cfg: Config, mem0: Mem, s: State, id: nat)
    requires Inv(cfg, mem0, s) && CanAgu(s, id) && !LiveOp(s.rcu.rob, s.ops[id])
    ensures Inv(cfg, mem0, Agu(cfg, s, id))
  {
    hide InvShape, InvOrder, InvMaps, InvArch, InvCons, InvMode, InvPkg, InvOps, InvRegs, InvVals, InvLdq, InvStq,
      InvMem, Agu, SameOps, Addressed, ValsOk, ForwardedDone, LoadStages;
    var op := s.ops[id];
    var ops' := Agu(cfg, s, id).ops;
    AguDeadEffect(cfg, s, id);
    AguDeadOps(cfg, s, id);
    SquashedStages(cfg, s, id, op.(stage := InLsq));
    OpsOnlyInv(cfg, mem0, s, ops');
    var t := s.(ops := ops');
    var j := s.lsq.ldq.Dist(op.lsqTag);
    if op.d.fu == LDU && 0 <= j < |s.lsq.ldq.elems| {
      AddressedInv(cfg, mem0, t, j, cfg.addr(op.d, op.ValA()));
    }
  }

  lemma AddressedInv(cfg: Config, mem0: Mem, s: State, j: nat, addr: nat)
    requires Inv(cfg, mem0, s) && j < |s.lsq.ldq.elems| && !Active(s.lsq.ldq.elems[j])
    ensures Inv(cfg, mem0, s.(lsq := s.lsq.(ldq := Addressed(s.lsq.ldq, j, addr))))
  {
    hide R.AllBelow, R.EntriesInRange, R.TagsInRange, MapsOk, ArchsOk, AllValid, RobSorted, LdqSorted, StqSorted,
      TagsMatch, IdsBelow, NotDead, CommitsOk, MapsChain, ArchChain, Conserved, TagOk, FaultsBehind, EntriesOk,
      CauseOk, ReleasedOk, ReleasedSafe, PkgOk, OpsShape, OpsTied, OpsSquashed, BranchOk, ArchHeld, ResultsHeld,
      DoneHeld, ValsOk, ForwardedDone, RobLoads, LoadsTied, LoadAddrs, LoadStages, LoadsDone, LoadsRetired, LoadOps,
      RespsTied, RespsOk, RobStores, StoreData, StoresTied, StoresRetired, StoresKept, StoreOps, StoreResps,
      StoresInOrder, DepsOk, Drain, TraceSorted, TraceBeforeStores, TraceBeforeLoads, Addressed;
    AddressedStages(s.lsq.ldq, j, addr, s.ops);
    AddressRobLoads(s.Rob(), s.Held(), s.lsq.ldq, j, addr, s.g.dead);
    AddressTied(s.rcu.rob, s.Held(), s.g.robTag, s.lsq.ldq, j, addr);
    AddressResps(cfg, s.rcu.rob, s.g.robTag, s.g.archs, s.lsq.ldq, s.lresp, j, addr);
    PassiveAddrs(cfg, s.rcu.rob, s.g.robTag, s.g.archs, s.lsq.ldq, j, addr);
    AddressedRest(s.lsq, j, addr, s.nextId, s.g.trace, s.g.dead);
  }

  lemma AddressedStages(ldq: Queue<L.LdqEntry>, j: nat, addr: nat, ops: map<nat, Op>)
    requires j < |ldq.elems| && !Active(ldq.elems[j]) && LoadStages(ldq.elems, ops) && LoadOps(ldq, ops)
    ensures LoadStages(Addressed(ldq, j, addr).elems, ops) && LoadOps(Addressed(ldq, j, addr), ops)
  {
  }

  lemma AddressedRest(l: L.Lsq, j: nat, addr: nat, bound: nat, trace: seq<nat>, dead: set<nat>)
    requires l.Valid() && j < |l.ldq.elems| && LdqSorted(l.ldq.elems, bound) && DepsOk(l.ldq.elems, l.stq)
      && TraceBeforeLoads(trace, dead, l.ldq.elems)
    ensures var q := Addressed(l.ldq, j, addr);
      && q.Valid() && q.size == l.ldq.size && LdqSorted(q.elems, bound) && DepsOk(q.elems, l.stq)
        && TraceBeforeLoads(trace, dead, q.elems)
  {
  }

  lemma AguInv(cfg: Config, mem0: Mem, s: State, id: nat)
    requires Inv(cfg, mem0, s) && CanAgu(s, id)
    ensures Inv(cfg, mem0, Agu(cfg, s, id))
  {
    hide InvShape, InvOrder, InvMaps, InvArch, InvCons, InvMode, InvPkg, InvOps, InvRegs, InvVals, InvLdq, InvStq,
      InvMem, Agu;
    if LiveOp(s.rcu.rob, s.ops[id]) {
      AguLiveInv(cfg, mem0, s, id);
    } else {
      AguDeadInv(cfg, mem0, s, id);
    }
  }

  // ---- choosing the commit package --------------------------------------------------------------

  // Every entry of the package from position i on is done and may retire.
  lemma {:induction false} PackageReady(r: R.Rcu, width: nat, i: nat)
    requires r.Valid() && i <= |r.rob.elems| && AllValid(r.rob.elems)
    requires TagOk(r.rob, r.mode, r.tag) && (r.mode == R.Undo ==> i <= r.rob.Dist(r.tag))
      && (r.mode == R.WaitForResume ==> i <= r.rob.Dist(r.tag) + 1)
    ensures var n := i + R.PackageFrom(r, width, i);
      && n <= |r.rob.elems| && (forall k :: i <= k < n ==> r.rob.elems[k].done)
      && (r.mode == R.Undo ==> n <= r.rob.Dist(r.tag)) && (r.mode == R.WaitForResume ==> n <= r.rob.Dist(r.tag) + 1)
    decreases |r.rob.elems| - i
  {
    if R.PackageFrom(r, width, i) > 0 {
      SlotPos(r.rob, i);
      OlderIsDistance(r.rob.size, r.rob.head, r.rob.Slot(i), r.tag);
      PackageReady(r, width, i + 1);
    }
  }

  lemma SendCommitInv(cfg: Config, mem0: Mem, s: State, width: nat)
    requires Inv(cfg, mem0, s) && CanSendCommit(s)
    ensures Inv(cfg, mem0, SendCommit(s, width))
  {
    hide R.AllBelow, R.EntriesInRange, R.TagsInRange, MapsOk, ArchsOk, AllValid, RobSorted, LdqSorted, StqSorted,
      TagsMatch, IdsBelow, NotDead, CommitsOk, MapsChain, ArchChain, Conserved, FaultsBehind, EntriesOk, CauseOk,
      ReleasedOk, ReleasedSafe, OpsShape, OpsTied, OpsSquashed, BranchOk, ArchHeld, ResultsHeld, DoneHeld, ValsOk,
      ForwardedDone, RobLoads, LoadsTied, LoadAddrs, LoadStages, LoadsDone, LoadsRetired, LoadOps, RespsTied, RespsOk,
      RobStores, StoreData, StoresTied, StoresRetired, StoresKept, StoreOps, StoreResps, StoresInOrder, DepsOk, Drain,
      TraceSorted, TraceBeforeStores, TraceBeforeLoads;
    PackageReady(s.rcu, width, 0);
  }
}
