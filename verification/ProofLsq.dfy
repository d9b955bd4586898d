// The memory side: requests, responses and retirement of queue entries keep the invariant.
module ProofLsq {
  import opened DynInsn
  import opened LoopQueue
  import L = LsqSpec
  import R = RcuSpec
  import opened Backend
  import opened BackendInv
  import opened ProofExec
  import opened ProofCommit

  // ---- changing a load's state ------------------------------------------------------------------

  function LoadAt(ldq: Queue<L.LdqEntry>, j: nat, st: L.LoadState): Queue<L.LdqEntry>
    requires j < |ldq.elems|
  { ldq.(elems := ldq.elems[j := ldq.elems[j].(state := st)]) }

  lemma StateOrder(ldq: Queue<L.LdqEntry>, j: nat, st: L.LoadState, bound: nat)
    requires j < |ldq.elems| && LdqSorted(ldq.elems, bound)
    ensures LdqSorted(LoadAt(ldq, j, st).elems, bound)
  {
  }

  lemma StateRob(rob: seq<R.RobEntry>, held: nat, ldq: Queue<L.LdqEntry>, j: nat, st: L.LoadState)
    requires j < |ldq.elems| && RobLoads(rob, held, ldq) && LoadsDone(rob, ldq)
    requires st == L.LoadExecuted || ldq.elems[j].state == L.LoadWaitSend
    ensures RobLoads(rob, held, LoadAt(ldq, j, st)) && LoadsDone(rob, LoadAt(ldq, j, st))
  {
  }

  lemma StateTied(rob: Queue<R.RobEntry>, held: nat, robTag: map<nat, nat>, ldq: Queue<L.LdqEntry>, j: nat, st: L.LoadState)
    requires held <= |rob.elems| && j < |ldq.elems| && LoadsTied(rob, held, robTag, ldq)
    ensures LoadsTied(rob, held, robTag, LoadAt(ldq, j, st))
  {
  }

  lemma StateAddrs(cfg: Config, rob: Queue<R.RobEntry>, robTag: map<nat, nat>, archs: seq<Arch>,
      ldq: Queue<L.LdqEntry>, j: nat, st: L.LoadState,
                   dead: set<nat>)
    requires j < |ldq.elems| && LoadAddrs(cfg, rob, robTag, archs, ldq.elems) && LoadsRetired(ldq.elems, dead, rob.elems)
    requires st == L.LoadExecuted || ldq.elems[j].state == L.LoadWaitSend
    requires Active(ldq.elems[j]) ==> ldq.elems[j].addressReady
    ensures LoadAddrs(cfg, rob, robTag, archs, LoadAt(ldq, j, st).elems)
      && LoadsRetired(LoadAt(ldq, j, st).elems, dead, rob.elems)
  {
  }

  // ---- issuing a load ---------------------------------------------------------------------------

  predicate Issues(cfg: Config, s: State) { InvShape(cfg, s) && CanIssueLoad(s) }

  lemma IssueFacts(cfg: Config, s: State)
    requires Issues(cfg, s) && InvLdq(cfg, s)
    ensures var j := L.LoadToIssue(s.lsq).value;
      var e := s.lsq.ldq.elems[j];
      && Active(e) && e.state == L.LoadWaitSend && e.addressReady && !e.hasDependancy
      && s.lsq.ldq.Dist(s.lsq.ldq.Slot(j)) == j && s.lsq.ldq.Slot(j) < s.lsq.ldq.size
      && IssueLoad(cfg, s).lsq == L.Lsq(LoadAt(s.lsq.ldq, j, L.LoadInflight), s.lsq.stq)
      && forall i :: 0 <= i < j ==> s.lsq.ldq.elems[i].killed || s.lsq.ldq.elems[i].state != L.LoadWaitSend
  {
    hide R.AllBelow, R.EntriesInRange, R.TagsInRange, MapsOk, ArchsOk, AllValid, RobLoads, LoadsTied, LoadAddrs,
      LoadStages, LoadsDone, LoadOps, RespsTied, RespsOk;
    SlotPos(s.lsq.ldq, L.LoadToIssue(s.lsq).value);
  }

  lemma {:induction false} SameMemory(cfg: Config, rob: seq<R.RobEntry>, archs: seq<Arch>, k: nat)
    requires |archs| == |rob| + 1 && k <= |rob| && ArchChain(cfg, rob, archs)
    requires forall i :: 0 <= i < k ==> rob[i].d.fu != STU
    ensures archs[k].mem == archs[0].mem
    decreases k
  {
    if k > 0 {
      SameMemory(cfg, rob, archs, k - 1);
      assert archs[k] == SeqStep(cfg, archs[k - 1], rob[k - 1].d);
    }
  }

  // A load without dependence reads exactly the memory the sequential machine has before it.
  lemma LoadSeesMemory(cfg: Config, rob: seq<R.RobEntry>, held: nat, archs: seq<Arch>, l: L.Lsq, mem: Mem, k: nat,
      j: nat, bound: nat)
    requires |archs| == |rob| + 1 && k < held <= |rob| && j < |l.ldq.elems| && ArchChain(cfg, rob, archs)
    requires l.ldq.elems[j].id == rob[k].id && !l.ldq.elems[j].hasDependancy && !l.ldq.elems[j].killed
    requires RobSorted(rob, bound) && RobStores(rob, held, l.stq) && StoresRetired(l.stq.elems, rob) && DepsOk(l.ldq.elems, l.stq)
    requires Drain(cfg, mem, l.stq.elems) == archs[0].mem
    ensures mem == archs[k].mem
  {
    assert DepOk(l.ldq.elems[j], l.stq);
    NothingPending(cfg, mem, l.stq.elems);
    SameMemory(cfg, rob, archs, k);
  }

  // The value requested for an active load is its sequential result.
  lemma IssuedValue(cfg: Config, mem0: Mem, s: State)
    requires Issues(cfg, s) && InvLdq(cfg, s) && InvStq(cfg, s) && InvMem(cfg, s) && InvArch(cfg, mem0, s) && InvOrder(s)
    ensures var j := L.LoadToIssue(s.lsq).value;
      var e := s.lsq.ldq.elems[j];
      && 0 <= IdPos(s.rcu.rob, s.g.robTag, e.id) < s.Held()
      && ResultOk(cfg, s.g.archs[IdPos(s.rcu.rob, s.g.robTag, e.id)], e.d,
                  LoadResult(cfg, s.mem, e.d, e.address), cfg.loadFault(e.d, e.address))
  {
    hide R.AllBelow, R.EntriesInRange, R.TagsInRange, MapsOk, ArchsOk, AllValid, RobLoads, LoadStages, LoadsDone,
      LoadsRetired, LoadOps, RespsTied, RespsOk, RobStores, StoreData, StoresTied, StoresRetired, StoresKept,
      StoreOps, StoreResps, StoresInOrder, DepsOk, Drain, TraceSorted, TraceBeforeStores, TraceBeforeLoads, ArchChain,
      RobSorted, LdqSorted, StqSorted, TagsMatch, IdsBelow, NotDead, CommitsOk, Address;
    IssueFacts(cfg, s);
    var j := L.LoadToIssue(s.lsq).value;
    var e := s.lsq.ldq.elems[j];
    var k := IdPos(s.rcu.rob, s.g.robTag, e.id);
    LoadSeesMemory(cfg, s.Rob(), s.Held(), s.g.archs, s.lsq, s.mem, k, j, s.nextId);
  }

  lemma IssueStages(ldq: Queue<L.LdqEntry>, ops: map<nat, Op>, j: nat)
    requires j < |ldq.elems| && ldq.elems[j].state == L.LoadWaitSend && LoadStages(ldq.elems, ops) && LoadOps(ldq, ops)
    ensures LoadStages(LoadAt(ldq, j, L.LoadInflight).elems, ops) && LoadOps(LoadAt(ldq, j, L.LoadInflight), ops)
  {
  }

  lemma IssueTied(ldq: Queue<L.LdqEntry>, lresp: map<nat, Resp>, j: nat, slot: nat, v: Val, f: Option<Fault>)
    requires j < |ldq.elems| && slot < ldq.size && ldq.Dist(slot) == j && ldq.elems[j].state == L.LoadWaitSend
      && RespsTied(ldq, lresp)
    ensures RespsTied(LoadAt(ldq, j, L.LoadInflight), lresp[slot := Resp(ldq.elems[j].id, v, f)])
  {
  }

  lemma IssueResps(cfg: Config, rob: Queue<R.RobEntry>, robTag: map<nat, nat>, archs: seq<Arch>,
      ldq: Queue<L.LdqEntry>, lresp: map<nat, Resp>,
                   j: nat, slot: nat, v: Val, f: Option<Fault>)
    requires j < |ldq.elems| && ldq.Dist(slot) == j && ldq.elems[j].state == L.LoadWaitSend && RespsTied(ldq, lresp)
    requires RespsOk(cfg, rob, robTag, archs, ldq, lresp)
    requires 0 <= IdPos(rob, robTag, ldq.elems[j].id) < |archs|
    requires ResultOk(cfg, archs[IdPos(rob, robTag, ldq.elems[j].id)], ldq.elems[j].d, v, f)
    ensures RespsOk(cfg, rob, robTag, archs, LoadAt(ldq, j, L.LoadInflight), lresp[slot := Resp(ldq.elems[j].id, v, f)])
  {
  }

  // The new access comes after every earlier one of an instruction that is not dead.
  lemma IssueTrace(l: L.Lsq, j: nat, trace: seq<nat>, dead: set<nat>, bound: nat)
    requires j < |l.ldq.elems| && LdqSorted(l.ldq.elems, bound) && DepsOk(l.ldq.elems, l.stq)
    requires !l.ldq.elems[j].killed && l.ldq.elems[j].state == L.LoadWaitSend && !l.ldq.elems[j].hasDependancy
    requires forall i :: 0 <= i < j ==> l.ldq.elems[i].killed || l.ldq.elems[i].state != L.LoadWaitSend
    requires TraceSorted(trace, dead, bound) && TraceBeforeStores(trace, dead, l.stq.elems)
      && TraceBeforeLoads(trace, dead, l.ldq.elems)
    ensures var t := trace + [l.ldq.elems[j].id];
      && TraceSorted(t, dead, bound) && TraceBeforeStores(t, dead, l.stq.elems)
      && TraceBeforeLoads(t, dead, LoadAt(l.ldq, j, L.LoadInflight).elems)
  {
  }

  lemma StateDeps(l: L.Lsq, j: nat, st: L.LoadState)
    requires j < |l.ldq.elems| && DepsOk(l.ldq.elems, l.stq)
    ensures DepsOk(LoadAt(l.ldq, j, st).elems, l.stq)
  {
  }

  lemma DepSame(e: L.LdqEntry, e': L.LdqEntry, q: Queue<L.StqEntry>)
    requires e'.id == e.id && e'.hasDependancy == e.hasDependancy && e'.oldestStqTag == e.oldestStqTag && DepOk(e, q)
    ensures DepOk(e', q)
  {
  }

  lemma IssueLdq(cfg: Config, mem0: Mem, s: State)
    requires Issues(cfg, s) && InvLdq(cfg, s) && InvStq(cfg, s) && InvMem(cfg, s) && InvArch(cfg, mem0, s) && InvOrder(s)
    ensures InvLdq(cfg, IssueLoad(cfg, s))
  {
    hide R.AllBelow, R.EntriesInRange, R.TagsInRange, MapsOk, ArchsOk, AllValid, RobLoads, LoadsTied, LoadAddrs,
      LoadStages, LoadsDone, LoadsRetired, LoadOps, RespsTied, RespsOk, InvStq, InvMem, ArchChain, InvOrder, LoadAt,
      ResultOk, LoadResult, L.LoadToIssue;
    IssueFacts(cfg, s);
    IssuedValue(cfg, mem0, s);
    var j := L.LoadToIssue(s.lsq).value;
    var e := s.lsq.ldq.elems[j];
    var slot := s.lsq.ldq.Slot(j);
    var v := LoadResult(cfg, s.mem, e.d, e.address);
    var f := cfg.loadFault(e.d, e.address);
    StateRob(s.Rob(), s.Held(), s.lsq.ldq, j, L.LoadInflight);
    StateTied(s.rcu.rob, s.Held(), s.g.robTag, s.lsq.ldq, j, L.LoadInflight);
    StateAddrs(cfg, s.rcu.rob, s.g.robTag, s.g.archs, s.lsq.ldq, j, L.LoadInflight, s.g.dead);
    IssueStages(s.lsq.ldq, s.ops, j);
    IssueTied(s.lsq.ldq, s.lresp, j, slot, v, f);
    IssueResps(cfg, s.rcu.rob, s.g.robTag, s.g.archs, s.lsq.ldq, s.lresp, j, slot, v, f);
  }

  lemma IssueMem(cfg: Config, s: State)
    requires Issues(cfg, s) && InvLdq(cfg, s) && InvMem(cfg, s) && InvOrder(s) && InvShape(cfg, IssueLoad(cfg, s))
    ensures InvMem(cfg, IssueLoad(cfg, s)) && InvOrder(IssueLoad(cfg, s))
  {
    hide R.AllBelow, R.EntriesInRange, R.TagsInRange, MapsOk, ArchsOk, AllValid, InvLdq, DepsOk, Drain, TraceSorted,
      TraceBeforeStores, TraceBeforeLoads, RobSorted, LdqSorted, StqSorted, TagsMatch, IdsBelow, NotDead, CommitsOk,
      LoadAt, LoadResult, L.LoadToIssue;
    IssueFacts(cfg, s);
    var j := L.LoadToIssue(s.lsq).value;
    StateOrder(s.lsq.ldq, j, L.LoadInflight, s.nextId);
    StateDeps(s.lsq, j, L.LoadInflight);
    IssueTrace(s.lsq, j, s.g.trace, s.g.dead, s.nextId);
  }

  lemma IssueLoadInv(cfg: Config, mem0: Mem, s: State)
    requires Inv(cfg, mem0, s) && CanIssueLoad(s)
    ensures Inv(cfg, mem0, IssueLoad(cfg, s))
  {
    hide R.AllBelow, R.EntriesInRange, R.TagsInRange, MapsOk, ArchsOk, AllValid, RobSorted, LdqSorted, StqSorted,
      TagsMatch, IdsBelow, NotDead, CommitsOk, MapsChain, ArchChain, Conserved, TagOk, FaultsBehind, EntriesOk,
      CauseOk, ReleasedOk, ReleasedSafe, PkgOk, OpsShape, OpsTied, OpsSquashed, BranchOk, ArchHeld, ResultsHeld,
      DoneHeld, ValsOk, ForwardedDone, InvOrder, InvLdq, RobStores, StoreData, StoresTied, StoresRetired, StoresKept,
      StoreOps, StoreResps, StoresInOrder, DepsOk, Drain, TraceSorted, TraceBeforeStores, TraceBeforeLoads, InvMem,
      LoadResult, L.LoadToIssue, LoadAt;
    IssueFacts(cfg, s);
    StateShape(s.lsq.ldq, L.LoadToIssue(s.lsq).value, L.LoadInflight);
    IssueLdq(cfg, mem0, s);
    IssueMem(cfg, s);
  }

  lemma StateShape(ldq: Queue<L.LdqEntry>, j: nat, st: L.LoadState)
    requires j < |ldq.elems| && ldq.Valid()
    ensures LoadAt(ldq, j, st).Valid() && LoadAt(ldq, j, st).size == ldq.size
  {
  }

  // ---- a load's response ------------------------------------------------------------------------

  lemma RespFacts(cfg: Config, s: State, slot: nat)
    requires InvShape(cfg, s) && InvLdq(cfg, s) && CanLoadResp(s, slot)
    ensures var j := s.lsq.ldq.Dist(slot);
      var e := s.lsq.ldq.elems[j];
      && 0 <= j < |s.lsq.ldq.elems| && e.state == L.LoadInflight && !e.commited && s.lresp[slot].id == e.id
      && LoadResp(s, slot).lsq == L.Lsq(LoadAt(s.lsq.ldq, j, L.LoadExecuted), s.lsq.stq)
      && (Active(e) ==> e.addressReady && e.id in s.ops && s.ops[e.id].stage == InLsq)
  {
  }

  lemma RespStages(ldq: Queue<L.LdqEntry>, ops: map<nat, Op>, j: nat, v: Val, f: Option<Fault>, bound: nat)
    requires j < |ldq.elems| && LdqSorted(ldq.elems, bound) && LoadStages(ldq.elems, ops) && LoadOps(ldq, ops)
    requires !ldq.elems[j].killed ==> ldq.elems[j].id in ops
    ensures var e := ldq.elems[j];
      var ops' := if e.killed then ops else ops[e.id := ops[e.id].(stage := Completed(v, f))];
      LoadStages(LoadAt(ldq, j, L.LoadExecuted).elems, ops') && LoadOps(LoadAt(ldq, j, L.LoadExecuted), ops')
  {
  }

  lemma RespRest(cfg: Config, rob: Queue<R.RobEntry>, robTag: map<nat, nat>, archs: seq<Arch>, ldq: Queue<L.LdqEntry>,
      lresp: map<nat, Resp>, j: nat, slot: nat)
    requires ldq.Valid() && j < |ldq.elems| && slot < ldq.size && ldq.Dist(slot) == j && RespsTied(ldq, lresp)
      && RespsOk(cfg, rob, robTag, archs, ldq, lresp)
    ensures RespsTied(LoadAt(ldq, j, L.LoadExecuted), lresp - {slot})
    ensures RespsOk(cfg, rob, robTag, archs, LoadAt(ldq, j, L.LoadExecuted), lresp - {slot})
  {
    hide ResultOk;
  }

  lemma RespTrace(l: L.Lsq, j: nat, trace: seq<nat>, dead: set<nat>)
    requires j < |l.ldq.elems| && TraceBeforeLoads(trace, dead, l.ldq.elems)
    ensures TraceBeforeLoads(trace, dead, LoadAt(l.ldq, j, L.LoadExecuted).elems)
  {
  }

  lemma RespLdq(cfg: Config, s: State, slot: nat)
    requires InvShape(cfg, s) && InvLdq(cfg, s) && InvOrder(s) && InvMem(cfg, s) && CanLoadResp(s, slot)
      && InvShape(cfg, LoadResp(s, slot))
    ensures InvLdq(cfg, LoadResp(s, slot)) && InvOrder(LoadResp(s, slot)) && InvMem(cfg, LoadResp(s, slot))
  {
    hide R.AllBelow, R.EntriesInRange, R.TagsInRange, MapsOk, ArchsOk, AllValid, RobLoads, LoadsTied, LoadAddrs,
      LoadStages, LoadsDone, LoadsRetired, LoadOps, RespsTied, RespsOk, RobSorted, LdqSorted, StqSorted, TagsMatch,
      IdsBelow, NotDead, CommitsOk, DepsOk, Drain, TraceSorted, TraceBeforeStores, TraceBeforeLoads, LoadAt;
    RespFacts(cfg, s, slot);
    var j := s.lsq.ldq.Dist(slot);
    StateOrder(s.lsq.ldq, j, L.LoadExecuted, s.nextId);
    StateRob(s.Rob(), s.Held(), s.lsq.ldq, j, L.LoadExecuted);
    StateTied(s.rcu.rob, s.Held(), s.g.robTag, s.lsq.ldq, j, L.LoadExecuted);
    StateAddrs(cfg, s.rcu.rob, s.g.robTag, s.g.archs, s.lsq.ldq, j, L.LoadExecuted, s.g.dead);
    RespStages(s.lsq.ldq, s.ops, j, s.lresp[slot].value, s.lresp[slot].fault, s.nextId);
    RespRest(cfg, s.rcu.rob, s.g.robTag, s.g.archs, s.lsq.ldq, s.lresp, j, slot);
    StateDeps(s.lsq, j, L.LoadExecuted);
    RespTrace(s.lsq, j, s.g.trace, s.g.dead);
  }

  // The completed operation carries its sequential result.
  lemma RespValue(cfg: Config, s: State, slot: nat)
    requires InvShape(cfg, s) && InvLdq(cfg, s) && InvOps(cfg, s) && InvVals(cfg, s) && CanLoadResp(s, slot)
    requires !s.lsq.ldq.elems[s.lsq.ldq.Dist(slot)].killed
    ensures var id := s.lsq.ldq.elems[s.lsq.ldq.Dist(slot)].id;
      && LiveOp(s.rcu.rob, s.ops[id]) && s.ops[id].d.fu == LDU
      && ResultOk(cfg, s.g.archs[s.rcu.rob.Dist(s.ops[id].robTag)], s.ops[id].d, s.lresp[slot].value, s.lresp[slot].fault)
      && OperandsOk(s.g.archs[s.rcu.rob.Dist(s.ops[id].robTag)], s.ops[id]) && s.ops[id].Ready()
  {
    hide R.AllBelow, R.EntriesInRange, R.TagsInRange, MapsOk, ArchsOk, AllValid, OpsShape, OpsTied, OpsSquashed,
      BranchOk, ValsOk, ForwardedDone, RobLoads, LoadAddrs, LoadStages, LoadsDone, LoadsRetired, LoadOps, ResultOk,
      LoadsTied, IdPos;
    RespFacts(cfg, s, slot);
    var j := s.lsq.ldq.Dist(slot);
    ActiveIsLoad(cfg, s.rcu.rob, s.Held(), s.g.maps, s.g.robTag, s.ops, s.lsq.ldq, j);
    OpValues(cfg, s.rcu.rob, s.g.archs, s.ops, s.lsq.ldq.elems[j].id);
  }

  lemma RespOps(cfg: Config, s: State, slot: nat)
    requires InvShape(cfg, s) && InvLdq(cfg, s) && InvOps(cfg, s) && InvVals(cfg, s) && CanLoadResp(s, slot)
      && InvShape(cfg, LoadResp(s, slot))
    ensures InvOps(cfg, LoadResp(s, slot)) && InvVals(cfg, LoadResp(s, slot))
    ensures SameOps(s.ops, LoadResp(s, slot).ops)
  {
    hide R.AllBelow, R.EntriesInRange, R.TagsInRange, MapsOk, ArchsOk, AllValid, OpsShape, OpsTied, OpsSquashed,
      BranchOk, ValsOk, ForwardedDone, InvLdq, ResultOk, SameOps, L.SetLoadState;
    var e := s.lsq.ldq.At(slot);
    if e.killed {
      SameRefl(s.ops);
    } else {
      RespValue(cfg, s, slot);
      var op' := s.ops[e.id].(stage := Completed(s.lresp[slot].value, s.lresp[slot].fault));
      SetOp(cfg, s.rcu.rob, s.g.archs, s.ops, s.rcu.busy, e.id, op');
      OpsFrame(cfg, s.rcu, s.g.maps, s.g.robTag, s.g.dead, s.ops, s.ops[e.id := op']);
    }
  }

  lemma SameRefl(ops: map<nat, Op>)
    ensures SameOps(ops, ops)
  {
  }

  lemma LoadRespInv(cfg: Config, mem0: Mem, s: State, slot: nat)
    requires Inv(cfg, mem0, s) && CanLoadResp(s, slot)
    ensures Inv(cfg, mem0, LoadResp(s, slot))
  {
    hide R.AllBelow, R.EntriesInRange, R.TagsInRange, MapsOk, ArchsOk, AllValid, MapsChain, ArchChain, Conserved,
      TagOk, FaultsBehind, EntriesOk, CauseOk, ReleasedOk, ReleasedSafe, PkgOk, ArchHeld, ResultsHeld, DoneHeld,
      InvOps, InvVals, InvOrder, InvLdq, RobStores, StoreData, StoresTied, StoresRetired, StoresKept, StoreOps,
      StoreResps, StoresInOrder, InvMem, SameOps, LoadAt;
    RespFacts(cfg, s, slot);
    StateShape(s.lsq.ldq, s.lsq.ldq.Dist(slot), L.LoadExecuted);
    RespLdq(cfg, s, slot);
    RespOps(cfg, s, slot);
    RespStoreOps(s.lsq.stq, s.ops, LoadResp(s, slot).ops);
  }

  lemma RespStoreOps(stq: Queue<L.StqEntry>, ops: map<nat, Op>, ops': map<nat, Op>)
    requires SameOps(ops, ops') && StoreOps(stq, ops)
    ensures StoreOps(stq, ops')
  {
  }

  // ---- changing a store's state -----------------------------------------------------------------

  function StoreAt(stq: Queue<L.StqEntry>, j: nat, st: L.StoreState): Queue<L.StqEntry>
    requires j < |stq.elems|
  { stq.(elems := stq.elems[j := stq.elems[j].(state := st)]) }

  // Only committed stores leave the waiting state.
  lemma StoreRob(cfg: Config, rob: Queue<R.RobEntry>, held: nat, robTag: map<nat, nat>, archs: seq<Arch>,
      stq: Queue<L.StqEntry>, j: nat, st: L.StoreState,
                 ids: seq<nat>)
    requires held <= |rob.elems| && |archs| > |rob.elems| && j < |stq.elems| && stq.elems[j].commited
    requires RobStores(rob.elems, held, stq) && StoreData(cfg, rob.elems, archs, stq) && StoresTied(rob, held, robTag, stq)
    requires StoresRetired(stq.elems, rob.elems) && StoresKept(stq.elems, ids)
    ensures var q := StoreAt(stq, j, st);
      && RobStores(rob.elems, held, q) && StoreData(cfg, rob.elems, archs, q) && StoresTied(rob, held, robTag, q)
      && StoresRetired(q.elems, rob.elems) && StoresKept(q.elems, ids)
  {
    hide Address, OperandB, IdPos;
  }

  lemma StoreRest(l: L.Lsq, j: nat, st: L.StoreState, ops: map<nat, Op>, bound: nat)
    requires j < |l.stq.elems| && StoreOps(l.stq, ops) && StqSorted(l.stq.elems, bound) && DepsOk(l.ldq.elems, l.stq)
    ensures var q := StoreAt(l.stq, j, st);
      StoreOps(q, ops) && StqSorted(q.elems, bound) && DepsOk(l.ldq.elems, q)
  {
  }

  lemma StoreShape(stq: Queue<L.StqEntry>, j: nat, st: L.StoreState)
    requires j < |stq.elems| && stq.Valid()
    ensures StoreAt(stq, j, st).Valid() && StoreAt(stq, j, st).size == stq.size
  {
  }

  // ---- issuing a store --------------------------------------------------------------------------

  lemma StoreFacts(cfg: Config, s: State)
    requires InvShape(cfg, s) && CanIssueStore(s)
    ensures var j := L.StoreToIssue(s.lsq).value;
      var t := s.lsq.stq.elems[j];
      && t.commited && t.state == L.StoreWaitSend && s.lsq.stq.Dist(s.lsq.stq.Slot(j)) == j && s.lsq.stq.Slot(j) < s.lsq.stq.size
      && IssueStore(cfg, s).lsq == L.Lsq(s.lsq.ldq, StoreAt(s.lsq.stq, j, L.StoreInflight))
      && forall i :: 0 <= i < j ==> s.lsq.stq.elems[i].state != L.StoreWaitSend
  {
  }

  lemma StoreInOrder(stq: Queue<L.StqEntry>, j: nat, sresp: map<nat, nat>, slot: nat)
    requires j < |stq.elems| && slot < stq.size && stq.Dist(slot) == j && stq.elems[j].state == L.StoreWaitSend
    requires forall i :: 0 <= i < j ==> stq.elems[i].state != L.StoreWaitSend
    requires StoresInOrder(stq.elems) && StoreResps(stq, sresp)
    ensures StoresInOrder(StoreAt(stq, j, L.StoreInflight).elems)
    ensures StoreResps(StoreAt(stq, j, L.StoreInflight), sresp[slot := stq.elems[j].id])
  {
  }

  // Writing the oldest pending store to memory leaves the drained memory unchanged.
  lemma {:induction false} DrainIssue(cfg: Config, mem: Mem, q: seq<L.StqEntry>, j: nat)
    requires j < |q| && Pending(q[j]) && forall i :: 0 <= i < j ==> !Pending(q[i])
    ensures Drain(cfg, cfg.store(mem, q[j].d, q[j].address, q[j].data),
      q[j := q[j].(state := L.StoreInflight)]) == Drain(cfg, mem, q)
    decreases |q|
  {
    var q' := q[j := q[j].(state := L.StoreInflight)];
    if j == 0 {
      assert q'[1..] == q[1..];
    } else {
      DrainIssue(cfg, mem, q[1..], j - 1);
      assert q'[1..] == q[1..][j - 1 := q[1..][j - 1].(state := L.StoreInflight)];
    }
  }

  lemma StoreTrace(rob: Queue<R.RobEntry>, held: nat, robTag: map<nat, nat>, l: L.Lsq, j: nat, trace: seq<nat>,
      dead: set<nat>, bound: nat)
    requires held <= |rob.elems| && j < |l.stq.elems| && StqSorted(l.stq.elems, bound)
    requires l.stq.elems[j].commited && l.stq.elems[j].state == L.StoreWaitSend
    requires forall i :: 0 <= i < j ==> l.stq.elems[i].state != L.StoreWaitSend
    requires StoresRetired(l.stq.elems, rob.elems) && LoadsTied(rob, held, robTag, l.ldq)
      && LoadsRetired(l.ldq.elems, dead, rob.elems)
    requires TraceSorted(trace, dead, bound) && TraceBeforeStores(trace, dead, l.stq.elems)
      && TraceBeforeLoads(trace, dead, l.ldq.elems)
    ensures var t := trace + [l.stq.elems[j].id];
      && TraceSorted(t, dead, bound) && TraceBeforeStores(t, dead, StoreAt(l.stq, j, L.StoreInflight).elems)
      && TraceBeforeLoads(t, dead, l.ldq.elems)
  {
  }

  lemma IssueStoreInv(cfg: Config, mem0: Mem, s: State)
    requires Inv(cfg, mem0, s) && CanIssueStore(s)
    ensures Inv(cfg, mem0, IssueStore(cfg, s))
  {
    hide R.AllBelow, R.EntriesInRange, R.TagsInRange, MapsOk, ArchsOk, AllValid, RobSorted, LdqSorted, StqSorted,
      TagsMatch, IdsBelow, NotDead, CommitsOk, MapsChain, ArchChain, Conserved, TagOk, FaultsBehind, EntriesOk,
      CauseOk, ReleasedOk, ReleasedSafe, PkgOk, OpsShape, OpsTied, OpsSquashed, BranchOk, ArchHeld, ResultsHeld,
      DoneHeld, ValsOk, ForwardedDone, RobLoads, LoadsTied, LoadAddrs, LoadStages, LoadsDone, LoadsRetired, LoadOps,
      RespsTied, RespsOk, RobStores, StoreData, StoresTied, StoresRetired, StoresKept, StoreOps, StoreResps,
      StoresInOrder, DepsOk, Drain, TraceSorted, TraceBeforeStores, TraceBeforeLoads, L.StoreToIssue, StoreAt;
    StoreFacts(cfg, s);
    var j := L.StoreToIssue(s.lsq).value;
    StoreShape(s.lsq.stq, j, L.StoreInflight);
    StoreRob(cfg, s.rcu.rob, s.Held(), s.g.robTag, s.g.archs, s.lsq.stq, j, L.StoreInflight, s.g.commitIds);
    StoreRest(s.lsq, j, L.StoreInflight, s.ops, s.nextId);
    StoreInOrder(s.lsq.stq, j, s.sresp, s.lsq.stq.Slot(j));
    StoreTrace(s.rcu.rob, s.Held(), s.g.robTag, s.lsq, j, s.g.trace, s.g.dead, s.nextId);
    IssuedDrain(cfg, s.mem, s.lsq.stq, j);
  }

  lemma IssuedDrain(cfg: Config, mem: Mem, stq: Queue<L.StqEntry>, j: nat)
    requires j < |stq.elems| && Pending(stq.elems[j]) && forall i :: 0 <= i < j ==> stq.elems[i].state != L.StoreWaitSend
    ensures var t := stq.elems[j];
      Drain(cfg, cfg.store(mem, t.d, t.address, t.data), StoreAt(stq, j, L.StoreInflight).elems) == Drain(cfg, mem, stq.elems)
  {
    DrainIssue(cfg, mem, stq.elems, j);
  }

  // ---- a store's response -----------------------------------------------------------------------

  lemma {:induction false} DrainState(cfg: Config, mem: Mem, q: seq<L.StqEntry>, j: nat, t: L.StqEntry)
    requires j < |q| && !Pending(q[j]) && !Pending(t)
    ensures Drain(cfg, mem, q[j := t]) == Drain(cfg, mem, q)
    decreases |q|
  {
    if j == 0 {
      assert q[j := t][1..] == q[1..];
    } else {
      var mem' := if Pending(q[0]) then cfg.store(mem, q[0].d, q[0].address, q[0].data) else mem;
      DrainState(cfg, mem', q[1..], j - 1, t);
      assert q[j := t][1..] == q[1..][j - 1 := t];
    }
  }

  lemma StoreRespFacts(cfg: Config, rob: Queue<R.RobEntry>, held: nat, robTag: map<nat, nat>, l: L.Lsq,
      sresp: map<nat, nat>, slot: nat, mem: Mem,
                       trace: seq<nat>, dead: set<nat>)
    requires l.Valid() && held <= |rob.elems| && slot in sresp && l.stq.Live(slot)
    requires StoresTied(rob, held, robTag, l.stq) && StoreResps(l.stq, sresp) && StoresInOrder(l.stq.elems)
      && TraceBeforeStores(trace, dead, l.stq.elems)
    ensures var j := l.stq.Dist(slot);
      var q := StoreAt(l.stq, j, L.StoreExecuted);
      && l.stq.elems[j].commited && L.SetStoreState(l, slot, L.StoreExecuted) == L.Lsq(l.ldq, q)
      && StoresInOrder(q.elems) && StoreResps(q, sresp - {slot}) && Drain(cfg, mem, q.elems) == Drain(cfg, mem, l.stq.elems)
      && TraceBeforeStores(trace, dead, q.elems)
  {
    hide IdPos, Drain;
    var j := l.stq.Dist(slot);
    DrainState(cfg, mem, l.stq.elems, j, l.stq.elems[j].(state := L.StoreExecuted));
  }

  lemma StoreRespInv(cfg: Config, mem0: Mem, s: State, slot: nat)
    requires Inv(cfg, mem0, s) && CanStoreResp(s, slot)
    ensures Inv(cfg, mem0, StoreResp(s, slot))
  {
    hide R.AllBelow, R.EntriesInRange, R.TagsInRange, MapsOk, ArchsOk, AllValid, RobSorted, LdqSorted, StqSorted,
      TagsMatch, IdsBelow, NotDead, CommitsOk, MapsChain, ArchChain, Conserved, TagOk, FaultsBehind, EntriesOk,
      CauseOk, ReleasedOk, ReleasedSafe, PkgOk, OpsShape, OpsTied, OpsSquashed, BranchOk, ArchHeld, ResultsHeld,
      DoneHeld, ValsOk, ForwardedDone, RobLoads, LoadsTied, LoadAddrs, LoadStages, LoadsDone, LoadsRetired, LoadOps,
      RespsTied, RespsOk, RobStores, StoreData, StoresTied, StoresRetired, StoresKept, StoreOps, StoreResps,
      StoresInOrder, DepsOk, Drain, TraceSorted, TraceBeforeStores, TraceBeforeLoads, L.SetStoreState, StoreAt;
    StoreRespFacts(cfg, s.rcu.rob, s.Held(), s.g.robTag, s.lsq, s.sresp, slot, s.mem, s.g.trace, s.g.dead);
    var j := s.lsq.stq.Dist(slot);
    StoreShape(s.lsq.stq, j, L.StoreExecuted);
    StoreRob(cfg, s.rcu.rob, s.Held(), s.g.robTag, s.g.archs, s.lsq.stq, j, L.StoreExecuted, s.g.commitIds);
    StoreRest(s.lsq, j, L.StoreExecuted, s.ops, s.nextId);
  }

  // ---- retiring an executed store ---------------------------------------------------------------

  lemma PopStoreSlots(rob: Queue<R.RobEntry>, held: nat, robTag: map<nat, nat>, stq: Queue<L.StqEntry>, ids: seq<nat>, bound: nat)
    requires stq.Valid() && stq.elems != [] && stq.elems[0].commited && held <= |rob.elems|
    requires forall k :: 0 <= k < |rob.elems| && rob.elems[k].d.fu == STU ==> rob.elems[k].lsqTag < stq.size
    requires RobStores(rob.elems, held, stq) && StoresTied(rob, held, robTag, stq)
    requires StoresRetired(stq.elems, rob.elems) && StoresKept(stq.elems, ids) && StqSorted(stq.elems, bound)
      && StoresInOrder(stq.elems)
    ensures var q := stq.Pop();
      && RobStores(rob.elems, held, q) && StoresTied(rob, held, robTag, q)
      && StoresRetired(q.elems, rob.elems) && StoresKept(q.elems, ids) && StqSorted(q.elems, bound) && StoresInOrder(q.elems)
  {
    hide IdPos;
    forall k | 0 <= k < |rob.elems| && rob.elems[k].d.fu == STU
      ensures rob.elems[k].lsqTag != stq.head ==> stq.Pop().Dist(rob.elems[k].lsqTag) == stq.Dist(rob.elems[k].lsqTag) - 1
    {
      PopShifts(stq, rob.elems[k].lsqTag);
    }
  }

  lemma PopStoreData(cfg: Config, rob: seq<R.RobEntry>, archs: seq<Arch>, stq: Queue<L.StqEntry>)
    requires stq.Valid() && stq.elems != [] && |archs| > |rob|
    requires forall k :: 0 <= k < |rob| && rob[k].d.fu == STU ==> rob[k].lsqTag < stq.size
    requires StoreData(cfg, rob, archs, stq)
    ensures StoreData(cfg, rob, archs, stq.Pop())
  {
  }

  lemma PopStoreOps(cfg: Config, stq: Queue<L.StqEntry>, ops: map<nat, Op>, robTag: map<nat, nat>, sresp: map<nat, nat>)
    requires stq.Valid() && stq.elems != [] && stq.size == cfg.stqSize && stq.elems[0].state == L.StoreExecuted
    requires OpsShape(cfg, ops, robTag) && StoreOps(stq, ops) && StoreResps(stq, sresp)
    ensures StoreOps(stq.Pop(), ops) && StoreResps(stq.Pop(), sresp)
  {
    forall id | id in ops && ops[id].d.fu == STU && 0 <= stq.Pop().Dist(ops[id].lsqTag) < |stq.Pop().elems|
      ensures stq.Pop().elems[stq.Pop().Dist(ops[id].lsqTag)].id == id
    {
      PopShifts(stq, ops[id].lsqTag);
    }
    forall slot | slot in sresp
      ensures slot != stq.head && stq.Pop().Dist(slot) == stq.Dist(slot) - 1
    {
      PopShifts(stq, slot);
    }
  }

  // Popping the recorded store clears the dependence exactly when no older store is left.
  lemma PopStoreDeps(l: L.Lsq)
    requires l.Valid() && L.CanPopStore(l) && DepsOk(l.ldq.elems, l.stq)
    ensures DepsOk(L.PopStore(l).ldq.elems, L.PopStore(l).stq)
  {
  }

  predicate SameButDep(q: seq<L.LdqEntry>, q': seq<L.LdqEntry>) {
    |q'| == |q| && forall j :: 0 <= j < |q| ==> q'[j] == q[j].(hasDependancy := q'[j].hasDependancy)
  }

  lemma ClearRobLoads(rob: seq<R.RobEntry>, held: nat, ldq: Queue<L.LdqEntry>, q': seq<L.LdqEntry>, bound: nat)
    requires SameButDep(ldq.elems, q') && LdqSorted(ldq.elems, bound) && RobLoads(rob, held, ldq) && LoadsDone(rob, ldq)
    ensures RobLoads(rob, held, ldq.(elems := q')) && LoadsDone(rob, ldq.(elems := q')) && LdqSorted(q', bound)
  {
  }

  lemma ClearTied(rob: Queue<R.RobEntry>, held: nat, robTag: map<nat, nat>, ldq: Queue<L.LdqEntry>,
      q': seq<L.LdqEntry>, dead: set<nat>)
    requires held <= |rob.elems| && SameButDep(ldq.elems, q')
    requires LoadsTied(rob, held, robTag, ldq) && LoadsRetired(ldq.elems, dead, rob.elems)
    ensures LoadsTied(rob, held, robTag, ldq.(elems := q')) && LoadsRetired(q', dead, rob.elems)
  {
  }

  lemma ClearState(cfg: Config, rob: Queue<R.RobEntry>, robTag: map<nat, nat>, archs: seq<Arch>,
      ldq: Queue<L.LdqEntry>, q': seq<L.LdqEntry>, ops: map<nat, Op>)
    requires SameButDep(ldq.elems, q') && LoadAddrs(cfg, rob, robTag, archs, ldq.elems) && LoadStages(ldq.elems, ops)
      && LoadOps(ldq, ops)
    ensures LoadAddrs(cfg, rob, robTag, archs, q') && LoadStages(q', ops) && LoadOps(ldq.(elems := q'), ops)
  {
  }

  lemma ClearResps(cfg: Config, rob: Queue<R.RobEntry>, robTag: map<nat, nat>, archs: seq<Arch>,
      ldq: Queue<L.LdqEntry>, q': seq<L.LdqEntry>, lresp: map<nat, Resp>)
    requires SameButDep(ldq.elems, q') && RespsTied(ldq, lresp) && RespsOk(cfg, rob, robTag, archs, ldq, lresp)
    ensures RespsTied(ldq.(elems := q'), lresp) && RespsOk(cfg, rob, robTag, archs, ldq.(elems := q'), lresp)
  {
    hide ResultOk, IdPos;
  }

  lemma ClearMem(cfg: Config, l: L.Lsq, mem: Mem, trace: seq<nat>, dead: set<nat>)
    requires l.Valid() && L.CanPopStore(l) && TraceBeforeStores(trace, dead, l.stq.elems)
      && TraceBeforeLoads(trace, dead, l.ldq.elems)
    ensures TraceBeforeStores(trace, dead, L.PopStore(l).stq.elems) && TraceBeforeLoads(trace, dead, L.PopStore(l).ldq.elems)
    ensures Drain(cfg, mem, L.PopStore(l).stq.elems) == Drain(cfg, mem, l.stq.elems)
    ensures SameButDep(l.ldq.elems, L.PopStore(l).ldq.elems)
  {
  }

  lemma StoreTagsInRange(rob: seq<R.RobEntry>, ldqSize: nat, stqSize: nat)
    requires R.TagsInRange(rob, ldqSize, stqSize)
    ensures forall k :: 0 <= k < |rob| && rob[k].d.fu == STU ==> rob[k].lsqTag < stqSize
    ensures forall k :: 0 <= k < |rob| && rob[k].d.fu == LDU ==> rob[k].lsqTag < ldqSize
  {
  }

  lemma ExecutedIsCommitted(rob: Queue<R.RobEntry>, held: nat, robTag: map<nat, nat>, l: L.Lsq)
    requires held <= |rob.elems| && L.CanPopStore(l) && StoresTied(rob, held, robTag, l.stq)
    ensures l.stq.elems[0].commited
  {
  }

  lemma PopStoreInv(cfg: Config, mem0: Mem, s: State)
    requires Inv(cfg, mem0, s) && CanPopStore(s)
    ensures Inv(cfg, mem0, PopStore(s))
  {
    hide R.AllBelow, R.EntriesInRange, R.TagsInRange, MapsOk, ArchsOk, AllValid, RobSorted, LdqSorted, StqSorted,
      TagsMatch, IdsBelow, NotDead, CommitsOk, MapsChain, ArchChain, Conserved, TagOk, FaultsBehind, EntriesOk,
      CauseOk, ReleasedOk, ReleasedSafe, PkgOk, OpsShape, OpsTied, OpsSquashed, BranchOk, ArchHeld, ResultsHeld,
      DoneHeld, ValsOk, ForwardedDone, RobLoads, LoadsTied, LoadAddrs, LoadStages, LoadsDone, LoadsRetired, LoadOps,
      RespsTied, RespsOk, RobStores, StoreData, StoresTied, StoresRetired, StoresKept, StoreOps, StoreResps,
      StoresInOrder, DepsOk, Drain, TraceSorted, TraceBeforeStores, TraceBeforeLoads, SameButDep;
    var q' := PopStore(s).lsq.ldq.elems;
    StoreTagsInRange(s.Rob(), s.lsq.ldq.size, s.lsq.stq.size);
    ExecutedIsCommitted(s.rcu.rob, s.Held(), s.g.robTag, s.lsq);
    PopStoreSlots(s.rcu.rob, s.Held(), s.g.robTag, s.lsq.stq, s.g.commitIds, s.nextId);
    PopStoreData(cfg, s.Rob(), s.g.archs, s.lsq.stq);
    PopStoreOps(cfg, s.lsq.stq, s.ops, s.g.robTag, s.sresp);
    PopStoreDeps(s.lsq);
    ClearMem(cfg, s.lsq, s.mem, s.g.trace, s.g.dead);
    ClearRobLoads(s.Rob(), s.Held(), s.lsq.ldq, q', s.nextId);
    ClearTied(s.rcu.rob, s.Held(), s.g.robTag, s.lsq.ldq, q', s.g.dead);
    ClearState(cfg, s.rcu.rob, s.g.robTag, s.g.archs, s.lsq.ldq, q', s.ops);
    ClearResps(cfg, s.rcu.rob, s.g.robTag, s.g.archs, s.lsq.ldq, q', s.lresp);
  }

  // ---- retiring a load queue entry --------------------------------------------------------------

  lemma PopLoadSlots(rob: Queue<R.RobEntry>, held: nat, robTag: map<nat, nat>, ldq: Queue<L.LdqEntry>, dead: set<nat>, bound: nat)
    requires ldq.Valid() && ldq.elems != [] && !Active(ldq.elems[0]) && held <= |rob.elems|
    requires forall k :: 0 <= k < |rob.elems| && rob.elems[k].d.fu == LDU ==> rob.elems[k].lsqTag < ldq.size
    requires RobLoads(rob.elems, held, ldq) && LoadsTied(rob, held, robTag, ldq) && LoadsDone(rob.elems, ldq)
    requires LoadsRetired(ldq.elems, dead, rob.elems) && LdqSorted(ldq.elems, bound)
    ensures var q := ldq.Pop();
      && RobLoads(rob.elems, held, q) && LoadsTied(rob, held, robTag, q) && LoadsDone(rob.elems, q)
      && LoadsRetired(q.elems, dead, rob.elems) && LdqSorted(q.elems, bound)
  {
    hide IdPos;
    forall k | 0 <= k < |rob.elems| && rob.elems[k].d.fu == LDU
      ensures rob.elems[k].lsqTag == ldq.head ==> ldq.Pop().Dist(rob.elems[k].lsqTag) >= |ldq.Pop().elems|
      ensures rob.elems[k].lsqTag != ldq.head ==> ldq.Pop().Dist(rob.elems[k].lsqTag) == ldq.Dist(rob.elems[k].lsqTag) - 1
    {
      PopShifts(ldq, rob.elems[k].lsqTag);
    }
  }

  lemma PopLoadState(cfg: Config, rob: Queue<R.RobEntry>, robTag: map<nat, nat>, archs: seq<Arch>,
      ldq: Queue<L.LdqEntry>, ops: map<nat, Op>, stq: Queue<L.StqEntry>,
                     trace: seq<nat>, dead: set<nat>)
    requires ldq.Valid() && ldq.elems != [] && LoadAddrs(cfg, rob, robTag, archs, ldq.elems) && LoadStages(ldq.elems, ops)
    requires DepsOk(ldq.elems, stq) && TraceBeforeLoads(trace, dead, ldq.elems)
    ensures LoadAddrs(cfg, rob, robTag, archs, ldq.Pop().elems) && LoadStages(ldq.Pop().elems, ops)
    ensures DepsOk(ldq.Pop().elems, stq) && TraceBeforeLoads(trace, dead, ldq.Pop().elems)
  {
  }

  lemma PopLoadOps(cfg: Config, ldq: Queue<L.LdqEntry>, ops: map<nat, Op>, robTag: map<nat, nat>)
    requires ldq.Valid() && ldq.elems != [] && ldq.size == cfg.ldqSize && OpsShape(cfg, ops, robTag) && LoadOps(ldq, ops)
    ensures LoadOps(ldq.Pop(), ops)
  {
  }

  // An in-flight slot is never recycled: the popped entry has no response outstanding.
  lemma PopLoadResps(cfg: Config, rob: Queue<R.RobEntry>, robTag: map<nat, nat>, archs: seq<Arch>,
      ldq: Queue<L.LdqEntry>, lresp: map<nat, Resp>)
    requires ldq.Valid() && ldq.elems != [] && ldq.elems[0].state != L.LoadInflight
    requires RespsTied(ldq, lresp) && RespsOk(cfg, rob, robTag, archs, ldq, lresp)
    ensures RespsTied(ldq.Pop(), lresp) && RespsOk(cfg, rob, robTag, archs, ldq.Pop(), lresp)
  {
    hide ResultOk, IdPos;
    forall slot | slot in lresp ensures slot != ldq.head && ldq.Pop().Dist(slot) == ldq.Dist(slot) - 1 {
      PopShifts(ldq, slot);
    }
  }

  lemma PoppedLoad(l: L.Lsq, dead: set<nat>, rob: seq<R.RobEntry>)
    requires L.CanPopLoad(l) && LoadsRetired(l.ldq.elems, dead, rob)
    ensures !Active(l.ldq.elems[0]) && l.ldq.elems[0].state != L.LoadInflight
  {
  }

  lemma PopLoadInv(cfg: Config, mem0: Mem, s: State)
    requires Inv(cfg, mem0, s) && CanPopLoad(s)
    ensures Inv(cfg, mem0, PopLoad(s))
  {
    hide R.AllBelow, R.EntriesInRange, R.TagsInRange, MapsOk, ArchsOk, AllValid, RobSorted, LdqSorted, StqSorted,
      TagsMatch, IdsBelow, NotDead, CommitsOk, MapsChain, ArchChain, Conserved, TagOk, FaultsBehind, EntriesOk,
      CauseOk, ReleasedOk, ReleasedSafe, PkgOk, OpsShape, OpsTied, OpsSquashed, BranchOk, ArchHeld, ResultsHeld,
      DoneHeld, ValsOk, ForwardedDone, RobLoads, LoadsTied, LoadAddrs, LoadStages, LoadsDone, LoadsRetired, LoadOps,
      RespsTied, RespsOk, RobStores, StoreData, StoresTied, StoresRetired, StoresKept, StoreOps, StoreResps,
      StoresInOrder, DepsOk, Drain, TraceSorted, TraceBeforeStores, TraceBeforeLoads, Active;
    StoreTagsInRange(s.Rob(), s.lsq.ldq.size, s.lsq.stq.size);
    PoppedLoad(s.lsq, s.g.dead, s.Rob());
    PopLoadSlots(s.rcu.rob, s.Held(), s.g.robTag, s.lsq.ldq, s.g.dead, s.nextId);
    PopLoadState(cfg, s.rcu.rob, s.g.robTag, s.g.archs, s.lsq.ldq, s.ops, s.lsq.stq, s.g.trace, s.g.dead);
    PopLoadOps(cfg, s.lsq.ldq, s.ops, s.g.robTag);
    PopLoadResps(cfg, s.rcu.rob, s.g.robTag, s.g.archs, s.lsq.ldq, s.lresp);
  }
}
