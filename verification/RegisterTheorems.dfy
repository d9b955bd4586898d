// The life of a physical register, transition by transition: who writes its value and its flags,
// when it joins and leaves the free list, and that it is marked allocated exactly while it is
// not on that list (src/Processor/Component/BusyList.hh, FreeList.hh, Rcu.cc).
module RegisterTheorems {
  import opened DynInsn
  import opened LoopQueue
  import L = LsqSpec
  import R = RcuSpec
  import opened Backend
  import opened BackendInv
  import opened Registers
  import opened ProofCommit
  import opened ProofUndo
  import opened BackendTheorems
  import opened RecoveryTheorems

  // The register an entry or an instruction writes, if any.
  predicate Targets(d: Decoded, phyRd: nat, p: nat) { d.rdType == INT && d.isaRd != 0 && phyRd == p }

  // The value of a register changes only when an instruction that writes it forwards its result,
  // or is written back alive and without a fault, and is then that result.
  predicate ValueStep(s: State, e: Event, r': R.Rcu, p: nat)
    requires p < |s.rcu.regs| == |s.rcu.busy| && p < |r'.regs| == |r'.busy|
  {
    var v, b := s.rcu.regs[p], s.rcu.busy[p];
    match e
    case EvForward(id, _) =>
      if id in s.ops && s.ops[id].stage.Completed? && Targets(s.ops[id].d, s.ops[id].phyRd, p) then
        r'.regs[p] == s.ops[id].stage.result && r'.busy[p] == R.Busy(b.inUse, true, true)
      else r'.regs[p] == v && r'.busy[p] == b
    case EvWriteBack(id) =>
      if id in s.ops && s.ops[id].stage.Forwarded? && s.ops[id].stage.fault.None? && Targets(s.ops[id].d, s.ops[id].phyRd, p)
         && 0 <= s.rcu.rob.Dist(s.ops[id].robTag) < |s.Rob()| then
        r'.regs[p] == s.ops[id].stage.result && r'.busy[p] == R.Busy(b.inUse, false, true)
      else r'.regs[p] == v && r'.busy[p] == b
    case EvDispatch(d) =>
      r'.regs[p] == v && r'.busy[p] == if d.rdType == INT && d.isaRd != 0 && s.rcu.free != [] && s.rcu.free[0] == p
                                       then R.Busy(true, false, false) else b
    case EvCommitOne =>
      && r'.regs[p] == v
      && r'.busy[p] == if s.Rob() != [] && s.Rob()[0].fault.None? && s.Rob()[0].d.rdType == INT && p != 0
                          && s.Rob()[0].lphyRd == p then R.Busy(false, b.forwarding, false) else b
    case EvUndoOne =>
      && r'.regs[p] == v
      && r'.busy[p] == if s.Rob() != [] && p != 0 && s.Rob()[|s.Rob()| - 1].d.rdType == INT
                          && s.Rob()[|s.Rob()| - 1].phyRd == p then R.Busy(false, false, false) else b
    case EvFinishUndo =>
      && r'.regs[p] == v
      && r'.busy[p] == if s.Rob() != [] && p != 0 && s.Rob()[|s.Rob()| - 1].fault.Some?
                          && s.Rob()[|s.Rob()| - 1].d.rdType == INT && s.Rob()[|s.Rob()| - 1].phyRd == p
                       then R.Busy(false, false, false) else b
    case _ => r'.regs[p] == v && r'.busy[p] == b
  }

  // The list changes by one register at a time: the front one goes to the target of a dispatched
  // instruction, the old name of a retired target and the target of a removed instruction come
  // back at the end.
  predicate FreeStep(s: State, e: Event, free': seq<nat>) {
    var q, free := s.Rob(), s.rcu.free;
    match e
    case EvDispatch(d) => free' == if d.rdType == INT && d.isaRd != 0 && free != [] then free[1..] else free
    case EvCommitOne =>
      free' == if q != [] && q[0].fault.None? && q[0].d.rdType == INT && q[0].lphyRd != 0 then free + [q[0].lphyRd] else free
    case EvUndoOne =>
      free' == if q != [] && q[|q| - 1].d.rdType == INT && q[|q| - 1].phyRd != 0 then free + [q[|q| - 1].phyRd] else free
    case EvFinishUndo =>
      free' == if q != [] && q[|q| - 1].fault.Some? && q[|q| - 1].d.rdType == INT && q[|q| - 1].phyRd != 0
               then free + [q[|q| - 1].phyRd] else free
    case _ => free' == free
  }

  predicate EffectsOk(cfg: Config, s: State, e: Event, p: nat)
    requires Enabled(cfg, s, e) && p < cfg.regCount
  {
    var r' := Step(cfg, s, e).rcu;
    && |r'.regs| == |r'.busy| == |s.rcu.busy| == |s.rcu.regs| == cfg.regCount
    && ValueStep(s, e, r', p) && FreeStep(s, e, r'.free)
  }

  lemma DispatchEffects(cfg: Config, s: State, e: Event, p: nat)
    requires InvShape(cfg, s) && Enabled(cfg, s, e) && p < cfg.regCount && e.EvDispatch?
    ensures EffectsOk(cfg, s, e, p)
  {
    hide R.AllBelow, R.EntriesInRange, R.TagsInRange, MapsOk, ArchsOk, SingleRelease, SeqStep, L.Allocate, L.WriteBack,
      L.CommitLoad, L.CommitStore, L.KillLoad, L.KillStore, R.Raises, R.MarkWritten;
  }

  lemma ForwardEffects(cfg: Config, s: State, e: Event, p: nat)
    requires InvShape(cfg, s) && Enabled(cfg, s, e) && p < cfg.regCount && e.EvForward?
    ensures EffectsOk(cfg, s, e, p)
  {
    hide R.AllBelow, R.EntriesInRange, R.TagsInRange, MapsOk, ArchsOk, SingleRelease, SeqStep, L.Allocate, L.WriteBack,
      L.CommitLoad, L.CommitStore, L.KillLoad, L.KillStore, R.Raises, R.MarkWritten;
  }

  lemma WriteBackEffects(cfg: Config, s: State, e: Event, p: nat)
    requires InvShape(cfg, s) && Enabled(cfg, s, e) && p < cfg.regCount && e.EvWriteBack?
    ensures EffectsOk(cfg, s, e, p)
  {
    hide R.AllBelow, R.EntriesInRange, R.TagsInRange, MapsOk, ArchsOk, SingleRelease, SeqStep, L.Allocate, L.WriteBack,
      L.CommitLoad, L.CommitStore, L.KillLoad, L.KillStore, R.Raises, R.MarkWritten;
    GuardIsLiveness(s.rcu.rob, s.ops[e.id].robTag);
  }

  lemma CommitEffects(cfg: Config, s: State, e: Event, p: nat)
    requires InvShape(cfg, s) && Enabled(cfg, s, e) && p < cfg.regCount && e.EvCommitOne?
    ensures EffectsOk(cfg, s, e, p)
  {
    hide R.AllBelow, R.EntriesInRange, R.TagsInRange, MapsOk, ArchsOk, SingleRelease, SeqStep, L.Allocate, L.WriteBack,
      L.CommitLoad, L.CommitStore, L.KillLoad, L.KillStore, R.Raises, R.MarkWritten;
  }

  lemma UndoEffects(cfg: Config, s: State, e: Event, p: nat)
    requires InvShape(cfg, s) && Enabled(cfg, s, e) && p < cfg.regCount && e.EvUndoOne?
    ensures EffectsOk(cfg, s, e, p)
  {
    hide R.AllBelow, R.EntriesInRange, R.TagsInRange, MapsOk, ArchsOk, SingleRelease, SeqStep, L.Allocate, L.WriteBack,
      L.CommitLoad, L.CommitStore, L.KillLoad, L.KillStore, R.Raises, R.MarkWritten;
  }

  lemma FinishEffects(cfg: Config, s: State, e: Event, p: nat)
    requires InvShape(cfg, s) && Enabled(cfg, s, e) && p < cfg.regCount && e.EvFinishUndo?
    ensures EffectsOk(cfg, s, e, p)
  {
    hide R.AllBelow, R.EntriesInRange, R.TagsInRange, MapsOk, ArchsOk, SingleRelease, SeqStep, L.Allocate, L.WriteBack,
      L.CommitLoad, L.CommitStore, L.KillLoad, L.KillStore, R.Raises, R.MarkWritten;
  }

  lemma OtherEffects(cfg: Config, s: State, e: Event, p: nat)
    requires InvShape(cfg, s) && Enabled(cfg, s, e) && p < cfg.regCount
    requires !e.EvDispatch? && !e.EvForward? && !e.EvWriteBack? && !e.EvCommitOne? && !e.EvUndoOne? && !e.EvFinishUndo?
    ensures EffectsOk(cfg, s, e, p)
  {
    hide R.AllBelow, R.EntriesInRange, R.TagsInRange, MapsOk, ArchsOk, L.WriteBack, R.PackageFrom, L.SetLoadState,
      L.SetStoreState, L.LoadToIssue, L.StoreToIssue, L.PopStore, L.PopLoad;
  }

  // What every transition does to the registers, their flags and the free list.
  lemma RegisterEffects(cfg: Config, s: State, e: Event, p: nat)
    requires InvShape(cfg, s) && Enabled(cfg, s, e) && p < cfg.regCount
    ensures EffectsOk(cfg, s, e, p)
  {
    hide InvShape;
    match e
    case EvDispatch(_) => DispatchEffects(cfg, s, e, p);
    case EvForward(_, _) => ForwardEffects(cfg, s, e, p);
    case EvWriteBack(_) => WriteBackEffects(cfg, s, e, p);
    case EvCommitOne => CommitEffects(cfg, s, e, p);
    case EvUndoOne => UndoEffects(cfg, s, e, p);
    case EvFinishUndo => FinishEffects(cfg, s, e, p);
    case _ => OtherEffects(cfg, s, e, p);
  }

  // ---- allocated means not free -----------------------------------------------------------------

  // Register 0 is always allocated, and the last register, which is in no pool, never.
  predicate FlagsOk(free: seq<nat>, busy: seq<R.Busy>) {
    forall p :: 0 <= p < |busy| ==> (busy[p].inUse <==> p !in free && p != |busy| - 1)
  }

  // A free register is on the list once, and neither register 0 nor the last is ever on it.
  lemma FreeOnce(cfg: Config, s: State)
    requires InvShape(cfg, s) && InvCons(cfg, s)
    ensures 0 !in s.rcu.free && cfg.regCount - 1 !in s.rcu.free
    ensures s.rcu.free != [] ==> s.rcu.free[0] !in s.rcu.free[1..]
  {
    hide R.AllBelow, R.EntriesInRange, R.TagsInRange, MapsOk, ArchsOk, AllValid, Dests;
    var free, m, held, last := s.rcu.free, s.g.maps[0], s.Rob()[..s.Held()], cfg.regCount - 1;
    PoolOnce(cfg.regCount, last);
    assert Census(free, m, held)[last] == multiset(free)[last] + multiset(m)[last] + multiset(Dests(held))[last];
    if free != [] {
      PoolOnce(cfg.regCount, free[0]);
      assert Census(free, m, held)[free[0]]
             == multiset(free)[free[0]] + multiset(m)[free[0]] + multiset(Dests(held))[free[0]];
      assert free == [free[0]] + free[1..];
    }
  }

  lemma StepFlags(cfg: Config, s: State, e: Event)
    requires InvShape(cfg, s) && InvCons(cfg, s) && Enabled(cfg, s, e) && FlagsOk(s.rcu.free, s.rcu.busy)
    ensures var r' := Step(cfg, s, e).rcu; FlagsOk(r'.free, r'.busy)
  {
    hide InvShape, InvCons, Step, Enabled;
    FreeOnce(cfg, s);
    SomeRegister(cfg, s);
    RegisterEffects(cfg, s, e, 0);
    var r' := Step(cfg, s, e).rcu;
    forall p | 0 <= p < |r'.busy| ensures r'.busy[p].inUse <==> p !in r'.free && p != |r'.busy| - 1 {
      RegisterEffects(cfg, s, e, p);
    }
  }

  lemma SomeRegister(cfg: Config, s: State)
    requires InvShape(cfg, s)
    ensures cfg.regCount >= 2
  {
  }

  lemma InitFlags(cfg: Config, mem: Mem)
    requires cfg.Valid()
    ensures var r := Init(cfg, mem).rcu; FlagsOk(r.free, r.busy)
  {
    var r := Init(cfg, mem).rcu;
    forall p | 0 < p < cfg.regCount - 1 ensures p in r.free {
      assert r.free[p - 1] == p;
    }
  }

  // In every reachable state a register is marked allocated exactly while it is not on the free
  // list; the last one, which reset leaves out of the pool, is neither.
  lemma {:induction false} AllocatedIffNotFree(cfg: Config, mem0: Mem, ss: seq<State>, es: seq<Event>, i: nat)
    requires Reachable(cfg, mem0, ss, es) && i < |ss|
    ensures FlagsOk(ss[i].rcu.free, ss[i].rcu.busy)
    decreases i
  {
    hide InvOrder, InvMaps, InvArch, InvCons, InvMode, InvPkg, InvOps, InvRegs, InvVals, InvLdq, InvStq, InvMem,
      InvShape, Step, Enabled, FlagsOk, Init;
    if i == 0 {
      InitFlags(cfg, mem0);
    } else {
      RunInv(cfg, mem0, ss, es, i - 1);
      AllocatedIffNotFree(cfg, mem0, ss, es, i - 1);
      StepFlags(cfg, ss[i - 1], es[i - 1]);
    }
  }
}
