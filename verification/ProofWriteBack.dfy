// Write-back, address generation and the choice of the commit package keep the invariant.
module ProofWriteBack {
  import opened DynInsn
  import opened LoopQueue
  import L = LsqSpec
  import R = RcuSpec
  import opened Backend
  import opened BackendInv
  import opened Registers
  import opened ProofExec

  // ---- changing the flags of one live entry -----------------------------------------------------

  predicate SameEntry(e: R.RobEntry, e': R.RobEntry) {
    e' == e.(done := e'.done, isStable := e'.isStable, isMisPred := e'.isMisPred, fault := e'.fault)
  }

  function Mark(rob: Queue<R.RobEntry>, k: nat, e: R.RobEntry): Queue<R.RobEntry>
    requires k < |rob.elems|
  { rob.(elems := rob.elems[k := e]) }

  lemma MarkOrder(rob: Queue<R.RobEntry>, k: nat, e: R.RobEntry, held: nat, robTag: map<nat, nat>, dead: set<nat>,
      ids: seq<nat>, bound: nat)
    requires k < |rob.elems| && SameEntry(rob.elems[k], e) && held <= |rob.elems|
    requires RobSorted(rob.elems, bound) && TagsMatch(rob, robTag) && NotDead(rob.elems[..held], dead)
      && CommitsOk(ids, dead, rob.elems, bound)
    ensures var q := Mark(rob, k, e);
      RobSorted(q.elems, bound) && TagsMatch(q, robTag) && NotDead(q.elems[..held], dead) && CommitsOk(ids, dead, q.elems, bound)
  {
    var q := Mark(rob, k, e);
    forall i | 0 <= i < held ensures q.elems[..held][i].id == rob.elems[..held][i].id {
    }
  }

  lemma MarkShape(rob: Queue<R.RobEntry>, k: nat, e: R.RobEntry, regCount: nat, ldqSize: nat, stqSize: nat)
    requires k < |rob.elems| && SameEntry(rob.elems[k], e)
    requires AllValid(rob.elems) && R.EntriesInRange(rob.elems, regCount) && R.TagsInRange(rob.elems, ldqSize, stqSize)
    ensures var q := Mark(rob, k, e);
      AllValid(q.elems) && R.EntriesInRange(q.elems, regCount) && R.TagsInRange(q.elems, ldqSize, stqSize)
  {
  }

  lemma MarkChains(cfg: Config, rob: Queue<R.RobEntry>, k: nat, e: R.RobEntry, held: nat, maps: seq<seq<nat>>,
      archs: seq<Arch>, free: seq<nat>)
    requires cfg.Valid() && k < |rob.elems| && SameEntry(rob.elems[k], e) && held <= |rob.elems|
    requires |maps| == |archs| == |rob.elems| + 1
    requires MapsChain(rob.elems, maps) && ArchChain(cfg, rob.elems, archs)
      && Conserved(cfg.regCount, free, maps[0], rob.elems[..held])
    ensures var q := Mark(rob, k, e);
      MapsChain(q.elems, maps) && ArchChain(cfg, q.elems, archs) && Conserved(cfg.regCount, free, maps[0], q.elems[..held])
  {
    hide MapStep, SeqStep;
    var q := Mark(rob, k, e);
    assert Dests(q.elems[..held]) == Dests(rob.elems[..held]);
    forall i | 0 <= i < |q.elems|
      ensures MapStep(maps[i], maps[i + 1], q.elems[i]) && archs[i + 1] == SeqStep(cfg, archs[i], q.elems[i].d)
    {
      assert MapStep(maps[i], maps[i + 1], rob.elems[i]) && archs[i + 1] == SeqStep(cfg, archs[i], rob.elems[i].d);
      MapStepSame(maps[i], maps[i + 1], rob.elems[i], q.elems[i]);
    }
  }

  lemma MapStepSame(m: seq<nat>, m': seq<nat>, e: R.RobEntry, e': R.RobEntry)
    requires SameEntry(e, e') && MapStep(m, m', e)
    ensures MapStep(m, m', e')
  {
  }

  lemma MarkResults(rob: Queue<R.RobEntry>, k: nat, e: R.RobEntry, held: nat, archs: seq<Arch>, busy: seq<R.Busy>, regs: seq<Val>)
    requires k < |rob.elems| && SameEntry(rob.elems[k], e) && held <= |rob.elems| && |archs| > |rob.elems|
    requires ResultsHeld(rob.elems[..held], archs, busy, regs)
    ensures ResultsHeld(Mark(rob, k, e).elems[..held], archs, busy, regs)
  {
  }

  lemma MarkLoads(cfg: Config, rob: Queue<R.RobEntry>, k: nat, e: R.RobEntry, held: nat, robTag: map<nat, nat>,
      archs: seq<Arch>, ldq: Queue<L.LdqEntry>, dead: set<nat>)
    requires k < |rob.elems| && SameEntry(rob.elems[k], e) && held <= |rob.elems|
    requires RobLoads(rob.elems, held, ldq) && LoadsTied(rob, held, robTag, ldq) && LoadsRetired(ldq.elems, dead, rob.elems)
    requires LoadAddrs(cfg, rob, robTag, archs, ldq.elems)
    ensures var q := Mark(rob, k, e);
      && RobLoads(q.elems, held, ldq) && LoadsTied(q, held, robTag, ldq) && LoadsRetired(ldq.elems, dead, q.elems)
      && LoadAddrs(cfg, q, robTag, archs, ldq.elems)
  {
    hide Address;
  }

  lemma MarkResps(cfg: Config, rob: Queue<R.RobEntry>, k: nat, e: R.RobEntry, robTag: map<nat, nat>, archs: seq<Arch>,
      ldq: Queue<L.LdqEntry>, lresp: map<nat, Resp>)
    requires k < |rob.elems| && RespsOk(cfg, rob, robTag, archs, ldq, lresp)
    ensures RespsOk(cfg, Mark(rob, k, e), robTag, archs, ldq, lresp)
  {
  }

  lemma MarkStores(rob: Queue<R.RobEntry>, k: nat, e: R.RobEntry, held: nat, robTag: map<nat, nat>, stq: Queue<L.StqEntry>)
    requires k < |rob.elems| && SameEntry(rob.elems[k], e) && held <= |rob.elems|
    requires RobStores(rob.elems, held, stq) && StoresTied(rob, held, robTag, stq) && StoresRetired(stq.elems, rob.elems)
    ensures var q := Mark(rob, k, e);
      RobStores(q.elems, held, stq) && StoresTied(q, held, robTag, stq) && StoresRetired(stq.elems, q.elems)
  {
  }

  // The finished instruction's operation is gone; the others keep their entries.
  lemma MarkOps(cfg: Config, rob: Queue<R.RobEntry>, k: nat, e: R.RobEntry, maps: seq<seq<nat>>, archs: seq<Arch>,
      ops: map<nat, Op>, id: nat, busy: seq<R.Busy>)
    requires k < |rob.elems| && SameEntry(rob.elems[k], e) && |maps| == |archs| == |rob.elems| + 1
    requires OpsTied(rob, maps, ops) && ValsOk(cfg, rob, archs, ops) && ForwardedDone(rob, ops, busy)
    requires rob.elems[k].id == id || e.done == rob.elems[k].done
    ensures var q := Mark(rob, k, e);
      OpsTied(q, maps, ops - {id}) && ValsOk(cfg, q, archs, ops - {id}) && ForwardedDone(q, ops - {id}, busy)
  {
    hide OperandsOk, StageOk;
  }

  // ---- the recovery state after write-back ------------------------------------------------------

  datatype Ctl = Ctl(rob: Queue<R.RobEntry>, mode: R.RobState, tag: nat, excp: Fault)

  predicate CtlOk(c: Ctl, pkg: nat, released: bool) {
    && TagOk(c.rob, c.mode, c.tag) && FaultsBehind(c.rob, c.mode, c.tag) && EntriesOk(c.rob.elems)
    && CauseOk(c.rob, c.mode, c.tag, c.excp) && PkgOk(c.rob, c.mode, c.tag, pkg)
    && ReleasedOk(c.rob.elems, c.mode, released) && ReleasedSafe(c.rob, c.mode, c.tag, released)
  }

  // The instruction at position k faults or mispredicts and becomes the rollback entry.
  lemma RaiseMode(c: Ctl, k: nat, e: R.RobEntry, tag': nat, excp': Fault, pkg: nat, released: bool)
    requires CtlOk(c, pkg, released) && k < |c.rob.elems| && !c.rob.elems[k].done && SameEntry(c.rob.elems[k], e)
    requires e.done && (e.fault.Some? || e.isMisPred) && (e.isMisPred ==> e.d.fu == BRU) && c.rob.Dist(tag') == k
    requires e.fault.Some? ==> e.fault == Some(excp')
    requires c.mode == R.Idle || k <= c.rob.Dist(c.tag)
    requires released ==> !HoldsResource(c.rob.elems[|c.rob.elems| - 1])
    ensures CtlOk(Ctl(Mark(c.rob, k, e), R.Undo, tag', excp'), pkg, released)
  {
  }

  // The unresolved branch dispatch was waiting for turns out as predicted.
  lemma ResumeMode(c: Ctl, k: nat, e: R.RobEntry, pkg: nat, released: bool)
    requires CtlOk(c, pkg, released) && k < |c.rob.elems| && !c.rob.elems[k].done && SameEntry(c.rob.elems[k], e)
    requires e == c.rob.elems[k].(done := true, isStable := true) && c.mode == R.WaitForResume && c.rob.Dist(c.tag) == k
    ensures CtlOk(Ctl(Mark(c.rob, k, e), R.Idle, c.tag, c.excp), pkg, released)
  {
  }

  // Any other write-back: a fault or misprediction is only recorded behind the rollback entry.
  lemma RecordMode(c: Ctl, k: nat, e: R.RobEntry, pkg: nat, released: bool)
    requires CtlOk(c, pkg, released) && k < |c.rob.elems| && !c.rob.elems[k].done && SameEntry(c.rob.elems[k], e)
    requires e.done && (e.isMisPred ==> e.d.fu == BRU)
    requires e.fault.Some? || e.isMisPred ==> Recovering(c.mode) && c.rob.Dist(c.tag) < k
    ensures CtlOk(Ctl(Mark(c.rob, k, e), c.mode, c.tag, c.excp), pkg, released)
  {
  }

  // A load that faults is never itself the rollback entry: that one has finished or steers control flow.
  lemma FaultNotAtTag(c: Ctl, k: nat, pkg: nat, released: bool)
    requires CtlOk(c, pkg, released) && k < |c.rob.elems| && !c.rob.elems[k].done && Recovering(c.mode)
    requires c.rob.elems[k].d.fu == LDU && c.rob.elems[k].d.WellDecoded()
    ensures c.rob.Dist(c.tag) != k
  {
  }

  lemma IdleHasNoFlush(c: Ctl, k: nat, pkg: nat, released: bool)
    requires CtlOk(c, pkg, released) && k < |c.rob.elems|
    ensures c.mode != R.FlushBackend && (!c.rob.elems[k].done ==> c.rob.elems[k].fault.None? && !c.rob.elems[k].isMisPred)
  {
  }

  function CtlOf(r: R.Rcu): Ctl { Ctl(r.rob, r.mode, r.tag, r.excp) }

  lemma WrittenMode(r: R.Rcu, spec: bool, o: R.Outcome, pkg: nat, released: bool)
    requires r.Valid() && o.robTag < r.rob.size && o.phyRd < |r.regs| && r.rob.Live(o.robTag)
    requires !r.rob.At(o.robTag).done && r.rob.At(o.robTag).d == o.d && o.d.WellDecoded()
    requires o.fault.Some? ==> o.d.fu == LDU
    requires CtlOk(CtlOf(r), pkg, released)
    requires R.Raises(r, o) && released ==> !HoldsResource(R.Youngest(r))
    ensures CtlOk(CtlOf(R.WriteBack(r, spec, o)), pkg, released)
  {
    hide CtlOk, R.AllBelow, R.EntriesInRange;
    GuardIsLiveness(r.rob, o.robTag);
    OlderIsDistance(r.rob.size, r.rob.head, o.robTag, r.tag);
    var k := r.rob.Pos(o.robTag);
    var c := CtlOf(r);
    var e := R.MarkWritten(r.rob.elems[k], o);
    IdleHasNoFlush(c, k, pkg, released);
    if R.Raises(r, o) {
      RaiseMode(c, k, e, o.robTag, if o.fault.Some? then o.fault.value else r.excp, pkg, released);
    } else if o.fault.None? && o.d.fu == BRU && !o.misPred && !spec && r.mode == R.WaitForResume && o.robTag == r.tag {
      ResumeMode(c, k, e, pkg, released);
    } else {
      if o.fault.Some? {
        FaultNotAtTag(c, k, pkg, released);
      }
      RecordMode(c, k, e, pkg, released);
    }
  }

  // ---- write-back of a live instruction ---------------------------------------------------------

  function WrittenBusy(r: R.Rcu, o: R.Outcome): seq<R.Busy>
    requires o.phyRd < |r.busy|
  {
    if o.fault.None? && o.d.Writes() then r.busy[o.phyRd := r.busy[o.phyRd].(done := true, forwarding := false)] else r.busy
  }

  function WrittenRegs(r: R.Rcu, o: R.Outcome): seq<Val>
    requires o.phyRd < |r.regs|
  {
    if o.fault.None? && o.d.Writes() then r.regs[o.phyRd := o.result] else r.regs
  }

  lemma WrittenEffect(r: R.Rcu, spec: bool, o: R.Outcome)
    requires r.Valid() && o.robTag < r.rob.size && o.phyRd < |r.regs| && r.rob.Live(o.robTag)
    ensures var r' := R.WriteBack(r, spec, o);
      var k := r.rob.Dist(o.robTag);
      && r' == r.(rob := Mark(r.rob, k, R.MarkWritten(r.rob.elems[k], o)), mode := r'.mode, tag := r'.tag, excp := r'.excp,
                  busy := WrittenBusy(r, o), regs := WrittenRegs(r, o))
      && SameEntry(r.rob.elems[k], R.MarkWritten(r.rob.elems[k], o)) && R.MarkWritten(r.rob.elems[k], o).done
      && (Recovering(r'.mode) || (r'.mode == r.mode && r'.tag == r.tag)
          || (r.mode == R.WaitForResume && r'.mode == R.Idle && r'.tag == r.tag == o.robTag && o.d.fu == BRU))
      && (Recovering(r'.mode) ==> r'.tag == o.robTag || (r'.tag == r.tag && Recovering(r.mode)))
  {
    hide R.AllBelow, R.EntriesInRange;
    GuardIsLiveness(r.rob, o.robTag);
  }

  lemma WrittenSquash(rob: Queue<R.RobEntry>, k: nat, e: R.RobEntry, mode: R.RobState, tag: nat, mode': R.RobState, tag': nat,
                      ops: map<nat, Op>, id: nat, dead: set<nat>, free: seq<nat>)
    requires k < |rob.elems| && SameEntry(rob.elems[k], e) && e.done && !rob.elems[k].done && id in ops
    requires OpsSquashed(rob, mode, ops, dead, free) && BranchOk(rob, mode, tag, ops)
    requires Recovering(mode') || (mode' == mode && tag' == tag)
             || (mode == R.WaitForResume && mode' == R.Idle && rob.Dist(tag) == k && rob.elems[k].d.fu == BRU)
    requires Recovering(mode') ==> rob.Dist(tag') == k || (tag' == tag && Recovering(mode))
    ensures OpsSquashed(Mark(rob, k, e), mode', ops - {id}, dead, free) && BranchOk(Mark(rob, k, e), mode', tag', ops - {id})
  {
  }

  predicate WritesLive(cfg: Config, mem0: Mem, s: State, id: nat) {
    && InvShape(cfg, s) && InvMaps(cfg, s) && InvArch(cfg, mem0, s) && InvMode(s) && InvPkg(s) && InvOps(cfg, s)
      && InvVals(cfg, s)
    && CanWriteBack(cfg, s, id) && LiveOp(s.rcu.rob, s.ops[id])
  }

  lemma WriteFacts(cfg: Config, mem0: Mem, s: State, id: nat)
    requires WritesLive(cfg, mem0, s, id)
    ensures var o := OutcomeOf(cfg, s.ops[id]);
      var k := s.rcu.rob.Dist(o.robTag);
      var e := s.Rob()[k];
      var r' := WriteBack(cfg, s, id).rcu;
      && k < s.Held() && e.id == id && e.d == o.d && !e.done && e.phyRd == o.phyRd && o.d.WellDecoded()
        && s.rcu.rob.Live(o.robTag)
      && o.d.fu != STU && (o.fault.Some? ==> o.d.fu == LDU) && (o.d.Writes() ==> o.phyRd != 0)
      && (o.d.Writes() ==> o.result == XReg(s.g.archs[k + 1].x, o.d.isaRd))
      && WriteBack(cfg, s, id).Held() == s.Held()
  {
    hide R.AllBelow, R.EntriesInRange, R.TagsInRange, MapsOk, ArchsOk, AllValid, MapsChain, ArchChain, InvMode, PkgOk,
      InvOps, InvVals;
    LiveFacts(cfg, mem0, s, id);
    WrittenEffect(s.rcu, cfg.speculate, OutcomeOf(cfg, s.ops[id]));
  }

  lemma WriteShape(cfg: Config, mem0: Mem, s: State, id: nat)
    requires WritesLive(cfg, mem0, s, id) && InvCons(cfg, s)
    ensures var s' := WriteBack(cfg, s, id);
      InvShape(cfg, s') && InvMaps(cfg, s') && InvArch(cfg, mem0, s') && InvCons(cfg, s')
  {
    hide R.AllBelow, R.EntriesInRange, R.TagsInRange, MapsOk, ArchsOk, AllValid, MapsChain, ArchChain, InvMode, PkgOk,
      InvOps, InvVals, Conserved, R.WriteBack;
    WriteFacts(cfg, mem0, s, id);
    var o := OutcomeOf(cfg, s.ops[id]);
    var k := s.rcu.rob.Dist(o.robTag);
    var e := R.MarkWritten(s.Rob()[k], o);
    WrittenEffect(s.rcu, cfg.speculate, o);
    MarkShape(s.rcu.rob, k, e, cfg.regCount, cfg.ldqSize, cfg.stqSize);
    MarkChains(cfg, s.rcu.rob, k, e, s.Held(), s.g.maps, s.g.archs, s.rcu.free);
  }

  // The hypothesis, said of released entries: those are faulted, and while the rollback still
  // runs they hold nothing.
  lemma SafeRaise(s: State, o: R.Outcome)
    requires s.rcu.Valid() && SingleRelease(s, o) && s.rcu.rob.Live(o.robTag)
    requires ReleasedOk(s.Rob(), s.rcu.mode, s.g.released) && ReleasedSafe(s.rcu.rob, s.rcu.mode, s.rcu.tag, s.g.released)
    ensures R.Raises(s.rcu, o) && s.g.released ==> !HoldsResource(R.Youngest(s.rcu))
  {
    hide R.AllBelow, R.EntriesInRange;
  }

  lemma WriteOrder(cfg: Config, mem0: Mem, s: State, id: nat)
    requires WritesLive(cfg, mem0, s, id) && InvOrder(s)
    ensures InvOrder(WriteBack(cfg, s, id)) && InvMode(WriteBack(cfg, s, id)) && InvPkg(WriteBack(cfg, s, id))
  {
    hide R.AllBelow, R.EntriesInRange, R.TagsInRange, MapsOk, ArchsOk, AllValid, MapsChain, ArchChain, TagOk,
      FaultsBehind, EntriesOk, CauseOk, ReleasedOk, ReleasedSafe, PkgOk, InvOps, InvVals, RobSorted, LdqSorted,
      StqSorted, TagsMatch, IdsBelow, NotDead, CommitsOk, R.WriteBack;
    WriteFacts(cfg, mem0, s, id);
    var o := OutcomeOf(cfg, s.ops[id]);
    var k := s.rcu.rob.Dist(o.robTag);
    var e := R.MarkWritten(s.Rob()[k], o);
    WrittenEffect(s.rcu, cfg.speculate, o);
    MarkOrder(s.rcu.rob, k, e, s.Held(), s.g.robTag, s.g.dead, s.g.commitIds, s.nextId);
    assert CtlOk(CtlOf(s.rcu), s.pkg, s.g.released);
    SafeRaise(s, o);
    WrittenMode(s.rcu, cfg.speculate, o, s.pkg, s.g.released);
  }

  lemma WriteOps(cfg: Config, mem0: Mem, s: State, id: nat)
    requires WritesLive(cfg, mem0, s, id) && InvShape(cfg, WriteBack(cfg, s, id))
    ensures InvOps(cfg, WriteBack(cfg, s, id)) && InvVals(cfg, WriteBack(cfg, s, id))
  {
    hide R.AllBelow, R.EntriesInRange, R.TagsInRange, MapsOk, ArchsOk, AllValid, MapsChain, ArchChain, InvMode, PkgOk,
      OpsShape, OpsTied, OpsSquashed, BranchOk, ValsOk, ForwardedDone, R.WriteBack;
    WriteFacts(cfg, mem0, s, id);
    var o := OutcomeOf(cfg, s.ops[id]);
    var k := s.rcu.rob.Dist(o.robTag);
    var e := R.MarkWritten(s.Rob()[k], o);
    var r' := WriteBack(cfg, s, id).rcu;
    WrittenEffect(s.rcu, cfg.speculate, o);
    MarkOps(cfg, s.rcu.rob, k, e, s.g.maps, s.g.archs, s.ops, id, s.rcu.busy);
    WrittenSquash(s.rcu.rob, k, e, s.rcu.mode, s.rcu.tag, r'.mode, r'.tag, s.ops, id, s.g.dead, s.rcu.free);
    FewerOps(cfg, s.ops, s.g.robTag, id);
    MoreBusy(Mark(s.rcu.rob, k, e), s.ops - {id}, s.rcu.busy, o);
  }

  lemma FewerOps(cfg: Config, ops: map<nat, Op>, robTag: map<nat, nat>, id: nat)
    requires OpsShape(cfg, ops, robTag)
    ensures OpsShape(cfg, ops - {id}, robTag)
  {
  }

  lemma MoreBusy(rob: Queue<R.RobEntry>, ops: map<nat, Op>, busy: seq<R.Busy>, o: R.Outcome)
    requires ForwardedDone(rob, ops, busy) && o.phyRd < |busy|
    ensures ForwardedDone(rob, ops, busy[o.phyRd := busy[o.phyRd].(done := true, forwarding := false)])
  {
  }

  lemma WriteRegs(cfg: Config, mem0: Mem, s: State, id: nat)
    requires WritesLive(cfg, mem0, s, id) && InvRegs(cfg, s) && InvCons(cfg, s) && InvShape(cfg, WriteBack(cfg, s, id))
    ensures InvRegs(cfg, WriteBack(cfg, s, id))
  {
    hide R.AllBelow, R.EntriesInRange, R.TagsInRange, MapsOk, ArchsOk, AllValid, MapsChain, ArchChain, InvMode, PkgOk,
      InvOps, ValsOk, ArchHeld, ResultsHeld, DoneHeld, Conserved, R.WriteBack;
    WriteFacts(cfg, mem0, s, id);
    var o := OutcomeOf(cfg, s.ops[id]);
    var k := s.rcu.rob.Dist(o.robTag);
    var e := R.MarkWritten(s.Rob()[k], o);
    WrittenEffect(s.rcu, cfg.speculate, o);
    if o.fault.None? && o.d.Writes() {
      WriteHeld(cfg.regCount, s.rcu.free, s.g.maps[0], s.Rob(), s.Held(), s.g.archs, s.rcu.busy, s.rcu.regs, k,
                s.rcu.busy[o.phyRd].(done := true, forwarding := false), o.result);
    }
    MarkResults(s.rcu.rob, k, e, s.Held(), s.g.archs, WrittenBusy(s.rcu, o), WrittenRegs(s.rcu, o));
    MarkDone(s.rcu.rob, k, e, WrittenBusy(s.rcu, o));
  }

  lemma MarkDone(rob: Queue<R.RobEntry>, k: nat, e: R.RobEntry, busy: seq<R.Busy>)
    requires k < |rob.elems| && SameEntry(rob.elems[k], e) && DoneHeld(rob.elems, busy)
    requires e.done && e.fault.None? && e.d.Writes() ==> Done(busy, e.phyRd)
    ensures DoneHeld(Mark(rob, k, e).elems, busy)
  {
  }

  lemma WriteLdq(cfg: Config, mem0: Mem, s: State, id: nat)
    requires WritesLive(cfg, mem0, s, id) && InvLdq(cfg, s)
    ensures InvLdq(cfg, WriteBack(cfg, s, id))
  {
    hide R.AllBelow, R.EntriesInRange, R.TagsInRange, MapsOk, ArchsOk, AllValid, MapsChain, ArchChain, InvMode, PkgOk,
      InvOps, InvVals, RobLoads, LoadsTied, LoadAddrs, LoadStages, LoadsDone, LoadsRetired, LoadOps, RespsTied, RespsOk,
      R.WriteBack;
    WriteFacts(cfg, mem0, s, id);
    var o := OutcomeOf(cfg, s.ops[id]);
    var k := s.rcu.rob.Dist(o.robTag);
    var e := R.MarkWritten(s.Rob()[k], o);
    WrittenEffect(s.rcu, cfg.speculate, o);
    MarkLoads(cfg, s.rcu.rob, k, e, s.Held(), s.g.robTag, s.g.archs, s.lsq.ldq, s.g.dead);
    MarkResps(cfg, s.rcu.rob, k, e, s.g.robTag, s.g.archs, s.lsq.ldq, s.lresp);
    WriteLoads(s.rcu.rob, k, e, s.Held(), s.lsq.ldq, s.ops, id);
  }

  // The written-back load's entry has had its response, and nobody else loses an operation.
  lemma WriteLoads(rob: Queue<R.RobEntry>, k: nat, e: R.RobEntry, held: nat, ldq: Queue<L.LdqEntry>, ops: map<nat, Op>, id: nat)
    requires k < held <= |rob.elems| && SameEntry(rob.elems[k], e) && rob.elems[k].id == id && id in ops
      && ops[id].stage.Forwarded?
    requires RobLoads(rob.elems, held, ldq) && LoadStages(ldq.elems, ops) && LoadsDone(rob.elems, ldq) && LoadOps(ldq, ops)
    ensures LoadsDone(Mark(rob, k, e).elems, ldq) && LoadStages(ldq.elems, ops - {id}) && LoadOps(ldq, ops - {id})
  {
  }

  lemma WriteStq(cfg: Config, mem0: Mem, s: State, id: nat)
    requires WritesLive(cfg, mem0, s, id) && InvStq(cfg, s) && InvMem(cfg, s) && InvShape(cfg, WriteBack(cfg, s, id))
    ensures InvStq(cfg, WriteBack(cfg, s, id)) && InvMem(cfg, WriteBack(cfg, s, id))
  {
    hide R.AllBelow, R.EntriesInRange, R.TagsInRange, MapsOk, ArchsOk, AllValid, MapsChain, ArchChain, InvMode, PkgOk,
      InvOps, InvVals, RobStores, StoreData, StoresTied, StoresRetired, StoresKept, StoreOps, StoreResps, StoresInOrder,
      DepsOk, Drain, TraceSorted, TraceBeforeStores, TraceBeforeLoads, R.WriteBack;
    WriteFacts(cfg, mem0, s, id);
    var o := OutcomeOf(cfg, s.ops[id]);
    var k := s.rcu.rob.Dist(o.robTag);
    var e := R.MarkWritten(s.Rob()[k], o);
    WrittenEffect(s.rcu, cfg.speculate, o);
    MarkStores(s.rcu.rob, k, e, s.Held(), s.g.robTag, s.lsq.stq);
    MarkStoreData(cfg, s.rcu.rob, k, e, s.g.archs, s.lsq.stq);
    FewerStoreOps(s.lsq.stq, s.ops, id);
  }

  lemma MarkStoreData(cfg: Config, rob: Queue<R.RobEntry>, k: nat, e: R.RobEntry, archs: seq<Arch>, stq: Queue<L.StqEntry>)
    requires k < |rob.elems| && SameEntry(rob.elems[k], e) && e.d.fu != STU && |archs| > |rob.elems|
    requires StoreData(cfg, rob.elems, archs, stq)
    ensures StoreData(cfg, Mark(rob, k, e).elems, archs, stq)
  {
  }

  lemma FewerStoreOps(stq: Queue<L.StqEntry>, ops: map<nat, Op>, id: nat)
    requires StoreOps(stq, ops)
    ensures StoreOps(stq, ops - {id})
  {
  }

  lemma WriteLiveInv(cfg: Config, mem0: Mem, s: State, id: nat)
    requires Inv(cfg, mem0, s) && CanWriteBack(cfg, s, id) && LiveOp(s.rcu.rob, s.ops[id])
    ensures Inv(cfg, mem0, WriteBack(cfg, s, id))
  {
    hide InvShape, InvOrder, InvMaps, InvArch, InvCons, InvMode, InvPkg, InvOps, InvRegs, InvVals, InvLdq, InvStq,
      InvMem, WriteBack;
    WriteShape(cfg, mem0, s, id);
    WriteOrder(cfg, mem0, s, id);
    WriteOps(cfg, mem0, s, id);
    WriteRegs(cfg, mem0, s, id);
    WriteLdq(cfg, mem0, s, id);
    WriteStq(cfg, mem0, s, id);
  }

  // ---- write-back of a squashed instruction -----------------------------------------------------

  lemma WriteSquashedInv(cfg: Config, mem0: Mem, s: State, id: nat)
    requires Inv(cfg, mem0, s) && CanWriteBack(cfg, s, id) && !LiveOp(s.rcu.rob, s.ops[id])
    ensures Inv(cfg, mem0, WriteBack(cfg, s, id)) && WriteBack(cfg, s, id).rcu == s.rcu
  {
    hide R.AllBelow, R.EntriesInRange, R.TagsInRange, MapsOk, ArchsOk, AllValid, InvOrder, MapsChain, ArchChain,
      Conserved, InvMode, PkgOk, InvOps, InvRegs, ValsOk, ForwardedDone, RobLoads, LoadsTied, LoadAddrs, LoadStages,
      LoadsDone, LoadsRetired, LoadOps, RespsTied, RespsOk, InvStq, InvMem, SameOps;
    GuardIsLiveness(s.rcu.rob, s.ops[id].robTag);
    var ops' := s.ops - {id};
    DropOp(cfg, s.rcu.rob, s.g.archs, s.ops, s.rcu.busy, id);
    DropStage(s, id);
    OpsOnlyInv(cfg, mem0, s, ops');
  }

  lemma DropOp(cfg: Config, rob: Queue<R.RobEntry>, archs: seq<Arch>, ops: map<nat, Op>, busy: seq<R.Busy>, id: nat)
    requires |archs| > |rob.elems| && ValsOk(cfg, rob, archs, ops) && ForwardedDone(rob, ops, busy)
    ensures SameOps(ops, ops - {id}) && ValsOk(cfg, rob, archs, ops - {id}) && ForwardedDone(rob, ops - {id}, busy)
  {
  }

  lemma DropStage(s: State, id: nat)
    requires id in s.ops && s.ops[id].stage.Forwarded? && LoadStages(s.lsq.ldq.elems, s.ops)
    ensures LoadStages(s.lsq.ldq.elems, s.ops - {id})
  {
  }

  lemma WriteBackInv(cfg: Config, mem0: Mem, s: State, id: nat)
    requires Inv(cfg, mem0, s) && CanWriteBack(cfg, s, id)
    ensures Inv(cfg, mem0, WriteBack(cfg, s, id))
  {
    hide InvShape, InvOrder, InvMaps, InvArch, InvCons, InvMode, InvPkg, InvOps, InvRegs, InvVals, InvLdq, InvStq,
      InvMem, WriteBack;
    if LiveOp(s.rcu.rob, s.ops[id]) {
      WriteLiveInv(cfg, mem0, s, id);
    } else {
      WriteSquashedInv(cfg, mem0, s, id);
    }
  }
}
