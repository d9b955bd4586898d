// What holds in every reachable state of the backend.
module BackendTheorems {
  import opened DynInsn
  import opened LoopQueue
  import L = LsqSpec
  import R = RcuSpec
  import opened Backend
  import opened BackendInv
  import opened Registers
  import opened ProofDispatch
  import opened ProofCommit
  import opened ProofUndo
  import opened ProofExec
  import opened ProofWriteBack
  import opened ProofAgu
  import opened ProofLsq

  // ---- the invariant over whole runs ------------------------------------------------------------

  lemma StepInv(cfg: Config, mem0: Mem, s: State, e: Event)
    requires Inv(cfg, mem0, s) && Enabled(cfg, s, e)
    ensures Inv(cfg, mem0, Step(cfg, s, e))
  {
    hide Inv, CanDispatch, CanRead, CanExecute, CanAgu, CanForward, CanWriteBack, CanIssueLoad, CanIssueStore,
      CanLoadResp, CanStoreResp, CanSendCommit, CanCommitOne, CanUndoOne, CanFinishUndo, CanLeaveFlush, CanPopStore,
      CanPopLoad, Dispatch, ReadOperand, Execute, Agu, Forward, WriteBack, IssueLoad, IssueStore, LoadResp, StoreResp,
      SendCommit, CommitOne, UndoOne, FinishUndo, LeaveFlush, PopStore, PopLoad;
    match e
    case EvDispatch(d) => DispatchInv(cfg, mem0, s, d);
    case EvRead(id, second) => ReadInv(cfg, mem0, s, id, second);
    case EvExecute(id) => ExecuteInv(cfg, mem0, s, id);
    case EvAgu(id) => AguInv(cfg, mem0, s, id);
    case EvForward(id, wake) => ForwardInv(cfg, mem0, s, id, wake);
    case EvWriteBack(id) => WriteBackInv(cfg, mem0, s, id);
    case EvIssueLoad => IssueLoadInv(cfg, mem0, s);
    case EvIssueStore => IssueStoreInv(cfg, mem0, s);
    case EvLoadResp(slot) => LoadRespInv(cfg, mem0, s, slot);
    case EvStoreResp(slot) => StoreRespInv(cfg, mem0, s, slot);
    case EvSendCommit(width) => SendCommitInv(cfg, mem0, s, width);
    case EvCommitOne => CommitInv(cfg, mem0, s);
    case EvUndoOne => UndoInv(cfg, mem0, s);
    case EvFinishUndo => FinishInv(cfg, mem0, s);
    case EvLeaveFlush => LeaveFlushInv(cfg, mem0, s);
    case EvPopStore => PopStoreInv(cfg, mem0, s);
    case EvPopLoad => PopLoadInv(cfg, mem0, s);
  }

  // The invariant holds in every state of every run from reset.
  lemma {:induction false} RunInv(cfg: Config, mem0: Mem, ss: seq<State>, es: seq<Event>, i: nat)
    requires Reachable(cfg, mem0, ss, es) && i < |ss|
    ensures Inv(cfg, mem0, ss[i])
    decreases i
  {
    hide Inv, Enabled, Step, Init;
    if i == 0 {
      InitInv(cfg, mem0);
    } else {
      RunInv(cfg, mem0, ss, es, i - 1);
      StepInv(cfg, mem0, ss[i - 1], es[i - 1]);
    }
  }

  // ---- out-of-order execution refines sequential execution --------------------------------------

  // In every reachable state the registers behind the committed mapping, and memory once
  // the committed stores still queued are written, are those of the sequential machine
  // after the committed instructions.
  lemma CommittedStateIsSequential(cfg: Config, mem0: Mem, ss: seq<State>, es: seq<Event>, i: nat, r: nat)
    requires Reachable(cfg, mem0, ss, es) && i < |ss| && r < ISA_REGS
    ensures var s := ss[i];
      var a := SeqRun(cfg, mem0, s.g.committed);
      && |s.g.maps| > 0 && |s.g.maps[0]| == ISA_REGS
      && Done(s.rcu.busy, s.g.maps[0][r]) && Reg(s.rcu.regs, s.g.maps[0][r]) == XReg(a.x, r)
      && Drain(cfg, s.mem, s.lsq.stq.elems) == a.mem
  {
    hide R.AllBelow, R.EntriesInRange, R.TagsInRange, MapsOk, ArchsOk, AllValid, InvOrder, MapsChain, ArchChain,
      Conserved, InvMode, PkgOk, InvOps, ResultsHeld, DoneHeld, InvVals, InvLdq, InvStq, DepsOk, Drain, TraceSorted,
      TraceBeforeStores, TraceBeforeLoads, SeqRun;
    RunInv(cfg, mem0, ss, es, i);
    assert MapsOk(ss[i].g.maps, cfg.regCount);
    FirstTable(ss[i].g.maps, cfg.regCount);
  }

  lemma FirstTable(maps: seq<seq<nat>>, regCount: nat)
    requires MapsOk(maps, regCount) && |maps| > 0
    ensures |maps[0]| == ISA_REGS
  {
  }

  // With the reorder buffer and the store queue empty, the rename table, the register file
  // and memory alone hold the sequential state.
  lemma QuiescentStateIsSequential(cfg: Config, mem0: Mem, ss: seq<State>, es: seq<Event>, i: nat, r: nat)
    requires Reachable(cfg, mem0, ss, es) && i < |ss| && r < ISA_REGS
    requires ss[i].Rob() == [] && ss[i].lsq.stq.elems == []
    ensures var s := ss[i];
      var a := SeqRun(cfg, mem0, s.g.committed);
      && |s.rcu.table| == ISA_REGS && Reg(s.rcu.regs, s.rcu.table[r]) == XReg(a.x, r) && s.mem == a.mem
  {
    hide R.AllBelow, R.EntriesInRange, R.TagsInRange, MapsOk, ArchsOk, AllValid, InvOrder, MapsChain, ArchChain,
      Conserved, InvMode, PkgOk, InvOps, ResultsHeld, DoneHeld, InvVals, InvLdq, InvStq, DepsOk, TraceSorted,
      TraceBeforeStores, TraceBeforeLoads, SeqRun;
    RunInv(cfg, mem0, ss, es, i);
    CommittedStateIsSequential(cfg, mem0, ss, es, i, r);
  }

  // ---- renaming preserves sequential dataflow ---------------------------------------------------

  // The youngest of the first k entries writing ISA register r.
  function LastWriter(rob: seq<R.RobEntry>, k: nat, r: nat): (w: Option<nat>)
    requires k <= |rob|
    ensures w.Some? ==> w.value < k && rob[w.value].d.Writes() && rob[w.value].d.isaRd == r
    ensures w.Some? ==> forall j :: w.value < j < k ==> !(rob[j].d.Writes() && rob[j].d.isaRd == r)
    ensures w.None? ==> forall j :: 0 <= j < k ==> !(rob[j].d.Writes() && rob[j].d.isaRd == r)
  {
    if k == 0 then None
    else if rob[k - 1].d.Writes() && rob[k - 1].d.isaRd == r then Some(k - 1)
    else LastWriter(rob, k - 1, r)
  }

  lemma {:induction false} WriterValue(cfg: Config, rob: seq<R.RobEntry>, maps: seq<seq<nat>>, archs: seq<Arch>, k: nat, r: nat)
    requires |maps| == |archs| == |rob| + 1 && k <= |rob| && r < ISA_REGS && MapsOk(maps, cfg.regCount) && ArchsOk(archs)
    requires MapsChain(rob, maps) && ArchChain(cfg, rob, archs)
    ensures match LastWriter(rob, k, r)
      case Some(j) => maps[k][r] == rob[j].phyRd && archs[k].x[r] == Result(cfg, archs[j], rob[j].d)
      case None => maps[k][r] == maps[0][r] && archs[k].x[r] == archs[0].x[r]
    decreases k
  {
    if k > 0 {
      assert MapStep(maps[k - 1], maps[k], rob[k - 1]) && archs[k] == SeqStep(cfg, archs[k - 1], rob[k - 1].d);
      if !(rob[k - 1].d.Writes() && rob[k - 1].d.isaRd == r) {
        WriterValue(cfg, rob, maps, archs, k - 1, r);
      }
    }
  }

  // The program up to the k-th live instruction: what has committed, then the older live ones.
  function ProgramBefore(s: State, k: nat): (ds: seq<Decoded>)
    requires k <= |s.Rob()|
    ensures |ds| == |s.g.committed| + k
  { s.g.committed + seq(k, i requires 0 <= i < k => s.Rob()[i].d) }

  // The state before the k-th live instruction is that of the sequential machine.
  lemma {:induction false} LiveStateIsSequential(cfg: Config, mem0: Mem, s: State, k: nat)
    requires InvShape(cfg, s) && InvArch(cfg, mem0, s) && k <= |s.Rob()|
    ensures s.g.archs[k] == SeqRun(cfg, mem0, ProgramBefore(s, k))
    decreases k
  {
    ArchFacts(cfg, mem0, s, k);
    hide InvShape, InvArch, SeqStep, SeqRun, ProgramBefore;
    if k > 0 {
      LiveStateIsSequential(cfg, mem0, s, k - 1);
      ProgramGrows(s, k);
      SeqRunNext(cfg, mem0, ProgramBefore(s, k - 1), s.Rob()[k - 1].d);
    }
  }

  lemma ArchFacts(cfg: Config, mem0: Mem, s: State, k: nat)
    requires InvShape(cfg, s) && InvArch(cfg, mem0, s) && k <= |s.Rob()|
    ensures |s.g.archs| == |s.Rob()| + 1
    ensures if k == 0 then s.g.archs[0] == SeqRun(cfg, mem0, ProgramBefore(s, 0))
      else s.g.archs[k] == SeqStep(cfg, s.g.archs[k - 1], s.Rob()[k - 1].d)
  {
    hide R.AllBelow, R.EntriesInRange, R.TagsInRange, MapsOk, ArchsOk, AllValid, SeqStep, SeqRun;
    assert ProgramBefore(s, 0) == s.g.committed;
  }

  lemma SeqRunNext(cfg: Config, mem0: Mem, ds: seq<Decoded>, d: Decoded)
    ensures SeqRun(cfg, mem0, ds + [d]) == SeqStep(cfg, SeqRun(cfg, mem0, ds), d)
  {
    hide SeqStep;
    assert (ds + [d])[..|ds|] == ds;
  }

  lemma ProgramGrows(s: State, k: nat)
    requires 0 < k <= |s.Rob()|
    ensures ProgramBefore(s, k) == ProgramBefore(s, k - 1) + [s.Rob()[k - 1].d]
  {
  }

  // When an operand of a live instruction is ready, by register read or by forwarding, it is
  // the sequential result of the youngest older live writer of its ISA register, or, without
  // one, the committed value of that register. (Register 0, and any register never written, is 0.)
  lemma OperandIsLastWritersResult(cfg: Config, mem0: Mem, ss: seq<State>, es: seq<Event>, i: nat, id: nat, second: bool)
    requires Reachable(cfg, mem0, ss, es) && i < |ss|
    requires id in ss[i].ops && LiveOp(ss[i].rcu.rob, ss[i].ops[id])
    requires HasOperand(ss[i].ops[id], second)
    ensures var s := ss[i];
      var op := s.ops[id];
      var k := s.rcu.rob.Dist(op.robTag);
      && s.Rob()[k].id == id
      && match LastWriter(s.Rob(), k, SourceOf(op, second))
         case Some(j) =>
           && NameOf(op, second) == s.Rob()[j].phyRd
           && ValueOf(op, second) == Result(cfg, SeqRun(cfg, mem0, ProgramBefore(s, j)), s.Rob()[j].d)
         case None => ValueOf(op, second) == XReg(SeqRun(cfg, mem0, s.g.committed).x, SourceOf(op, second))
  {
    hide R.AllBelow, R.EntriesInRange, R.TagsInRange, MapsOk, ArchsOk, AllValid, InvOrder, MapsChain, ArchChain,
      Conserved, InvMode, PkgOk, InvOps, InvRegs, InvVals, InvLdq, InvStq, InvMem, SeqRun, Result;
    RunInv(cfg, mem0, ss, es, i);
    var s := ss[i];
    var op := s.ops[id];
    LiveFacts(cfg, mem0, s, id);
    WriterValue(cfg, s.Rob(), s.g.maps, s.g.archs, s.rcu.rob.Dist(op.robTag), SourceOf(op, second));
    ArchLength(s.g.archs, 0);
    ArchLength(s.g.archs, s.rcu.rob.Dist(op.robTag));
    var w := LastWriter(s.Rob(), s.rcu.rob.Dist(op.robTag), SourceOf(op, second));
    LiveStateIsSequential(cfg, mem0, s, if w.Some? then w.value else 0);
  }

  // The first or the second register operand of an operation.
  predicate HasOperand(op: Op, second: bool) {
    if second then op.d.rs2Type == INT && op.b.Some? else op.d.rs1Type == INT && op.a.Some?
  }

  function SourceOf(op: Op, second: bool): nat { if second then op.d.isaRs2 else op.d.isaRs1 }

  function NameOf(op: Op, second: bool): nat { if second then op.phyRs2 else op.phyRs1 }

  function ValueOf(op: Op, second: bool): Val
    requires HasOperand(op, second)
  { if second then op.b.value else op.a.value }

  // A register a live instruction reads is never free: it is freed only once no instruction
  // still wanted reads it. With its value this is what the reservation station relies on.
  lemma SourcesAreNeverFree(cfg: Config, mem0: Mem, ss: seq<State>, es: seq<Event>, i: nat, id: nat, second: bool)
    requires Reachable(cfg, mem0, ss, es) && i < |ss|
    requires id in ss[i].ops && LiveOp(ss[i].rcu.rob, ss[i].ops[id])
    ensures NameOf(ss[i].ops[id], second) !in ss[i].rcu.free
  {
    hide R.AllBelow, R.EntriesInRange, R.TagsInRange, MapsOk, ArchsOk, AllValid, InvOrder, MapsChain, ArchChain,
      Conserved, InvMode, PkgOk, InvOps, InvRegs, InvVals, InvLdq, InvStq, InvMem, SeqRun, Result;
    RunInv(cfg, mem0, ss, es, i);
    var s := ss[i];
    var op := s.ops[id];
    LiveFacts(cfg, mem0, s, id);
    var k := s.rcu.rob.Dist(op.robTag);
    var r := SourceOf(op, second);
    FirstTable(s.g.maps, cfg.regCount);
    WriterValue(cfg, s.Rob(), s.g.maps, s.g.archs, k, r);
    var w := LastWriter(s.Rob(), k, r);
    NameNotFree(cfg.regCount, s.rcu.free, s.g.maps[0], s.Rob()[..s.Held()], if w.Some? then w.value else 0, r,
      NameOf(op, second));
  }

  lemma NameNotFree(regCount: nat, free: seq<nat>, m: seq<nat>, held: seq<R.RobEntry>, j: nat, r: nat, p: nat)
    requires regCount >= 2 && Conserved(regCount, free, m, held) && r < |m|
    requires (j < |held| && held[j].phyRd == p) || m[r] == p
    ensures p !in free
  {
    if p in free {
      FreeIsFresh(regCount, free, m, held, p);
    }
  }

  // ---- conservation of physical registers -------------------------------------------------------

  // The table form: previous mappings recorded by the held entries.
  function Previous(q: seq<R.RobEntry>): (ps: seq<nat>)
    ensures |ps| == |q|
    ensures forall k :: 0 <= k < |q| ==> ps[k] == if q[k].d.Writes() then q[k].lphyRd else 0
  { seq(|q|, k requires 0 <= k < |q| => if q[k].d.Writes() then q[k].lphyRd else 0) }

  // Each held instruction takes one rename table to the next.
  predicate HeldSteps(held: seq<R.RobEntry>, maps: seq<seq<nat>>) {
    |maps| > |held| && forall j :: 0 <= j < |held| ==> MapStep(maps[j], maps[j + 1], held[j])
  }

  lemma StepAt(held: seq<R.RobEntry>, maps: seq<seq<nat>>, j: nat)
    requires HeldSteps(held, maps) && j < |held| && |maps| > |held|
    ensures MapStep(maps[j], maps[j + 1], held[j])
  {
  }

  // Renaming trades the occurrence of one register for that of another.
  lemma {:induction false} TableCount(held: seq<R.RobEntry>, maps: seq<seq<nat>>, k: nat, p: nat)
    requires HeldSteps(held, maps) && |maps| > |held| && k <= |held| && p != 0
    ensures Count(maps[k], p) + Count(Previous(held[..k]), p) == Count(maps[0], p) + Count(Dests(held[..k]), p)
    decreases k
  {
    hide HeldSteps, MapStep, Previous, Dests, One, Count;
    if k > 0 {
      TableCount(held, maps, k - 1, p);
      StepAt(held, maps, k - 1);
      StepCount(maps[k - 1], maps[k], held[k - 1], p);
      HeldCount(held, k - 1, p);
    } else {
      NoneHeld(held, p);
    }
  }

  function Count(ps: seq<nat>, p: nat): nat { multiset(ps)[p] }

  // The same registers, counted from the committed map and from the table the held
  // instructions lead to.
  lemma CensusMoves(regCount: nat, free: seq<nat>, maps: seq<seq<nat>>, held: seq<R.RobEntry>)
    requires regCount >= 2 && HeldSteps(held, maps) && |maps| > |held|
    requires Conserved(regCount, free, maps[0], held)
    ensures (multiset(free) + multiset(maps[|held|]) + multiset(Previous(held)))[0 := 0] == multiset(Pool(regCount))
    ensures 0 !in free
  {
    hide HeldSteps, Pool, Previous, Dests;
    assert held[..|held|] == held;
    forall p: nat | p != 0
      ensures multiset(maps[|held|])[p] + multiset(Previous(held))[p] == multiset(maps[0])[p] + multiset(Dests(held))[p]
    {
      assert Count(maps[|held|], p) == multiset(maps[|held|])[p];
      TableCount(held, maps, |held|, p);
    }
  }

  lemma NoneHeld(held: seq<R.RobEntry>, p: nat)
    ensures Count(Previous(held[..0]), p) == Count(Dests(held[..0]), p) == 0
  {
  }

  lemma HeldCount(held: seq<R.RobEntry>, k: nat, p: nat)
    requires p != 0 && k < |held|
    ensures Count(Previous(held[..k + 1]), p) == Count(Previous(held[..k]), p) + One(held[k].d.Writes() && held[k].lphyRd == p)
    ensures Count(Dests(held[..k + 1]), p) == Count(Dests(held[..k]), p) + One(held[k].phyRd == p)
  {
    var e := held[k];
    var before := if e.d.Writes() then e.lphyRd else 0;
    assert Previous(held[..k + 1]) == Previous(held[..k]) + [before];
    assert Dests(held[..k + 1]) == Dests(held[..k]) + [e.phyRd];
    AppendCount(Previous(held[..k]), before, p);
    AppendCount(Dests(held[..k]), e.phyRd, p);
  }

  function One(b: bool): nat { if b then 1 else 0 }

  lemma AppendCount(q: seq<nat>, x: nat, p: nat)
    ensures Count(q + [x], p) == Count(q, p) + One(x == p)
  {
  }

  lemma StepCount(m: seq<nat>, m': seq<nat>, e: R.RobEntry, p: nat)
    requires MapStep(m, m', e) && p != 0
    ensures Count(m', p) + One(e.d.Writes() && e.lphyRd == p) == Count(m, p) + One(e.phyRd == p)
  {
  }

  lemma HeldChain(rob: seq<R.RobEntry>, maps: seq<seq<nat>>, u: nat)
    requires |maps| == |rob| + 1 && MapsChain(rob, maps) && u <= |rob|
    ensures HeldSteps(rob[..u], maps)
  {
  }

  // In every reachable state the free list, the rename table and the previous mappings kept
  // by unreleased entries hold every register of the pool exactly once (register 0 aside).
  lemma RegistersAreConserved(cfg: Config, mem0: Mem, ss: seq<State>, es: seq<Event>, i: nat)
    requires Reachable(cfg, mem0, ss, es) && i < |ss|
    ensures var s := ss[i];
      && 0 !in s.rcu.free
      && (multiset(s.rcu.free) + multiset(s.rcu.table) + multiset(Previous(s.Rob()[..s.Held()])))[0 := 0]
        == multiset(Pool(cfg.regCount))
  {
    hide Conserved, Previous, Pool, R.AllBelow, R.EntriesInRange, R.TagsInRange, MapsOk, ArchsOk, AllValid, InvOrder,
      MapsChain, ArchChain, InvMode, PkgOk, InvOps, InvRegs, InvVals, InvLdq, InvStq, InvMem, MapStep;
    RunInv(cfg, mem0, ss, es, i);
    var s := ss[i];
    var u := s.Held();
    var hs := s.Rob()[..u];
    HeldChain(s.Rob(), s.g.maps, u);
    CensusMoves(cfg.regCount, s.rcu.free, s.g.maps, hs);
  }

  // An empty reorder buffer leaves at least RegCount - 33 registers free.
  lemma FreeRegistersWhenEmpty(cfg: Config, mem0: Mem, ss: seq<State>, es: seq<Event>, i: nat)
    requires Reachable(cfg, mem0, ss, es) && i < |ss| && ss[i].Rob() == []
    ensures |ss[i].rcu.free| >= cfg.regCount - 33
  {
    hide InvOrder, ArchChain, MapsChain, InvMode, PkgOk, InvOps, InvRegs, InvVals, InvLdq, InvStq, InvMem, R.AllBelow,
      R.EntriesInRange, R.TagsInRange, ArchsOk, AllValid;
    RunInv(cfg, mem0, ss, es, i);
    var s := ss[i];
    assert s.Rob()[..s.Held()] == [] && Dests([]) == [];
    var m := s.g.maps[0];
    assert TableOk(m, cfg.regCount);
    var c := Census(s.rcu.free, m, []);
    assert c == (multiset(s.rcu.free) + multiset(m))[0 := 0];
    assert |multiset(Pool(cfg.regCount))| == cfg.regCount - 2;
    assert |multiset(s.rcu.free) + multiset(m)| == |s.rcu.free| + ISA_REGS;
    assert m == [0] + m[1..] && (multiset(s.rcu.free) + multiset(m))[0] >= 1;
    DropZero(multiset(s.rcu.free) + multiset(m));
  }

  lemma DropZero(m: multiset<nat>)
    ensures |m[0 := 0]| == |m| - m[0]
  {
  }
}
