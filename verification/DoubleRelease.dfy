// A run that reaches the one situation the single-release hypothesis excludes: a load older
// than an already rolled-back illegal instruction faults, the rollback starts again, and the
// illegal instruction's register is returned to the free list a second time.
module DoubleRelease {
  import opened DynInsn
  import opened LoopQueue
  import L = LsqSpec
  import R = RcuSpec
  import opened Backend

  const LOAD := Decoded(0, LDU, 2, false, 0, 0, 1, INT, NONE, INT, 0, None)
  const ILLEGAL := Decoded(4, ALU, 0, false, 0, 0, 2, INT, INT, INT, 0, Some(Fault(2, 0)))
  const ACCESS := Fault(5, 0)

  function Tiny(speculate: bool): (cfg: Config)
    ensures cfg.Valid()
  {
    Config(4, 2, 1, 1, speculate, (d, a, b) => 0, (d, a, b) => false, (d, a) => 0, (m, d, a) => 0, (m, d, a, v) => m,
      (d, a) => Some(ACCESS))
  }

  // After dispatching both instructions the illegal one is the rollback entry.
  lemma Dispatched(cfg: Config, mem: Mem) returns (s1: State, s2: State)
    requires cfg == Tiny(cfg.speculate)
    ensures var s0 := Init(cfg, mem);
      && CanDispatch(s0, LOAD) && s1 == Dispatch(cfg, s0, LOAD) && CanDispatch(s1, ILLEGAL) && s2 == Dispatch(cfg, s1, ILLEGAL)
    ensures s2.rcu.free == [] && s2.rcu.mode == R.Undo && s2.rcu.tag == 1 && s2.rcu.rob.head == 0 && s2.rcu.rob.size == 2
    ensures |s2.Rob()| == 2 && s2.Rob()[0].phyRd == 1 && s2.Rob()[0].d == LOAD && s2.Rob()[0].lsqTag == 0
    ensures s2.Rob()[0].id == 0 && s2.Rob()[1].phyRd == 2 && s2.Rob()[1].d == ILLEGAL && s2.Rob()[1].fault.Some?
      && s2.Rob()[1].valid
    ensures s2.Core().Valid() && !s2.g.released && |s2.rcu.regs| == 4 && s2.rcu.busy[0].done && s2.rcu.regs[0] == 0
    ensures 0 in s2.ops && s2.ops[0] == Op(LOAD, 0, 0, 0, 0, 1, None, None, Waiting)
    ensures s2.lsq == L.Lsq(Queue(1, 0, [L.LdqEntry(0, LOAD, L.LoadWaitSend, false, false, false, 0, false, 0)]), Queue(1, 0, []))
  {
    var s0 := Init(cfg, mem);
    assert s0.rcu.free == [1, 2];
    s1 := Dispatch(cfg, s0, LOAD);
    assert s1.rcu.free == [2];
    s2 := Dispatch(cfg, s1, ILLEGAL);
  }

  // The rollback reaches the illegal instruction, which is released but stays in its entry.
  lemma Released(cfg: Config, s2: State) returns (s3: State)
    requires cfg == Tiny(cfg.speculate) && s2.Core().Valid() && s2.rcu.mode == R.Undo && s2.rcu.tag == 1 && s2.rcu.rob.head == 0
    requires s2.rcu.rob.size == 2 && |s2.Rob()| == 2 && s2.rcu.free == [] && s2.Rob()[1].phyRd == 2 && s2.Rob()[1].d == ILLEGAL
    requires s2.Rob()[1].fault.Some? && s2.Rob()[1].valid && |s2.rcu.regs| == 4 && s2.rcu.busy[0].done && s2.rcu.regs[0] == 0
    ensures CanFinishUndo(s2) && s3 == FinishUndo(s2)
    ensures s3.rcu.free == [2] && s3.rcu.mode == R.WaitForResume && s3.rcu.tag == 1 && s3.rcu.rob == s2.rcu.rob
      && s3.Core().Valid()
    ensures s3.ops == s2.ops && s3.lsq == s2.lsq && s3.g.released && |s3.rcu.regs| == 4
    ensures s3.rcu.busy[0].done && s3.rcu.regs[0] == 0
  {
    s3 := FinishUndo(s2);
  }

  // The load reads its base register, x0.
  lemma BaseRead(cfg: Config, s3: State) returns (r3: State)
    requires s3.Core().Valid() && |s3.rcu.regs| == 4 && s3.rcu.busy[0].done && s3.rcu.regs[0] == 0
    requires 0 in s3.ops && s3.ops[0] == Op(LOAD, 0, 0, 0, 0, 1, None, None, Waiting)
    ensures CanRead(s3, 0, false) && r3 == ReadOperand(s3, 0, false)
    ensures 0 in r3.ops && r3.ops[0] == Op(LOAD, 0, 0, 0, 0, 1, Some(0), None, Waiting)
    ensures r3.rcu == s3.rcu && r3.lsq == s3.lsq && r3.g == s3.g
  {
    hide R.AllBelow, R.EntriesInRange, R.TagsInRange;
    r3 := ReadOperand(s3, 0, false);
  }

  // The load generates its address, is sent, faults in its response and is forwarded.
  lemma Faulted(cfg: Config, s3: State) returns (s4: State, s5: State, s6: State, s7: State)
    requires cfg == Tiny(cfg.speculate) && s3.Core().Valid() && s3.rcu.mode == R.WaitForResume && s3.rcu.tag == 1
      && s3.rcu.rob.head == 0
    requires s3.rcu.rob.size == 2 && |s3.Rob()| == 2 && s3.rcu.free == [2] && s3.Rob()[1].phyRd == 2 && s3.Rob()[1].d == ILLEGAL
    requires |s3.rcu.regs| == 4 && s3.g.released && s3.Rob()[1].valid
    requires 0 in s3.ops && s3.ops[0] == Op(LOAD, 0, 0, 0, 0, 1, Some(0), None, Waiting)
    requires s3.lsq == L.Lsq(Queue(1, 0, [L.LdqEntry(0, LOAD, L.LoadWaitSend, false, false, false, 0, false, 0)]),
      Queue(1, 0, []))
    ensures CanAgu(s3, 0) && s4 == Agu(cfg, s3, 0) && CanIssueLoad(s4) && s5 == IssueLoad(cfg, s4)
    ensures CanLoadResp(s5, 0) && s6 == LoadResp(s5, 0) && CanForward(s6, 0) && s7 == Forward(s6, 0, {})
    ensures 0 in s7.ops && s7.ops[0] == Op(LOAD, 0, 0, 0, 0, 1, Some(0), None, Forwarded(0, Some(ACCESS)))
    ensures s7.rcu.rob.head == 0 && s7.rcu.rob.size == 2 && |s7.Rob()| == 2 && s7.Rob()[1] == s3.Rob()[1]
      && s7.rcu.mode == R.WaitForResume
    ensures s7.rcu.tag == 1 && s7.rcu.free == [2] && s7.Core().Valid() && s7.g.released && |s7.rcu.regs| == 4
  {
    s4 := Agu(cfg, s3, 0);
    assert s4.lsq.ldq.elems == [L.LdqEntry(0, LOAD, L.LoadWaitSend, false, false, false, 0, true, 0)];
    s5 := IssueLoad(cfg, s4);
    assert s5.lsq.ldq.elems == [L.LdqEntry(0, LOAD, L.LoadInflight, false, false, false, 0, true, 0)];
    s6 := LoadResp(s5, 0);
    s7 := Forward(s6, 0, {});
  }

  // The write-back the hypothesis excludes, and the turn of the rollback that follows it.
  lemma ReleasedAgain(cfg: Config, s7: State)
    requires cfg == Tiny(cfg.speculate) && s7.Core().Valid() && s7.rcu.rob.head == 0 && s7.rcu.rob.size == 2 && |s7.Rob()| == 2
    requires s7.Rob()[1].phyRd == 2 && s7.Rob()[1].d == ILLEGAL && s7.Rob()[1].valid && s7.Rob()[1].fault.Some?
    requires s7.rcu.mode == R.WaitForResume && s7.rcu.tag == 1 && s7.rcu.free == [2] && s7.g.released && |s7.rcu.regs| == 4
    requires 0 in s7.ops && s7.ops[0] == Op(LOAD, 0, 0, 0, 0, 1, Some(0), None, Forwarded(0, Some(ACCESS)))
    ensures !SingleRelease(s7, OutcomeOf(cfg, s7.ops[0]))
    ensures var c := R.Core(R.WriteBack(s7.rcu, cfg.speculate, OutcomeOf(cfg, s7.ops[0])), s7.lsq);
      R.CanUndoOne(c) && R.UndoOne(c).rcu.free == [2, 2]
  {
    hide R.AllBelow;
    var o := OutcomeOf(cfg, s7.ops[0]);
    var r := R.WriteBack(s7.rcu, cfg.speculate, o);
    assert r.mode == R.Undo && r.tag == 0 && r.rob.elems[1] == s7.Rob()[1];
  }

  function Events(): seq<Event> {
    [EvDispatch(LOAD), EvDispatch(ILLEGAL), EvFinishUndo, EvRead(0, false), EvAgu(0), EvIssueLoad, EvLoadResp(0),
     EvForward(0, {})]
  }

  // All of it from reset: register 2 ends up in the free list twice.
  lemma FreeListDuplicates(speculate: bool, mem: Mem) returns (ss: seq<State>, es: seq<Event>)
    ensures var cfg := Tiny(speculate);
      && Reachable(cfg, mem, ss, es) && |ss| == 9
      && 0 in ss[8].ops && ss[8].ops[0].stage.Forwarded? && ss[8].rcu.Valid() && ss[8].lsq.Valid()
      && var o := OutcomeOf(cfg, ss[8].ops[0]);
      && o.robTag < ss[8].rcu.rob.size && o.phyRd < |ss[8].rcu.regs| && !SingleRelease(ss[8], o)
      && var c := R.Core(R.WriteBack(ss[8].rcu, speculate, o), ss[8].lsq);
      && R.CanUndoOne(c) && R.UndoOne(c).rcu.free == [2, 2]
  {
    hide Reachable, Events, CanRead, ReadOperand, CanAgu, CanIssueLoad, CanLoadResp, CanForward, CanDispatch,
      CanFinishUndo, Dispatch, Agu, IssueLoad, LoadResp, Forward, FinishUndo, Init, SingleRelease,
      R.WriteBack, R.UndoOne, R.CanUndoOne, R.AllBelow,
      R.EntriesInRange, R.TagsInRange, Decoded.WellDecoded, Queue.Valid;
    var cfg := Tiny(speculate);
    var s1, s2 := Dispatched(cfg, mem);
    var s3 := Released(cfg, s2);
    var r3 := BaseRead(cfg, s3);
    var s4, s5, s6, s7 := Faulted(cfg, r3);
    ReleasedAgain(cfg, s7);
    ss := [Init(cfg, mem), s1, s2, s3, r3, s4, s5, s6, s7];
    es := Events();
    Chain(cfg, mem, ss, es);
  }

  lemma Chain(cfg: Config, mem: Mem, ss: seq<State>, es: seq<Event>)
    requires cfg.Valid() && |ss| == 9
    requires ss[0] == Init(cfg, mem) && CanDispatch(ss[0], LOAD) && ss[1] == Dispatch(cfg, ss[0], LOAD)
    requires CanDispatch(ss[1], ILLEGAL) && ss[2] == Dispatch(cfg, ss[1], ILLEGAL)
    requires CanFinishUndo(ss[2]) && ss[3] == FinishUndo(ss[2])
    requires CanRead(ss[3], 0, false) && ss[4] == ReadOperand(ss[3], 0, false)
    requires CanAgu(ss[4], 0) && ss[5] == Agu(cfg, ss[4], 0) && CanIssueLoad(ss[5]) && ss[6] == IssueLoad(cfg, ss[5])
    requires CanLoadResp(ss[6], 0) && ss[7] == LoadResp(ss[6], 0) && CanForward(ss[7], 0) && ss[8] == Forward(ss[7], 0, {})
    requires es == Events()
    ensures Reachable(cfg, mem, ss, es)
  {
    hide CanDispatch, Dispatch, CanFinishUndo, FinishUndo, CanAgu, Agu, CanIssueLoad, IssueLoad, CanLoadResp,
      LoadResp, CanForward, Forward, CanRead, ReadOperand, CanExecute, Execute, CanWriteBack, WriteBack, CanIssueStore,
      IssueStore, CanStoreResp, StoreResp, CanSendCommit, SendCommit, CanCommitOne, CommitOne, CanUndoOne, UndoOne,
      CanLeaveFlush, LeaveFlush, CanPopStore, PopStore, CanPopLoad, PopLoad, Init, SingleRelease, R.WriteBack,
      R.UndoOne, R.CanUndoOne, R.AllBelow, R.EntriesInRange, R.TagsInRange, Decoded.WellDecoded, Queue.Valid;
  }
}
