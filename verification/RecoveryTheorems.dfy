// Recovery, precise traps, rollback, memory order and freedom from failed assertions.
module RecoveryTheorems {
  import opened DynInsn
  import opened LoopQueue
  import L = LsqSpec
  import R = RcuSpec
  import opened Backend
  import opened BackendInv
  import opened Registers
  import opened ProofCommit
  import opened ProofUndo
  import opened ProofExec
  import opened ProofWriteBack
  import opened BackendTheorems

  // ---- precise traps ----------------------------------------------------------------------------

  // Retiring a package entry traps exactly when that entry faulted. Then every older instruction
  // has committed, unless it was squashed before, and every younger one has been squashed; the
  // trap registers report the entry's own pc and fault, and the backend empties.
  lemma TrapsArePrecise(cfg: Config, mem0: Mem, ss: seq<State>, es: seq<Event>, i: nat)
    requires Reachable(cfg, mem0, ss, es) && i < |ss| && CanCommitOne(ss[i])
    ensures var s := ss[i];
      var e := s.Rob()[0];
      var t := R.TrapAtCommit(s.Core());
      && (t.Some? <==> e.fault.Some?)
      && (t.Some? ==>
            && |s.Rob()| == 1 && e.fault == Some(t.value.fault) && t.value.epc == e.d.pc
            && (forall id: nat :: id < e.id ==> id in s.g.commitIds || id in s.g.dead)
            && (forall id: nat :: e.id < id < s.nextId ==> id in s.g.dead && id !in s.g.commitIds)
            && CommitOne(s).Rob() == [] && CommitOne(s).ops == map[] && CommitOne(s).g.committed == s.g.committed
            && CommitOne(s).traps == s.traps + [t.value])
      && (t.None? ==> CommitOne(s).g.committed == s.g.committed + [e.d] && CommitOne(s).traps == s.traps)
  {
    hide R.TrapAtCommit, CommitOne, Reachable, R.CommitOne;
    TrapIsTheHeader(cfg, mem0, ss, es, i);
    NothingVanishes(cfg, mem0, ss, es, i);
    RunOrder(cfg, mem0, ss, es, i);
    if R.TrapAtCommit(ss[i].Core()).Some? {
      OnlyTheHeader(ss[i]);
    }
  }

  lemma OnlyTheHeader(s: State)
    requires Accounted(s) && InvOrder(s) && |s.Rob()| == 1
    ensures forall id: nat :: id < s.Rob()[0].id ==> id in s.g.commitIds || id in s.g.dead
    ensures forall id: nat :: s.Rob()[0].id < id < s.nextId ==> id in s.g.dead && id !in s.g.commitIds
  {
    hide LdqSorted, StqSorted, TagsMatch, IdsBelow, NotDead;
    forall id: nat | id < s.nextId && id != s.Rob()[0].id ensures id in s.g.commitIds || id in s.g.dead {
      assert !exists k :: LiveAt(s, id, k);
    }
  }

  lemma TrapIsTheHeader(cfg: Config, mem0: Mem, ss: seq<State>, es: seq<Event>, i: nat)
    requires Reachable(cfg, mem0, ss, es) && i < |ss| && CanCommitOne(ss[i])
    ensures var s := ss[i];
      var e := s.Rob()[0];
      var t := R.TrapAtCommit(s.Core());
      && (t.Some? <==> e.fault.Some?)
      && (t.Some? ==> |s.Rob()| == 1 && e.fault == Some(t.value.fault) && t.value.epc == e.d.pc
                      && CommitOne(s).Rob() == [] && CommitOne(s).ops == map[] && CommitOne(s).g.committed == s.g.committed
                      && CommitOne(s).traps == s.traps + [t.value])
      && (t.None? ==> CommitOne(s).g.committed == s.g.committed + [e.d] && CommitOne(s).traps == s.traps)
  {
    hide R.AllBelow, R.EntriesInRange, R.TagsInRange, MapsOk, ArchsOk, AllValid, InvOrder, MapsChain, ArchChain,
      Conserved, TagOk, FaultsBehind, EntriesOk, ReleasedOk, ReleasedSafe, PkgOk, InvOps, InvRegs, InvVals, InvLdq,
      InvStq, InvMem;
    RunInv(cfg, mem0, ss, es, i);
    var s := ss[i];
    HeaderKinds(s.rcu.rob, s.rcu.mode, s.rcu.tag, s.pkg, s.g.released);
    HeadValid(s.Rob());
  }

  lemma HeadValid(rob: seq<R.RobEntry>)
    requires AllValid(rob) && rob != []
    ensures rob[0].valid
  {
  }

  // While the machine recovers, every known fault or misprediction is at or behind the
  // rollback entry, which is live; once dispatch may resume it is also the youngest.
  lemma RecoveryState(cfg: Config, mem0: Mem, ss: seq<State>, es: seq<Event>, i: nat)
    requires Reachable(cfg, mem0, ss, es) && i < |ss|
    ensures var s := ss[i];
      && s.rcu.rob.Valid() && (Recovering(s.rcu.mode) ==> s.rcu.rob.Live(s.rcu.tag))
      && (s.rcu.mode == R.WaitForResume ==> s.rcu.rob.Latest() == s.rcu.tag)
      && (s.rcu.mode == R.FlushBackend ==> s.Rob() == [])
      && forall k :: 0 <= k < |s.Rob()| && (s.Rob()[k].fault.Some? || s.Rob()[k].isMisPred) ==>
           Recovering(s.rcu.mode) && s.rcu.rob.Dist(s.rcu.tag) <= k
  {
    hide R.AllBelow, R.EntriesInRange, R.TagsInRange, MapsOk, ArchsOk, AllValid, InvOrder, MapsChain, ArchChain,
      Conserved, EntriesOk, CauseOk, ReleasedOk, ReleasedSafe, PkgOk, InvOps, InvRegs, InvVals, InvLdq, InvStq, InvMem;
    RunInv(cfg, mem0, ss, es, i);
    SlotPos(ss[i].rcu.rob, 0);
  }

  // ---- the rollback entry only moves to older instructions --------------------------------------

  function TagId(s: State): int {
    if 0 <= s.rcu.rob.Dist(s.rcu.tag) < |s.Rob()| then s.Rob()[s.rcu.rob.Dist(s.rcu.tag)].id else -1
  }

  lemma WrittenTag(r: R.Rcu, spec: bool, o: R.Outcome)
    requires r.Valid() && o.robTag < r.rob.size && o.phyRd < |r.regs| && Recovering(r.mode)
    ensures var r' := R.WriteBack(r, spec, o);
      r'.tag == r.tag || (r'.tag == o.robTag && r.rob.Live(o.robTag) && r.rob.Dist(o.robTag) <= r.rob.Dist(r.tag))
  {
  }

  lemma WriteBackTag(cfg: Config, mem0: Mem, s: State, id: nat)
    requires Inv(cfg, mem0, s) && CanWriteBack(cfg, s, id) && Recovering(s.rcu.mode)
    ensures var s' := WriteBack(cfg, s, id); Recovering(s'.rcu.mode) ==> TagId(s') <= TagId(s)
  {
    hide R.AllBelow, R.EntriesInRange, R.TagsInRange, MapsOk, ArchsOk, AllValid, RobSorted, LdqSorted, StqSorted,
      TagsMatch, IdsBelow, NotDead, CommitsOk, MapsChain, ArchChain, Conserved, FaultsBehind, EntriesOk, CauseOk,
      ReleasedOk, ReleasedSafe, PkgOk, InvOps, InvRegs, InvVals, InvLdq, InvStq, InvMem, R.WriteBack, R.Raises;
    WrittenTag(s.rcu, cfg.speculate, OutcomeOf(cfg, s.ops[id]));
    WriteBackHistory(cfg, s, id);
    SortedIds(s.Rob(), s.nextId);
  }

  lemma SortedIds(rob: seq<R.RobEntry>, bound: nat)
    requires RobSorted(rob, bound)
    ensures forall i, j :: 0 <= i <= j < |rob| ==> rob[i].id <= rob[j].id
  {
  }

  lemma CommitEffect(c: R.Core)
    requires R.CanCommit(c)
    ensures var r' := R.CommitOne(c).rcu;
      r'.rob == c.rcu.rob.Pop() && r'.tag == c.rcu.tag && r'.mode == if R.ResumesAtCommit(c) then R.FlushBackend else c.rcu.mode
  {
  }

  lemma CommitTag(cfg: Config, s: State)
    requires InvShape(cfg, s) && InvMode(s) && InvPkg(s) && CanCommitOne(s) && Recovering(s.rcu.mode)
    ensures var s' := CommitOne(s); Recovering(s'.rcu.mode) ==> TagId(s') == TagId(s)
  {
    hide R.AllBelow, R.EntriesInRange, R.TagsInRange, MapsOk, ArchsOk, AllValid, TagOk, FaultsBehind, EntriesOk,
      CauseOk, ReleasedOk, ReleasedSafe, PkgOk, R.CommitOne;
    CommitEffect(s.Core());
    HeaderKinds(s.rcu.rob, s.rcu.mode, s.rcu.tag, s.pkg, s.g.released);
    HeadValid(s.Rob());
    PopShifts(s.rcu.rob, s.rcu.tag);
  }

  lemma UndoTag(s: State)
    requires CanUndoOne(s) && s.rcu.tag < s.rcu.rob.size
    ensures TagId(UndoOne(s)) == TagId(s) && UndoOne(s).rcu.mode == R.Undo
  {
    hide R.AllBelow, R.EntriesInRange, R.TagsInRange;
    SlotPos(s.rcu.rob, 0);
    OlderIsDistance(s.rcu.rob.size, s.rcu.rob.head, s.rcu.tag, s.rcu.rob.Latest());
  }

  lemma AguTag(cfg: Config, s: State, id: nat)
    requires CanAgu(s, id)
    ensures TagId(Agu(cfg, s, id)) == TagId(s) && Agu(cfg, s, id).rcu.mode == s.rcu.mode
  {
  }

  // Within one recovery episode no transition moves the rollback entry to a younger instruction.
  lemma RollbackEntryGetsOlder(cfg: Config, mem0: Mem, s: State, e: Event)
    requires Inv(cfg, mem0, s) && Enabled(cfg, s, e) && Recovering(s.rcu.mode) && Recovering(Step(cfg, s, e).rcu.mode)
    ensures TagId(Step(cfg, s, e)) <= TagId(s)
  {
    hide R.AllBelow, R.EntriesInRange, R.TagsInRange, MapsOk, ArchsOk, AllValid, InvMode, PkgOk, InvOrder, InvMaps,
      InvArch, InvCons, InvOps, InvRegs, InvVals, InvLdq, InvStq, InvMem, CanAgu, CanWriteBack, CanCommitOne, Agu,
      WriteBack, CommitOne, UndoOne;
    match e
    case EvAgu(id) => AguTag(cfg, s, id);
    case EvWriteBack(id) => WriteBackTag(cfg, mem0, s, id);
    case EvCommitOne => CommitTag(cfg, s);
    case EvUndoOne => UndoTag(s);
    case _ =>
  }

  // ---- rollback inverts allocation --------------------------------------------------------------

  predicate LiveAt(s: State, id: nat, k: nat) { k < |s.Rob()| && s.Rob()[k].id == id }

  // What allocation recorded for an instruction: the tables and the sequential states around
  // it, and its registers.
  predicate SameHistory(s: State, k: nat, s': State, k': nat) {
    && k < |s.Rob()| && k' < |s'.Rob()| && k + 1 < |s.g.maps| && k' + 1 < |s'.g.maps|
    && k + 1 < |s.g.archs| && k' + 1 < |s'.g.archs|
    && s'.g.archs[k'] == s.g.archs[k] && s'.g.archs[k' + 1] == s.g.archs[k + 1]
    && s'.g.maps[k'] == s.g.maps[k] && s'.g.maps[k' + 1] == s.g.maps[k + 1]
    && s'.Rob()[k'].phyRd == s.Rob()[k].phyRd && s'.Rob()[k'].lphyRd == s.Rob()[k].lphyRd
  }

  lemma WriteBackHistory(cfg: Config, s: State, id: nat)
    requires s.rcu.rob.Valid() && CanWriteBack(cfg, s, id)
    ensures var s' := WriteBack(cfg, s, id);
      && |s'.Rob()| == |s.Rob()| && s'.g == s.g && s'.nextId == s.nextId
      && s'.rcu.rob.head == s.rcu.rob.head && s'.rcu.rob.size == s.rcu.rob.size
      && forall k :: 0 <= k < |s.Rob()| ==> SameEntry(s.Rob()[k], s'.Rob()[k])
  {
    hide R.AllBelow, R.EntriesInRange, R.MarkWritten, R.Raises;
    GuardIsLiveness(s.rcu.rob, s.ops[id].robTag);
    if s.rcu.rob.Live(s.ops[id].robTag) {
      hide R.WriteBack;
      WrittenEffect(s.rcu, cfg.speculate, OutcomeOf(cfg, s.ops[id]));
    }
  }

  lemma AguHistory(cfg: Config, s: State, id: nat)
    requires CanAgu(s, id)
    ensures var s' := Agu(cfg, s, id);
      && |s'.Rob()| == |s.Rob()| && s'.g == s.g && s'.nextId == s.nextId
      && forall k :: 0 <= k < |s.Rob()| ==> SameEntry(s.Rob()[k], s'.Rob()[k])
  {
  }

  lemma DispatchHistory(cfg: Config, s: State, d: Decoded)
    requires CanDispatch(s, d)
    ensures var s' := Dispatch(cfg, s, d);
      && |s'.Rob()| == |s.Rob()| + 1 && s'.Rob()[..|s.Rob()|] == s.Rob() && s'.Rob()[|s.Rob()|].id == s.nextId
      && s.g.maps <= s'.g.maps && s.g.archs <= s'.g.archs && s'.nextId == s.nextId + 1
  {
    hide R.AllBelow, R.EntriesInRange, R.TagsInRange, SeqStep, L.Allocate;
  }

  lemma UndoHistory(s: State)
    requires CanUndoOne(s)
    ensures var s' := UndoOne(s);
      && s'.Rob() <= s.Rob() && s'.g.maps <= s.g.maps && s'.g.archs <= s.g.archs && s'.nextId == s.nextId
  {
    hide R.AllBelow, R.EntriesInRange, R.TagsInRange;
  }

  // An instruction live after a transition was live before it, unless it was just
  // dispatched, and keeps its history.
  lemma StepHistory(cfg: Config, mem0: Mem, s: State, e: Event, k': nat)
    requires Inv(cfg, mem0, s) && Enabled(cfg, s, e) && Inv(cfg, mem0, Step(cfg, s, e))
    requires k' < |Step(cfg, s, e).Rob()| && Step(cfg, s, e).Rob()[k'].id < s.nextId
    ensures var s' := Step(cfg, s, e);
      && s.nextId <= s'.nextId
      && exists k :: LiveAt(s, s'.Rob()[k'].id, k) && SameHistory(s, k, s', k')
  {
    hide R.AllBelow, R.EntriesInRange, R.TagsInRange, MapsOk, ArchsOk, AllValid, InvOrder, InvMaps, InvArch,
      InvCons, InvMode, InvPkg, InvOps, InvRegs, InvVals, InvLdq, InvStq, InvMem, CanWriteBack, CanAgu, WriteBack,
      Agu, CommitOne, CanUndoOne, UndoOne, CanDispatch, Dispatch, SeqStep;
    var s' := Step(cfg, s, e);
    match e
    case EvDispatch(d) =>
      DispatchHistory(cfg, s, d);
      assert LiveAt(s, s'.Rob()[k'].id, k') && SameHistory(s, k', s', k');
    case EvUndoOne =>
      UndoHistory(s);
      assert LiveAt(s, s'.Rob()[k'].id, k') && SameHistory(s, k', s', k');
    case EvAgu(id) =>
      AguHistory(cfg, s, id);
      assert SameEntry(s.Rob()[k'], s'.Rob()[k']);
      assert LiveAt(s, s'.Rob()[k'].id, k') && SameHistory(s, k', s', k');
    case EvWriteBack(id) =>
      WriteBackHistory(cfg, s, id);
      assert SameEntry(s.Rob()[k'], s'.Rob()[k']);
      assert LiveAt(s, s'.Rob()[k'].id, k') && SameHistory(s, k', s', k');
    case EvCommitOne =>
      CommitHistory(cfg, s, k');
    case _ =>
      assert LiveAt(s, s'.Rob()[k'].id, k') && SameHistory(s, k', s', k');
  }

  lemma CommitHistory(cfg: Config, s: State, k': nat)
    requires InvShape(cfg, s) && InvMode(s) && InvPkg(s) && CanCommitOne(s) && k' < |CommitOne(s).Rob()|
      && InvShape(cfg, CommitOne(s))
    ensures LiveAt(s, CommitOne(s).Rob()[k'].id, k' + 1) && SameHistory(s, k' + 1, CommitOne(s), k')
      && CommitOne(s).nextId == s.nextId
  {
    hide R.AllBelow, R.EntriesInRange, R.TagsInRange, MapsOk, ArchsOk, AllValid, TagOk, FaultsBehind, EntriesOk,
      CauseOk, ReleasedOk, ReleasedSafe, PkgOk;
    HeaderKinds(s.rcu.rob, s.rcu.mode, s.rcu.tag, s.pkg, s.g.released);
    HeadValid(s.Rob());
  }

  // ---- nothing vanishes -------------------------------------------------------------------------

  // Every instruction ever dispatched has committed, has been squashed, or is live.
  ghost predicate Accounted(s: State) {
    forall id: nat :: id < s.nextId ==> id in s.g.commitIds || id in s.g.dead || exists k :: LiveAt(s, id, k)
  }

  // A transition that leaves the numbers in the buffer alone.
  lemma SameLive(s: State, s': State)
    requires Accounted(s) && s'.nextId == s.nextId && s'.g.commitIds == s.g.commitIds && s.g.dead <= s'.g.dead
    requires |s'.Rob()| == |s.Rob()| && forall k :: 0 <= k < |s.Rob()| ==> s'.Rob()[k].id == s.Rob()[k].id
    ensures Accounted(s')
  {
    forall id: nat | id < s.nextId && id !in s.g.commitIds && id !in s'.g.dead ensures exists k :: LiveAt(s', id, k) {
      var k :| LiveAt(s, id, k);
      assert LiveAt(s', id, k);
    }
  }

  lemma DispatchAccounts(cfg: Config, s: State, d: Decoded)
    requires CanDispatch(s, d) && Accounted(s)
    ensures Accounted(Dispatch(cfg, s, d))
  {
    hide R.AllBelow, R.EntriesInRange, R.TagsInRange, SeqStep, L.Allocate;
    var s' := Dispatch(cfg, s, d);
    forall id: nat | id < s'.nextId && id !in s.g.commitIds && id !in s.g.dead ensures exists k :: LiveAt(s', id, k) {
      if id == s.nextId {
        assert LiveAt(s', id, |s.Rob()|);
      } else {
        var k :| LiveAt(s, id, k);
        assert LiveAt(s', id, k);
      }
    }
  }

  lemma CommitAccounts(cfg: Config, s: State)
    requires InvShape(cfg, s) && CanCommitOne(s) && Accounted(s)
    ensures Accounted(CommitOne(s))
  {
    hide R.AllBelow, R.EntriesInRange, R.TagsInRange, MapsOk, ArchsOk, R.RetireRegs, R.RetireLsq, R.TrapAtCommit;
    var s' := CommitOne(s);
    var e := s.Rob()[0];
    CommitEffect(s.Core());
    assert s'.Rob() == s.Rob()[1..];
    forall id: nat | id < s'.nextId && id !in s'.g.commitIds && id !in s'.g.dead ensures exists k :: LiveAt(s', id, k) {
      if R.CommitsNormally(s.Core()) {
        assert s'.g.commitIds[|s.g.commitIds|] == e.id;
        assert forall x :: x in s.g.commitIds ==> x in s'.g.commitIds;
      }
      assert id != e.id;
      var k: nat :| LiveAt(s, id, k);
      assert k > 0;
      assert LiveAt(s', id, k - 1);
    }
  }

  lemma UndoAccounts(s: State)
    requires CanUndoOne(s) && Accounted(s)
    ensures Accounted(UndoOne(s))
  {
    hide R.AllBelow, R.EntriesInRange, R.TagsInRange;
    var s' := UndoOne(s);
    forall id: nat | id < s.nextId && id !in s.g.commitIds && id !in s'.g.dead ensures exists k :: LiveAt(s', id, k) {
      var k :| LiveAt(s, id, k);
      assert LiveAt(s', id, k);
    }
  }

  lemma StepAccounts(cfg: Config, s: State, e: Event)
    requires InvShape(cfg, s) && Enabled(cfg, s, e) && Accounted(s)
    ensures Accounted(Step(cfg, s, e))
  {
    hide Accounted, R.AllBelow, R.EntriesInRange, R.TagsInRange, MapsOk, ArchsOk, AllValid, CanWriteBack, CanAgu,
      WriteBack, Agu, CanDispatch, Dispatch, CanCommitOne, CommitOne, CanUndoOne, UndoOne, SeqStep;
    match e
    case EvDispatch(d) => DispatchAccounts(cfg, s, d);
    case EvAgu(id) =>
      AguHistory(cfg, s, id);
      SameLive(s, Step(cfg, s, e));
    case EvWriteBack(id) =>
      WriteBackHistory(cfg, s, id);
      SameLive(s, Step(cfg, s, e));
    case EvCommitOne => CommitAccounts(cfg, s);
    case EvUndoOne => UndoAccounts(s);
    case _ => SameLive(s, Step(cfg, s, e));
  }

  // No instruction is ever lost.
  lemma {:induction false} NothingVanishes(cfg: Config, mem0: Mem, ss: seq<State>, es: seq<Event>, i: nat)
    requires Reachable(cfg, mem0, ss, es) && i < |ss|
    ensures Accounted(ss[i])
    decreases i
  {
    hide InvOrder, InvMaps, InvArch, InvCons, InvMode, InvPkg, InvOps, InvRegs, InvVals, InvLdq, InvStq, InvMem,
      InvShape, Step, Enabled, Accounted;
    if i == 0 {
      NoneYet(cfg, mem0);
    } else {
      RunInv(cfg, mem0, ss, es, i - 1);
      NothingVanishes(cfg, mem0, ss, es, i - 1);
      StepAccounts(cfg, ss[i - 1], es[i - 1]);
    }
  }

  lemma NoneYet(cfg: Config, mem0: Mem)
    requires cfg.Valid()
    ensures Accounted(Init(cfg, mem0))
  {
  }

  lemma RunOrder(cfg: Config, mem0: Mem, ss: seq<State>, es: seq<Event>, i: nat)
    requires Reachable(cfg, mem0, ss, es) && i < |ss|
    ensures InvOrder(ss[i])
  {
    hide InvOrder, InvMaps, InvArch, InvCons, InvMode, InvPkg, InvOps, InvRegs, InvVals, InvLdq, InvStq, InvMem, InvShape;
    RunInv(cfg, mem0, ss, es, i);
  }

  lemma NextIdStep(cfg: Config, s: State, e: Event)
    requires Enabled(cfg, s, e)
    ensures s.nextId <= Step(cfg, s, e).nextId
  {
    hide R.AllBelow, R.EntriesInRange, R.TagsInRange, R.WriteBack, L.WriteBack, R.CommitOne, R.UndoOne, R.FinishUndo,
      SeqStep;
  }

  lemma {:induction false} NextIdGrows(cfg: Config, mem0: Mem, ss: seq<State>, es: seq<Event>, i: nat, j: nat)
    requires Reachable(cfg, mem0, ss, es) && i <= j < |ss|
    ensures ss[i].nextId <= ss[j].nextId
    decreases j
  {
    hide Step, Enabled, Init;
    if i < j {
      NextIdGrows(cfg, mem0, ss, es, i, j - 1);
      NextIdStep(cfg, ss[j - 1], es[j - 1]);
    }
  }

  // An instruction live at two points of a run has the same history at both: instruction
  // numbers are never reused and nothing brings a squashed instruction back.
  lemma {:induction false} RunHistory(cfg: Config, mem0: Mem, ss: seq<State>, es: seq<Event>, i: nat, j: nat, k': nat)
      returns (k: nat)
    requires Reachable(cfg, mem0, ss, es) && i <= j < |ss|
    requires k' < |ss[j].Rob()| && ss[j].Rob()[k'].id < ss[i].nextId
    ensures LiveAt(ss[i], ss[j].Rob()[k'].id, k) && SameHistory(ss[i], k, ss[j], k')
    decreases j
  {
    hide InvOrder, InvMaps, InvArch, InvCons, InvMode, InvPkg, InvOps, InvRegs, InvVals, InvLdq, InvStq, InvMem,
      Step, Enabled, R.AllBelow, R.EntriesInRange, R.TagsInRange, MapsOk, ArchsOk, AllValid;
    RunInv(cfg, mem0, ss, es, j);
    if i == j {
      k := k';
    } else {
      RunInv(cfg, mem0, ss, es, j - 1);
      NextIdGrows(cfg, mem0, ss, es, i, j - 1);
      StepHistory(cfg, mem0, ss[j - 1], es[j - 1], k');
      var m :| LiveAt(ss[j - 1], ss[j].Rob()[k'].id, m) && SameHistory(ss[j - 1], m, ss[j], k');
      k := RunHistory(cfg, mem0, ss, es, i, j - 1, m);
    }
  }

  // Allocate anything beyond instruction T, let older instructions commit, and roll back to
  // T: the rename table is again exactly the one T left behind, or, if T itself faulted and
  // was released, the one T found.
  lemma RollbackInvertsAllocation(cfg: Config, mem0: Mem, ss: seq<State>, es: seq<Event>, i: nat, j: nat, k: nat)
    requires Reachable(cfg, mem0, ss, es) && i <= j < |ss|
    requires k < |ss[i].Rob()| && ss[j].rcu.mode == R.WaitForResume && TagId(ss[j]) == ss[i].Rob()[k].id
    ensures var s := ss[i];
      var e := R.Youngest(ss[j].rcu);
      && |s.g.maps| == |s.Rob()| + 1 && ss[j].Rob() != [] && e.id == s.Rob()[k].id
      && ss[j].rcu.table == (if e.fault.Some? then s.g.maps[k] else s.g.maps[k + 1])
      && (k == |s.Rob()| - 1 && !s.g.released && e.fault.None? ==> ss[j].rcu.table == s.rcu.table)
  {
    hide R.AllBelow, R.EntriesInRange, R.TagsInRange, MapsOk, ArchsOk, AllValid, LdqSorted, StqSorted, TagsMatch,
      IdsBelow, NotDead, CommitsOk, MapsChain, InvArch, InvCons, FaultsBehind, EntriesOk, CauseOk, ReleasedSafe,
      InvPkg, InvOps, InvRegs, InvVals, InvLdq, InvStq, InvMem, Step, Enabled;
    RunInv(cfg, mem0, ss, es, i);
    RunInv(cfg, mem0, ss, es, j);
    var n := |ss[j].Rob()|;
    var m := RunHistory(cfg, mem0, ss, es, i, j, n - 1);
    assert m == k;
  }

  // ---- identity of tags and slots ---------------------------------------------------------------

  // A write-back that passes the liveness guard updates the entry its own instruction
  // allocated; any other write-back changes nothing in the reorder unit.
  lemma NoTagConfusion(cfg: Config, mem0: Mem, ss: seq<State>, es: seq<Event>, i: nat, id: nat)
    requires Reachable(cfg, mem0, ss, es) && i < |ss| && CanWriteBack(cfg, ss[i], id)
    ensures var s := ss[i];
      var op := s.ops[id];
      var guard := s.Rob() != [] && (s.rcu.rob.IsOlder(op.robTag, s.rcu.rob.Latest()) || op.robTag == s.rcu.rob.Latest());
      && (guard ==> s.rcu.rob.Live(op.robTag) && s.rcu.rob.At(op.robTag).id == id && s.rcu.rob.At(op.robTag).phyRd == op.phyRd
                    && !s.rcu.rob.At(op.robTag).done && id !in s.g.dead)
      && (!guard ==> WriteBack(cfg, s, id).rcu == s.rcu && id in s.g.dead && Recovering(s.rcu.mode)
                     && (op.d.Writes() ==> op.phyRd in s.rcu.free))
  {
    hide R.AllBelow, R.EntriesInRange, R.TagsInRange, MapsOk, ArchsOk, AllValid, RobSorted, LdqSorted, StqSorted,
      TagsMatch, IdsBelow, CommitsOk, MapsChain, ArchChain, Conserved, InvMode, PkgOk, OpsShape, OpsTied, BranchOk,
      InvRegs, InvVals, InvLdq, InvStq, InvMem;
    RunInv(cfg, mem0, ss, es, i);
    var s := ss[i];
    GuardIsLiveness(s.rcu.rob, s.ops[id].robTag);
    if LiveOp(s.rcu.rob, s.ops[id]) {
      LiveFacts(cfg, mem0, s, id);
      HeldNotDead(s.Rob(), s.Held(), s.g.dead, s.rcu.rob.Dist(s.ops[id].robTag));
    }
  }

  lemma HeldNotDead(rob: seq<R.RobEntry>, held: nat, dead: set<nat>, k: nat)
    requires k < held <= |rob| && NotDead(rob[..held], dead)
    ensures rob[k].id !in dead
  {
  }

  // A load response always finds the entry that issued it, even when that load was killed.
  lemma ResponseFindsItsLoad(cfg: Config, mem0: Mem, ss: seq<State>, es: seq<Event>, i: nat, slot: nat)
    requires Reachable(cfg, mem0, ss, es) && i < |ss| && slot in ss[i].lresp
    ensures var s := ss[i];
      && s.lsq.ldq.Valid() && s.lsq.ldq.Live(slot) && s.lsq.ldq.At(slot).id == s.lresp[slot].id
      && s.lsq.ldq.At(slot).state == L.LoadInflight && !s.lsq.ldq.At(slot).commited
      && (!s.lsq.ldq.At(slot).killed ==> s.lresp[slot].id in s.ops && s.ops[s.lresp[slot].id].stage == InLsq)
  {
    hide R.AllBelow, R.EntriesInRange, R.TagsInRange, MapsOk, ArchsOk, AllValid, InvOrder, MapsChain, ArchChain,
      Conserved, InvMode, PkgOk, InvOps, InvRegs, InvVals, RobLoads, LoadsTied, LoadsDone, LoadOps, RespsOk, InvStq,
      InvMem, Address, IdPos;
    RunInv(cfg, mem0, ss, es, i);
  }

  // What an unkilled load was answered is what the sequential machine's memory holds at its
  // point of the program: memory after exactly the older instructions, at its sequential address.
  lemma LoadsReadSequentialMemory(cfg: Config, mem0: Mem, ss: seq<State>, es: seq<Event>, i: nat, slot: nat)
    requires Reachable(cfg, mem0, ss, es) && i < |ss| && slot in ss[i].lresp
    requires ss[i].lsq.ldq.Valid() && ss[i].lsq.ldq.Live(slot) && !ss[i].lsq.ldq.At(slot).killed
    ensures var s := ss[i];
      var e := s.lsq.ldq.At(slot);
      var k := IdPos(s.rcu.rob, s.g.robTag, e.id);
      && 0 <= k < |s.Rob()| && s.Rob()[k].id == e.id
      && var a := SeqRun(cfg, mem0, ProgramBefore(s, k));
         && e.address == Address(cfg, a, e.d)
         && s.lresp[slot].value == LoadResult(cfg, a.mem, e.d, e.address)
         && s.lresp[slot].fault == cfg.loadFault(e.d, e.address)
  {
    RunInv(cfg, mem0, ss, es, i);
    LoadIsSequential(cfg, mem0, ss, es, i, slot);
    LiveStateIsSequential(cfg, mem0, ss[i], IdPos(ss[i].rcu.rob, ss[i].g.robTag, ss[i].lsq.ldq.At(slot).id));
  }

  lemma LoadIsSequential(cfg: Config, mem0: Mem, ss: seq<State>, es: seq<Event>, i: nat, slot: nat)
    requires Reachable(cfg, mem0, ss, es) && i < |ss| && slot in ss[i].lresp
    requires ss[i].lsq.ldq.Valid() && ss[i].lsq.ldq.Live(slot) && !ss[i].lsq.ldq.At(slot).killed
    ensures var s := ss[i];
      var e := s.lsq.ldq.At(slot);
      var k := IdPos(s.rcu.rob, s.g.robTag, e.id);
      && 0 <= k < |s.Rob()| < |s.g.archs| && s.Rob()[k].id == e.id && e.address == Address(cfg, s.g.archs[k], e.d)
      && s.lresp[slot].value == LoadResult(cfg, s.g.archs[k].mem, e.d, e.address)
      && s.lresp[slot].fault == cfg.loadFault(e.d, e.address)
  {
    RunInv(cfg, mem0, ss, es, i);
    ResponseFindsItsLoad(cfg, mem0, ss, es, i, slot);
    hide R.AllBelow, R.EntriesInRange, R.TagsInRange, MapsOk, ArchsOk, AllValid, InvOrder, MapsChain, ArchChain,
      Conserved, InvMode, PkgOk, InvOps, InvRegs, InvVals, RobLoads, LoadStages, LoadsDone, LoadsRetired, LoadOps,
      RespsTied, InvStq, InvMem, Address, IdPos, LoadResult;
  }

  // An unkilled load's dependence flag is up exactly while an older store is queued, and then
  // the recorded slot holds the youngest such store.
  lemma DependenceIsExact(cfg: Config, mem0: Mem, ss: seq<State>, es: seq<Event>, i: nat, j: nat)
    requires Reachable(cfg, mem0, ss, es) && i < |ss| && j < |ss[i].lsq.ldq.elems| && !ss[i].lsq.ldq.elems[j].killed
    ensures var e := ss[i].lsq.ldq.elems[j];
      var q := ss[i].lsq.stq;
      && (e.hasDependancy <==> exists n :: 0 <= n < |q.elems| && q.elems[n].id < e.id)
      && (e.hasDependancy ==> YoungestOlder(q, e.oldestStqTag, e.id))
  {
    hide R.AllBelow, R.EntriesInRange, R.TagsInRange, MapsOk, ArchsOk, AllValid, RobSorted, LdqSorted, StqSorted,
      TagsMatch, IdsBelow, NotDead, CommitsOk, MapsChain, ArchChain, Conserved, InvMode, PkgOk, InvOps, InvRegs,
      InvVals, InvLdq, InvStq, Drain, TraceSorted, TraceBeforeStores, TraceBeforeLoads, DepOk, YoungestOlder;
    RunInv(cfg, mem0, ss, es, i);
    DependenceMeaning(ss[i].lsq.ldq.elems[j], ss[i].lsq.stq, ss[i].nextId);
  }

  // The slot holds the youngest queued store older than instruction `id`.
  predicate YoungestOlder(q: Queue<L.StqEntry>, slot: nat, id: nat) {
    && q.Valid() && q.Live(slot) && q.At(slot).id < id
    && forall n :: 0 <= n < |q.elems| && q.elems[n].id < id ==> q.elems[n].id <= q.At(slot).id
  }

  lemma DependenceMeaning(e: L.LdqEntry, q: Queue<L.StqEntry>, bound: nat)
    requires q.Valid() && DepOk(e, q) && StqSorted(q.elems, bound)
    ensures e.hasDependancy <==> exists n :: 0 <= n < |q.elems| && q.elems[n].id < e.id
    ensures e.hasDependancy ==> YoungestOlder(q, e.oldestStqTag, e.id)
  {
    if e.hasDependancy {
      assert q.elems[q.Dist(e.oldestStqTag)].id < e.id;
    }
  }

  // ---- order of committed memory accesses -------------------------------------------------------

  // Any two accesses by committed instructions happen in program order, and a committed
  // instruction accesses memory at most once.
  lemma CommittedAccessesInOrder(cfg: Config, mem0: Mem, ss: seq<State>, es: seq<Event>, i: nat, a: nat, b: nat)
    requires Reachable(cfg, mem0, ss, es) && i < |ss| && a < b < |ss[i].g.trace|
    requires ss[i].g.trace[a] in ss[i].g.commitIds && ss[i].g.trace[b] in ss[i].g.commitIds
    ensures ss[i].g.trace[a] < ss[i].g.trace[b]
  {
    hide R.AllBelow, R.EntriesInRange, R.TagsInRange, MapsOk, ArchsOk, AllValid, RobSorted, LdqSorted, StqSorted,
      TagsMatch, IdsBelow, NotDead, MapsChain, ArchChain, Conserved, InvMode, PkgOk, InvOps, InvRegs, InvVals, InvLdq,
      InvStq, DepsOk, Drain, TraceBeforeStores, TraceBeforeLoads;
    RunInv(cfg, mem0, ss, es, i);
  }

  // A store reaches memory only after its instruction committed.
  lemma OnlyCommittedStoresReachMemory(cfg: Config, mem0: Mem, ss: seq<State>, es: seq<Event>, i: nat)
    requires Reachable(cfg, mem0, ss, es) && i < |ss| && CanIssueStore(ss[i])
    ensures ss[i].lsq.stq.elems[L.StoreToIssue(ss[i].lsq).value].id in ss[i].g.commitIds
  {
    hide R.AllBelow, R.EntriesInRange, R.TagsInRange, MapsOk, ArchsOk, AllValid, InvOrder, MapsChain, ArchChain,
      Conserved, InvMode, PkgOk, InvOps, InvRegs, InvVals, InvLdq, RobStores, StoreData, StoresTied, StoresRetired,
      StoreOps, StoreResps, StoresInOrder, InvMem;
    RunInv(cfg, mem0, ss, es, i);
  }

  // ---- no assertion of the source can fail ------------------------------------------------------

  lemma UndoIsEnabled(cfg: Config, s: State)
    requires InvShape(cfg, s) && InvMode(s) && InvMaps(cfg, s) && InvOrder(s) && InvStq(cfg, s) && s.rcu.mode == R.Undo
    ensures CanUndoOne(s) || CanFinishUndo(s)
  {
    hide R.AllBelow, R.EntriesInRange, R.TagsInRange, MapsOk, ArchsOk, FaultsBehind, EntriesOk, CauseOk, InvOrder,
      MapsChain, InvStq;
    SlotPos(s.rcu.rob, 0);
    OlderIsDistance(s.rcu.rob.size, s.rcu.rob.head, s.rcu.tag, s.rcu.rob.Latest());
    assert s.rcu.rob.Slot(s.rcu.rob.Pos(s.rcu.tag)) == s.rcu.tag
      && s.rcu.rob.Slot(s.rcu.rob.Pos(s.rcu.rob.Latest())) == s.rcu.rob.Latest();
    if !s.g.released {
      YoungestFacts(cfg, s);
    }
  }

  // The commit package, rollback, both kinds of response and every pipeline hand-over always
  // find what the source asserts or takes for granted.
  lemma NoAssertionFails(cfg: Config, mem0: Mem, ss: seq<State>, es: seq<Event>, i: nat)
    requires Reachable(cfg, mem0, ss, es) && i < |ss|
    ensures var s := ss[i];
      && (s.pkg > 0 ==> CanCommitOne(s))
      && (s.rcu.mode == R.Undo ==> CanUndoOne(s) || CanFinishUndo(s))
      && (forall slot :: slot in s.lresp ==> CanLoadResp(s, slot))
      && (forall slot :: slot in s.sresp ==> CanStoreResp(s, slot))
      && (forall id :: id in s.ops ==> CanProceed(cfg, s, id))
  {
    RunInv(cfg, mem0, ss, es, i);
    var s := ss[i];
    hide R.AllBelow, R.EntriesInRange, R.TagsInRange, MapsOk, ArchsOk, AllValid, InvMode, CanProceed, InvOps, InvVals,
      InvOrder, InvMaps, InvArch, InvCons, InvPkg, InvRegs, InvLdq, InvStq, InvMem, CanLoadResp, CanStoreResp,
      CanUndoOne, CanFinishUndo, CanCommitOne;
    ResponsesFindEntries(cfg, s);
    PackageCommits(cfg, s);
    if s.rcu.mode == R.Undo {
      UndoIsEnabled(cfg, s);
    }
    forall id | id in s.ops ensures CanProceed(cfg, s, id) {
      OpProceeds(cfg, s, id);
    }
  }

  lemma OpProceeds(cfg: Config, s: State, id: nat)
    requires InvShape(cfg, s) && InvOps(cfg, s) && id in s.ops
    ensures CanProceed(cfg, s, id)
  {
    hide R.AllBelow, R.EntriesInRange, R.TagsInRange, MapsOk, ArchsOk, AllValid, OpsTied, OpsSquashed, BranchOk,
      SingleRelease;
    OpWell(cfg, s.ops, s.g.robTag, id);
  }

  // Every stage an in-flight operation can be in leads on.
  predicate CanProceed(cfg: Config, s: State, id: nat)
    requires id in s.ops
  {
    match s.ops[id].stage
    case Waiting => s.ops[id].Ready() ==> CanExecute(s, id) || CanAgu(s, id)
    case InLsq => true
    case Completed(_, _) => CanForward(s, id)
    case Forwarded(_, _) => s.rcu.Valid() && (SingleRelease(s, OutcomeOf(cfg, s.ops[id])) ==> CanWriteBack(cfg, s, id))
  }

  lemma PackageCommits(cfg: Config, s: State)
    requires InvShape(cfg, s) && InvPkg(s)
    ensures s.pkg > 0 ==> CanCommitOne(s)
  {
  }

  lemma ResponsesFindEntries(cfg: Config, s: State)
    requires InvShape(cfg, s) && InvLdq(cfg, s) && InvStq(cfg, s)
    ensures forall slot :: slot in s.lresp ==> CanLoadResp(s, slot)
    ensures forall slot :: slot in s.sresp ==> CanStoreResp(s, slot)
  {
  }
}
