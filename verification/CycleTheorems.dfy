// Whole calls of Rcu::Evaulate, Rcu::CommitInsn and Lsq::Evaulate as sequences of machine
// transitions, the exact length of a rollback, and what a second release would break.
module CycleTheorems {
  import opened DynInsn
  import opened LoopQueue
  import L = LsqSpec
  import R = RcuSpec
  import opened Backend
  import opened BackendInv
  import opened Registers
  import opened ProofCommit
  import opened ProofUndo
  import opened ProofExec
  import opened ProofWriteBack
  import opened ProofLsq
  import opened BackendTheorems
  import opened RecoveryTheorems
  import RcuUnit

  // Entries younger than the rollback entry.
  function Younger(r: R.Rcu): int { |r.rob.elems| - 1 - r.rob.Dist(r.tag) }

  // One call of RollBack removes up to `w` entries and, when it reaches the rollback entry
  // (also right after the w-th removal), finishes. Every turn is a machine transition.
  lemma {:induction false} RollBackCall(cfg: Config, mem0: Mem, s: State, w: nat, i: nat) returns (t: State)
    requires Inv(cfg, mem0, s) && s.rcu.mode == R.Undo && i <= w
    ensures Inv(cfg, mem0, t) && s.Core().Valid() && t.Core() == R.RollBack(s.Core(), w, i) && TagId(t) == TagId(s)
    ensures Younger(s.rcu) >= 0
    ensures Younger(s.rcu) <= w - i ==> t.rcu.mode == R.WaitForResume && Younger(t.rcu) == 0
    ensures Younger(s.rcu) > w - i ==> t.rcu.mode == R.Undo && Younger(t.rcu) == Younger(s.rcu) - (w - i)
    decreases w - i
  {
    hide R.AllBelow, R.EntriesInRange, R.TagsInRange, MapsOk, ArchsOk, AllValid, FaultsBehind, EntriesOk, CauseOk,
      ReleasedOk, ReleasedSafe, InvOrder, InvMaps, InvArch, InvCons, InvPkg, InvOps, InvRegs, InvVals, InvLdq, InvStq,
      InvMem, FinishUndo, UndoOne, CanUndoOne, R.CanUndoOne, R.UndoOne, R.FinishUndo;
    UndoOrFinish(cfg, s);
    if CanFinishUndo(s) {
      FinishInv(cfg, mem0, s);
      t := FinishUndo(s);
      FinishEffect(s);
    } else if i < w {
      UndoInv(cfg, mem0, s);
      UndoEffect(s);
      UndoTag(s);
      t := RollBackCall(cfg, mem0, UndoOne(s), w, i + 1);
    } else {
      t := s;
    }
  }

  lemma UndoOrFinish(cfg: Config, s: State)
    requires InvShape(cfg, s) && InvMode(s) && InvMaps(cfg, s) && InvOrder(s) && InvStq(cfg, s) && s.rcu.mode == R.Undo
    ensures 0 <= Younger(s.rcu) && (CanFinishUndo(s) <==> Younger(s.rcu) == 0) && (CanUndoOne(s) <==> Younger(s.rcu) > 0)
  {
    hide R.AllBelow, R.EntriesInRange, R.TagsInRange, MapsOk, ArchsOk, FaultsBehind, EntriesOk, CauseOk, InvOrder,
      MapsChain, InvStq;
    UndoIsEnabled(cfg, s);
    SlotPos(s.rcu.rob, 0);
    OlderIsDistance(s.rcu.rob.size, s.rcu.rob.head, s.rcu.tag, s.rcu.rob.Latest());
  }

  // In every reachable rollback each turn of the loop finds what it needs, so the method
  // RcuUnit.Rcu.RollBack may be called.
  lemma {:induction false} RollBackIsSafe(cfg: Config, mem0: Mem, s: State, w: nat, i: nat)
    requires Inv(cfg, mem0, s) && s.rcu.mode == R.Undo && i <= w
    ensures RcuUnit.CanRollBack(s.Core(), w, i)
    decreases w - i
  {
    hide R.AllBelow, R.EntriesInRange, R.TagsInRange, MapsOk, ArchsOk, AllValid, FaultsBehind, EntriesOk, CauseOk,
      ReleasedOk, ReleasedSafe, InvOrder, InvMaps, InvArch, InvCons, InvPkg, InvOps, InvRegs, InvVals, InvLdq, InvStq,
      InvMem, FinishUndo, UndoOne, R.UndoOne, R.FinishUndo;
    UndoOrFinish(cfg, s);
    SlotPos(s.rcu.rob, 0);
    if i < w && CanUndoOne(s) {
      UndoInv(cfg, mem0, s);
      UndoEffect(s);
      RollBackIsSafe(cfg, mem0, UndoOne(s), w, i + 1);
    }
  }

  // ---- what a rollback gives back --------------------------------------------------------------

  function Given(e: R.RobEntry): seq<nat> { if e.valid && e.d.rdType == INT && e.phyRd != 0 then [e.phyRd] else [] }

  // The registers of squashed entries, youngest first.
  function GivenBack(q: seq<R.RobEntry>): seq<nat> {
    if q == [] then [] else Given(q[|q| - 1]) + GivenBack(q[..|q| - 1])
  }

  // A call of RollBack keeps a prefix of the entries and returns exactly the registers of the
  // others, youngest first, and last that of the rollback entry if it is reached and faulted.
  lemma {:induction false} RollBackReturns(c: R.Core, w: nat, i: nat)
    requires c.Valid() && c.rcu.mode == R.Undo
    ensures var c', q := R.RollBack(c, w, i), c.rcu.rob.elems;
      var n := |c'.rcu.rob.elems|;
      && n <= |q| && c'.rcu.rob.elems == q[..n]
      && c'.rcu.free == c.rcu.free + GivenBack(q[n..]) +
           if c'.rcu.mode == R.WaitForResume && n > 0 && q[n - 1].fault.Some? then Given(q[n - 1]) else []
    decreases |c.rcu.rob.elems|
  {
    hide R.Core.Valid, R.CanFinishUndo, R.CanUndoOne, R.UndoOne, R.FinishUndo, Given, GivenBack;
    var q := c.rcu.rob.elems;
    assert q[|q|..] == [] && q[..|q|] == q && GivenBack([]) == [] by { GivenNone(); }
    if R.CanFinishUndo(c) {
      FinishGives(c);
    } else if i < w && R.CanUndoOne(c) {
      UndoGives(c);
      var c1 := R.UndoOne(c);
      RollBackReturns(c1, w, i + 1);
      var n := |R.RollBack(c1, w, i + 1).rcu.rob.elems|;
      GivenSplit(c.rcu.free, q, n);
      assert q[..|q| - 1][..n] == q[..n];
    }
  }

  // The table after the n live entries, or, if the youngest has faulted and was released, the
  // one before it.
  predicate TableAfter(table: seq<nat>, q: seq<R.RobEntry>, maps: seq<seq<nat>>) {
    && |maps| == |q| + 1 && MapsChain(q, maps) && AllValid(q)
    && (table == maps[|q|] || (q != [] && q[|q| - 1].fault.Some? && table == maps[|q| - 1]))
  }

  // A rollback restores the rename table whatever was released before it: releasing an entry
  // twice sets the table to what it is. No hypothesis on the run is needed.
  lemma {:induction false} RollBackRestoresTable(c: R.Core, w: nat, i: nat, maps: seq<seq<nat>>)
    requires c.Valid() && c.rcu.mode == R.Undo && TableAfter(c.rcu.table, c.rcu.rob.elems, maps)
    ensures var c' := R.RollBack(c, w, i);
      var n := |c'.rcu.rob.elems|;
      && n <= |c.rcu.rob.elems| && c'.rcu.rob.elems == c.rcu.rob.elems[..n]
      && TableAfter(c'.rcu.table, c'.rcu.rob.elems, maps[..n + 1])
      && (c'.rcu.mode == R.WaitForResume ==>
            n > 0 && c'.rcu.table == if c.rcu.rob.elems[n - 1].fault.Some? then maps[n - 1] else maps[n])
    decreases |c.rcu.rob.elems|
  {
    hide R.Core.Valid, R.CanFinishUndo, R.CanUndoOne, R.UndoOne, R.FinishUndo, Given, GivenBack, TableAfter;
    RollBackReturns(c, w, i);
    var q := c.rcu.rob.elems;
    TableSizes(c.rcu.table, q, maps);
    assert maps[..|q| + 1] == maps && q[..|q|] == q;
    if R.CanFinishUndo(c) {
      FinishGives(c);
      FinishTable(c, maps);
    } else if i < w && R.CanUndoOne(c) {
      UndoGives(c);
      UndoTable(c, maps);
      RollBackRestoresTable(R.UndoOne(c), w, i + 1, maps[..|q|]);
      var n := |R.RollBack(c, w, i).rcu.rob.elems|;
      assert maps[..|q|][..n + 1] == maps[..n + 1] && q[..|q| - 1][..n] == q[..n];
    }
  }

  lemma TableSizes(table: seq<nat>, q: seq<R.RobEntry>, maps: seq<seq<nat>>)
    requires TableAfter(table, q, maps)
    ensures |maps| == |q| + 1
  {
  }

  lemma UndoTable(c: R.Core, maps: seq<seq<nat>>)
    requires c.Valid() && R.CanUndoOne(c) && TableAfter(c.rcu.table, c.rcu.rob.elems, maps) && |maps| == |c.rcu.rob.elems| + 1
    ensures var c1, q := R.UndoOne(c), c.rcu.rob.elems;
      q != [] && c1.rcu.table == maps[|q| - 1] && TableAfter(c1.rcu.table, q[..|q| - 1], maps[..|q|])
  {
    hide R.AllBelow, R.EntriesInRange, R.TagsInRange;
    ReleaseTable(c.rcu.table, c.rcu.rob.elems, maps);
  }

  lemma FinishTable(c: R.Core, maps: seq<seq<nat>>)
    requires c.Valid() && R.CanFinishUndo(c) && TableAfter(c.rcu.table, c.rcu.rob.elems, maps) && |maps| == |c.rcu.rob.elems| + 1
    ensures var c1, q := R.FinishUndo(c), c.rcu.rob.elems;
      && q != [] && c1.rcu.table == (if q[|q| - 1].fault.Some? then maps[|q| - 1] else maps[|q|])
      && TableAfter(c1.rcu.table, q, maps)
  {
    hide R.AllBelow, R.EntriesInRange, R.TagsInRange;
    ReleaseTable(c.rcu.table, c.rcu.rob.elems, maps);
  }

  // Releasing the youngest entry leads to the table before it, also the second time.
  lemma ReleaseTable(table: seq<nat>, q: seq<R.RobEntry>, maps: seq<seq<nat>>)
    requires TableAfter(table, q, maps) && q != [] && |maps| == |q| + 1
    ensures var e := q[|q| - 1];
      && e.valid && (e.d.rdType == INT && e.phyRd != 0 ==> e.d.isaRd < |table|)
      && maps[|q| - 1]
        == (if e.d.rdType == INT && e.phyRd != 0 && e.d.isaRd < |table| then table[e.d.isaRd := e.lphyRd] else table)
  {
    assert MapStep(maps[|q| - 1], maps[|q|], q[|q| - 1]);
  }

  lemma GivenNone()
    ensures GivenBack([]) == []
  {
  }

  lemma GivenSplit(free: seq<nat>, q: seq<R.RobEntry>, n: nat)
    requires n < |q|
    ensures free + Given(q[|q| - 1]) + GivenBack(q[..|q| - 1][n..]) == free + GivenBack(q[n..])
  {
    var r := q[n..];
    assert r[..|r| - 1] == q[..|q| - 1][n..] && r[|r| - 1] == q[|q| - 1];
  }

  lemma UndoGives(c: R.Core)
    requires c.Valid() && R.CanUndoOne(c)
    ensures var q, c1 := c.rcu.rob.elems, R.UndoOne(c);
      && q != [] && c1.rcu.rob.elems == q[..|q| - 1] && c1.rcu.free == c.rcu.free + Given(q[|q| - 1])
      && c1.rcu.mode == R.Undo && c1.Valid()
  {
    YoungestInRange(c);
    hide R.AllBelow, R.EntriesInRange, R.TagsInRange;
    if R.Youngest(c.rcu).valid {
      ReleaseGives(c, R.Youngest(c.rcu));
    }
  }

  lemma FinishGives(c: R.Core)
    requires c.Valid() && R.CanFinishUndo(c)
    ensures var q, c1 := c.rcu.rob.elems, R.FinishUndo(c);
      && q != [] && c1.rcu.rob.elems == q && c1.rcu.mode == R.WaitForResume
      && c1.rcu.free == c.rcu.free + if q[|q| - 1].fault.Some? then Given(q[|q| - 1]) else []
  {
    YoungestInRange(c);
    hide R.AllBelow, R.EntriesInRange, R.TagsInRange;
    var c1 := c.(rcu := c.rcu.(mode := R.WaitForResume));
    if R.Youngest(c.rcu).fault.Some? {
      ReleaseGives(c1, R.Youngest(c.rcu));
    }
  }

  lemma YoungestInRange(c: R.Core)
    requires c.Valid() && c.rcu.rob.elems != []
    ensures var e := R.Youngest(c.rcu); R.EntryInRange(e, |c.rcu.regs|) && R.TagInRange(e, c.lsq.ldq.size, c.lsq.stq.size)
  {
  }

  lemma ReleaseGives(c: R.Core, e: R.RobEntry)
    requires c.Valid() && R.EntryInRange(e, |c.rcu.regs|) && R.TagInRange(e, c.lsq.ldq.size, c.lsq.stq.size) && e.valid
    requires e.d.fu == STU ==> c.lsq.stq.elems != []
    ensures var c' := R.Release(c, e);
      c'.rcu.free == c.rcu.free + Given(e) && c'.rcu.rob == c.rcu.rob && c'.rcu.mode == c.rcu.mode
  {
  }

  // The store a rollback removes is the one whose tag it names: RollBack moves the store
  // queue's tail whatever tag it is given.
  lemma KilledStoreIsTheNamedOne(cfg: Config, mem0: Mem, ss: seq<State>, es: seq<Event>, i: nat)
    requires Reachable(cfg, mem0, ss, es) && i < |ss| && ss[i].rcu.mode == R.Undo
    ensures var s := ss[i];
      && s.Rob() != []
      && var e, q := R.Youngest(s.rcu), s.lsq.stq;
         e.d.fu == STU ==>
           && q.elems != [] && q.Valid() && q.Latest() == e.lsqTag
           && q.elems[|q.elems| - 1].id == e.id && !q.elems[|q.elems| - 1].commited
  {
    hide InvArch, InvCons, InvPkg, InvOps, InvRegs, InvVals, InvLdq, InvMem;
    RunInv(cfg, mem0, ss, es, i);
    NamedStore(cfg, ss[i]);
  }

  lemma NamedStore(cfg: Config, s: State)
    requires InvShape(cfg, s) && InvMode(s) && InvMaps(cfg, s) && InvOrder(s) && InvStq(cfg, s) && s.rcu.mode == R.Undo
    ensures s.Rob() != [] && s.lsq.stq.Valid()
    ensures var e, q := R.Youngest(s.rcu), s.lsq.stq;
      e.d.fu == STU ==>
        && q.elems != [] && q.Latest() == e.lsqTag
        && q.elems[|q.elems| - 1].id == e.id && !q.elems[|q.elems| - 1].commited
  {
    hide R.AllBelow, MapsOk, ArchsOk, FaultsBehind, EntriesOk, CauseOk, NotDead, CommitsOk, MapsChain;
    if !s.g.released && R.Youngest(s.rcu).d.fu == STU {
      KilledStoreIsLatest(s.rcu.rob, s.g.robTag, s.lsq.stq, s.nextId, s.nextId);
    }
  }

  lemma FinishEffect(s: State)
    requires CanFinishUndo(s)
    ensures var t := FinishUndo(s);
      && t.Core() == R.FinishUndo(s.Core()) && t.rcu.mode == R.WaitForResume && t.rcu.rob == s.rcu.rob && t.rcu.tag == s.rcu.tag
  {
    hide R.AllBelow, R.EntriesInRange, R.TagsInRange;
  }

  lemma UndoEffect(s: State)
    requires CanUndoOne(s)
    ensures var t := UndoOne(s);
      && R.CanUndoOne(s.Core()) && t.Core() == R.UndoOne(s.Core()) && t.rcu.mode == R.Undo && t.rcu.tag == s.rcu.tag
      && t.rcu.rob == s.rcu.rob.DropLatest()
  {
    hide R.AllBelow, R.EntriesInRange, R.TagsInRange;
  }

  // Repeated calls of Rcu::Evaulate.
  function EvaluateTimes(c: R.Core, w: nat, m: nat): (c': R.Core)
    requires c.Valid()
    ensures c'.Valid()
    decreases m
  {
    if m == 0 then c else EvaluateTimes(R.Evaluate(c, w), w, m - 1)
  }

  function Rounds(n: nat, w: nat): (m: nat)
    requires w > 0
    ensures m >= 1
  {
    if n <= w then 1 else 1 + Rounds(n - w, w)
  }

  // Rounds(n, w) is max(1, ceil(n / w)).
  lemma {:induction false} RoundsIsCeiling(n: nat, w: nat)
    requires w > 0
    ensures n == 0 ==> Rounds(n, w) == 1
    ensures n > 0 ==> (Rounds(n, w) - 1) * w < n <= Rounds(n, w) * w
    decreases n
  {
    if n > w {
      RoundsIsCeiling(n - w, w);
      var m := Rounds(n - w, w);
      assert m * w == (m - 1) * w + w && (m + 1) * w == m * w + w;
    }
  }

  // With n entries younger than the rollback entry and allocation width w, exactly
  // max(1, ceil(n / w)) calls reach WaitForResume, none fewer.
  lemma {:induction false} RollbackTakesExactlyRounds(cfg: Config, mem0: Mem, s: State, w: nat, m: nat)
    requires Inv(cfg, mem0, s) && s.rcu.mode == R.Undo && w > 0
    ensures s.Core().Valid() && Younger(s.rcu) >= 0
    ensures m < Rounds(Younger(s.rcu), w) ==> EvaluateTimes(s.Core(), w, m).rcu.mode == R.Undo
    ensures m == Rounds(Younger(s.rcu), w) ==>
      var c := EvaluateTimes(s.Core(), w, m); c.rcu.mode == R.WaitForResume && Younger(c.rcu) == 0
    decreases m
  {
    hide R.AllBelow, R.EntriesInRange, R.TagsInRange, MapsOk, ArchsOk, AllValid, TagOk, FaultsBehind, EntriesOk,
      CauseOk, ReleasedOk, ReleasedSafe, InvMode, InvOrder, InvMaps, InvArch, InvCons, InvPkg, InvOps, InvRegs,
      InvVals, InvLdq, InvStq, InvMem, R.RollBack;
    var t := RollBackCall(cfg, mem0, s, w, 0);
    if m > 0 {
      assert R.Evaluate(s.Core(), w) == t.Core();
      if m > 1 && t.rcu.mode == R.Undo {
        RollbackTakesExactlyRounds(cfg, mem0, t, w, m - 1);
      }
    }
  }

  // ---- whole calls of the other evaluators ------------------------------------------------------

  // Retiring the whole package is a sequence of single retirements, none of which fails.
  lemma {:induction false} CommitCall(cfg: Config, mem0: Mem, s: State) returns (t: State)
    requires Inv(cfg, mem0, s)
    ensures Inv(cfg, mem0, t) && t.pkg == 0 && R.CommitMany(s.Core(), s.pkg) == Some(t.Core())
    decreases s.pkg
  {
    hide InvShape, InvOrder, InvMaps, InvArch, InvCons, InvMode, InvPkg, InvOps, InvRegs, InvVals, InvLdq, InvStq,
      InvMem, CanCommitOne, CommitOne, R.CanCommit, R.CommitOne;
    if s.pkg == 0 {
      t := s;
    } else {
      PackageCommits(cfg, s);
      CommitInv(cfg, mem0, s);
      CommitCore(s);
      t := CommitCall(cfg, mem0, CommitOne(s));
    }
  }

  lemma CommitCore(s: State)
    requires CanCommitOne(s)
    ensures s.pkg > 0 && CommitOne(s).pkg == s.pkg - 1
    ensures R.CommitMany(s.Core(), s.pkg) == R.CommitMany(CommitOne(s).Core(), s.pkg - 1)
  {
    hide R.AllBelow, R.EntriesInRange, R.TagsInRange, R.RetireRegs, R.RetireLsq;
  }

  // Lsq::Evaulate is a sequence of single pops.
  lemma {:induction false} PopStoresCall(cfg: Config, mem0: Mem, s: State)
    requires Inv(cfg, mem0, s)
    ensures s.lsq.Valid() && Inv(cfg, mem0, s.(lsq := L.PopStores(s.lsq)))
    decreases |s.lsq.stq.elems|
  {
    LsqValid(cfg, s);
    if L.CanPopStore(s.lsq) {
      PopStoreInv(cfg, mem0, s);
      hide Inv;
      PopStoresCall(cfg, mem0, PopStore(s));
    } else {
      assert s.(lsq := L.PopStores(s.lsq)) == s;
    }
  }

  lemma {:induction false} PopLoadsCall(cfg: Config, mem0: Mem, s: State)
    requires Inv(cfg, mem0, s)
    ensures s.lsq.Valid() && Inv(cfg, mem0, s.(lsq := L.PopLoads(s.lsq)))
    decreases |s.lsq.ldq.elems|
  {
    LsqValid(cfg, s);
    if L.CanPopLoad(s.lsq) {
      PopLoadInv(cfg, mem0, s);
      hide Inv;
      PopLoadsCall(cfg, mem0, PopLoad(s));
    } else {
      assert s.(lsq := L.PopLoads(s.lsq)) == s;
    }
  }

  lemma LsqValid(cfg: Config, s: State)
    requires InvShape(cfg, s)
    ensures s.lsq.Valid()
  {
  }

  // One call of Lsq::Evaulate keeps the invariant.
  lemma LsqEvaluateCall(cfg: Config, mem0: Mem, s: State)
    requires Inv(cfg, mem0, s)
    ensures s.lsq.Valid() && Inv(cfg, mem0, s.(lsq := L.Evaluate(s.lsq)))
  {
    PopStoresCall(cfg, mem0, s);
    hide Inv, L.PopStores, L.PopLoads;
    PopLoadsCall(cfg, mem0, s.(lsq := L.PopStores(s.lsq)));
  }

  // ---- the second release -----------------------------------------------------------------------

  // Why the single-release hypothesis is needed, and exactly when: rolling over an entry that
  // was already released leaves the register census and the store queue as they should be
  // if and only if the entry held neither a register nor a store.
  lemma SecondReleaseDamage(regCount: nat, c: R.Core, m0: seq<nat>)
    requires regCount >= 2 && R.CanUndoOne(c) && R.Youngest(c.rcu).valid
    requires var e := R.Youngest(c.rcu); e.phyRd != 0 <==> e.d.Writes()
    requires Conserved(regCount, c.rcu.free, m0, c.rcu.rob.elems[..|c.rcu.rob.elems| - 1])
    ensures var c' := R.UndoOne(c);
      (Conserved(regCount, c'.rcu.free, m0, c'.rcu.rob.elems) && c'.lsq.stq == c.lsq.stq) <==> !HoldsResource(R.Youngest(c.rcu))
  {
    hide R.AllBelow, R.EntriesInRange, R.TagsInRange;
    var e := R.Youngest(c.rcu);
    var c' := R.UndoOne(c);
    var held := c.rcu.rob.elems[..|c.rcu.rob.elems| - 1];
    assert c'.rcu.rob.elems == held;
    if e.phyRd != 0 {
      var before := Census(c.rcu.free, m0, held);
      assert c'.rcu.free == c.rcu.free + [e.phyRd];
      assert Census(c'.rcu.free, m0, held)[e.phyRd] == before[e.phyRd] + 1;
    }
  }

  // The hypothesis is exact. Suppose a fault or misprediction restarts the rollback while dispatch
  // waits for resumption and the youngest entry has faulted. Then the write-back meets the
  // hypothesis if and only if the next removal can be done and leaves the census and the store
  // queue right.
  lemma SingleReleaseIsExact(cfg: Config, mem0: Mem, s: State, id: nat)
    requires Inv(cfg, mem0, s) && id in s.ops && s.ops[id].stage.Forwarded?
    requires s.rcu.mode == R.WaitForResume && s.Rob() != [] && R.Youngest(s.rcu).fault.Some?
    requires LiveOp(s.rcu.rob, s.ops[id]) && R.Raises(s.rcu, OutcomeOf(cfg, s.ops[id]))
    ensures s.rcu.Valid() && s.ops[id].robTag < s.rcu.rob.size && s.ops[id].phyRd < |s.rcu.regs| && cfg.regCount >= 2
    ensures var o := OutcomeOf(cfg, s.ops[id]);
      var c := R.Core(R.WriteBack(s.rcu, cfg.speculate, o), s.lsq);
      SingleRelease(s, o) <==>
        && R.CanUndoOne(c)
        && Conserved(cfg.regCount, R.UndoOne(c).rcu.free, s.g.maps[0], R.UndoOne(c).rcu.rob.elems)
        && R.UndoOne(c).lsq.stq == s.lsq.stq
  {
    hide R.AllBelow, R.EntriesInRange, R.TagsInRange, MapsOk, ArchsOk, InvOrder, InvPkg, InvRegs, InvLdq, InvStq,
      InvMem, OpsTied, OpsSquashed, BranchOk, ArchChain, MapsChain, InvVals, Conserved, OperandsOk, StageOk, Result,
      FaultsBehind, EntriesOk, CauseOk, TagOk, R.Raises, R.WriteBack, R.CanUndoOne, R.UndoOne;
    var o := OutcomeOf(cfg, s.ops[id]);
    SlotPos(s.rcu.rob, s.rcu.rob.Dist(o.robTag));
    assert s.rcu.rob.Live(o.robTag);
    LiveFacts(cfg, mem0, s, id);
    WritesIffTarget(s.Rob(), s.g.maps);
    RaisedAgain(cfg.regCount, s.rcu, s.lsq, cfg.speculate, o, s.g.maps[0]);
    var c := R.Core(R.WriteBack(s.rcu, cfg.speculate, o), s.lsq);
    if R.CanUndoOne(c) {
      SecondReleaseDamage(cfg.regCount, c, s.g.maps[0]);
    } else {
      assert HoldsResource(R.Youngest(s.rcu));
    }
  }

  lemma RaisedAgain(regCount: nat, r: R.Rcu, l: L.Lsq, spec: bool, o: R.Outcome, m0: seq<nat>)
    requires regCount >= 2 && R.Core(r, l).Valid() && o.robTag < r.rob.size && o.phyRd < |r.regs| && r.rob.elems != []
    requires 0 <= r.rob.Dist(o.robTag) < |r.rob.elems| - 1 && R.Raises(r, o) && R.Youngest(r).valid
    requires Conserved(regCount, r.free, m0, r.rob.elems[..|r.rob.elems| - 1])
    ensures var c := R.Core(R.WriteBack(r, spec, o), l);
      && c.Valid() && |c.rcu.rob.elems| == |r.rob.elems| && R.Youngest(c.rcu) == R.Youngest(r)
      && Conserved(regCount, c.rcu.free, m0, c.rcu.rob.elems[..|r.rob.elems| - 1])
      && (R.CanUndoOne(c) <==> (R.Youngest(r).d.fu == STU ==> l.stq.elems != []))
  {
    hide R.Core.Valid, R.Rcu.Valid, R.WriteBack, R.Raises, Census, Conserved;
    RaisedMode(r, l, spec, o);
    var q, q' := r.rob.elems, R.WriteBack(r, spec, o).rob.elems;
    var n := |q|;
    assert Dests(q'[..n - 1]) == Dests(q[..n - 1]);
    SameDests(regCount, r.free, m0, q[..n - 1], q'[..n - 1]);
  }

  lemma RaisedMode(r: R.Rcu, l: L.Lsq, spec: bool, o: R.Outcome)
    requires R.Core(r, l).Valid() && o.robTag < r.rob.size && o.phyRd < |r.regs|
    requires 0 <= r.rob.Dist(o.robTag) < |r.rob.elems| - 1 && R.Raises(r, o)
    ensures r.Valid() && R.Core(R.WriteBack(r, spec, o), l).Valid()
    ensures var r', k := R.WriteBack(r, spec, o), r.rob.Dist(o.robTag);
      && r'.mode == R.Undo && r'.tag == o.robTag && r'.free == r.free
      && r'.rob == r.rob.(elems := r.rob.elems[k := R.MarkWritten(r.rob.elems[k], o)])
      && r'.rob.IsOlder(r'.tag, r'.rob.Latest())
  {
    hide R.AllBelow, R.EntriesInRange, R.TagsInRange;
    RcuUnit.WriteBackKeepsValid(R.Core(r, l), spec, o);
    SlotPos(r.rob, r.rob.Dist(o.robTag));
    GuardIsLiveness(r.rob, o.robTag);
    OlderIsDistance(r.rob.size, r.rob.head, o.robTag, r.rob.Latest());
  }

  lemma SameDests(regCount: nat, free: seq<nat>, m: seq<nat>, held: seq<R.RobEntry>, held': seq<R.RobEntry>)
    requires regCount >= 2 && Conserved(regCount, free, m, held) && Dests(held) == Dests(held')
    ensures Conserved(regCount, free, m, held')
  {
  }
}
