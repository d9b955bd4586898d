// The dispatch stage (src/Processor/Pipeline/Dispatch.cc), with partial packages allowed.
module DispatchStage {
  import opened DynInsn
  import opened LoopQueue
  import L = LsqSpec
  import R = RcuSpec
  import opened Package
  import opened LsqUnit
  import opened RcuUnit
  import P = DispatchPorts

  // A scheduler as the dispatch stage uses it (Schedular/BaseSchedular.hh:94-117).
  class Scheduler {
    const supportFunc: set<FuncType>
    const enqueWidth: nat
    var availible: nat
    var allocatedCount: nat
    var enqueLatch: seq<nat>

    constructor (supportFunc: set<FuncType>, enqueWidth: nat, entryCount: nat)
      ensures Value() == P.Sched(supportFunc, entryCount, enqueWidth, enqueWidth) && enqueLatch == []
    {
      this.supportFunc, this.enqueWidth, availible, allocatedCount, enqueLatch := supportFunc, enqueWidth, entryCount,
        enqueWidth, [];
    }

    function Value(): P.Sched
      reads this
    { P.Sched(supportFunc, availible, allocatedCount, enqueWidth) }

    predicate Busy()
      reads this
    { availible == 0 || allocatedCount == 0 }

    method Enqueue(id: nat)
      requires !Busy()
      modifies this
      ensures Value() == old(Value()).Take() && enqueLatch == old(enqueLatch) + [id]
    {
      availible, allocatedCount, enqueLatch := availible - 1, allocatedCount - 1, enqueLatch + [id];
    }
  }

  function Values(scheds: seq<Scheduler>): (ss: seq<P.Sched>)
    reads scheds
    ensures |ss| == |scheds| && forall k :: 0 <= k < |ss| ==> ss[k] == scheds[k].Value()
  { seq(|scheds|, k requires 0 <= k < |scheds| reads scheds => scheds[k].Value()) }

  // The port the inner loop of TryDispatch takes.
  method FindPort(scheds: seq<Scheduler>, availPort: array<nat>, fu: FuncType) returns (r: Option<nat>)
    requires availPort.Length == |scheds|
    ensures r == P.FirstPort(Values(scheds), availPort[..], fu, 0)
  {
    for k := 0 to |scheds|
      invariant P.FirstPort(Values(scheds), availPort[..], fu, 0) == P.FirstPort(Values(scheds), availPort[..], fu, k)
    {
      if fu in scheds[k].supportFunc && !scheds[k].Busy() && availPort[k] > 0 {
        return Some(k);
      }
    }
    return None;
  }

  // The ports each scheduler offers the dry run.
  method OpenPorts(scheds: seq<Scheduler>) returns (availPort: array<nat>)
    ensures fresh(availPort) && availPort[..] == P.StartPorts(Values(scheds))
  {
    ghost var ss := Values(scheds);
    availPort := new nat[|scheds|](_ => 0);
    for k := 0 to |scheds|
      invariant forall j :: 0 <= j < k ==> availPort[j] == Min(ss[j].avail, ss[j].enqueWidth)
    {
      availPort[k] := Min(scheds[k].availible, scheds[k].enqueWidth);
    }
    assert availPort[..] == P.StartPorts(ss);
  }

  method TryDispatch(scheds: seq<Scheduler>, pkg: seq<Insn>, checkControlFlow: bool) returns (successCount: nat)
    ensures successCount == P.DryRun(Values(scheds), P.StartPorts(Values(scheds)), DecodedsOf(pkg), checkControlFlow)
  {
    hide P.StartPorts, P.FirstPort, P.DryRun;
    ghost var ss, ds := Values(scheds), DecodedsOf(pkg);
    var availPort := OpenPorts(scheds);
    successCount := 0;
    assert ds[0..] == ds;
    for i := 0 to |pkg|
      invariant successCount == i && availPort.Length == |ss| && Values(scheds) == ss
      invariant P.DryRun(ss, P.StartPorts(ss), ds, checkControlFlow) == i + P.DryRun(ss, availPort[..], ds[i..], checkControlFlow)
    {
      var d := pkg[i].d;
      P.DryRunTurn(ss, availPort[..], ds, i, checkControlFlow);
      if d.excp.Some? {
        successCount := successCount + 1;
        break;
      }
      if d.fu == ALU && d.isaRd == 0 {
        successCount := successCount + 1;
        continue;
      }
      var p := FindPort(scheds, availPort, d.fu);
      if p.None? {
        break;
      }
      successCount := successCount + 1;
      ghost var before := availPort[..];
      availPort[p.value] := availPort[p.value] - 1;
      assert availPort[..] == before[p.value := before[p.value] - 1];
      if checkControlFlow && d.controlFlow {
        break;
      }
    }
    if successCount == |pkg| {
      P.DryRunTurn(ss, availPort[..], ds, |pkg|, checkControlFlow);
    }
  }

  method FindFree(scheds: seq<Scheduler>, fu: FuncType) returns (r: Option<nat>)
    ensures r == P.FirstFree(Values(scheds), fu, 0)
  {
    for k := 0 to |scheds|
      invariant P.FirstFree(Values(scheds), fu, 0) == P.FirstFree(Values(scheds), fu, k)
    {
      if fu in scheds[k].supportFunc && !scheds[k].Busy() {
        return Some(k);
      }
    }
    return None;
  }

  // The numbers of the instructions placed in scheduler k, in order.
  function IdsAt(pkg: seq<Insn>, at: seq<Option<nat>>, k: nat): seq<nat>
    requires |at| <= |pkg|
  {
    if at == [] then []
    else IdsAt(pkg, at[..|at| - 1], k) + if at[|at| - 1] == Some(k) then [pkg[|at| - 1].id] else []
  }

  function Latches(scheds: seq<Scheduler>): (ls: seq<seq<nat>>)
    reads scheds
    ensures |ls| == |scheds| && forall k :: 0 <= k < |ls| ==> ls[k] == scheds[k].enqueLatch
  { seq(|scheds|, k requires 0 <= k < |scheds| reads scheds => scheds[k].enqueLatch) }

  function WithIds(ls: seq<seq<nat>>, pkg: seq<Insn>, at: seq<Option<nat>>): (ls': seq<seq<nat>>)
    requires |at| <= |pkg|
    ensures |ls'| == |ls| && forall k :: 0 <= k < |ls| ==> ls'[k] == ls[k] + IdsAt(pkg, at, k)
  { seq(|ls|, k requires 0 <= k < |ls| => ls[k] + IdsAt(pkg, at, k)) }

  // Each instruction not done at dispatch enters one scheduler, the first that supports it and
  // has room, and no other enters any. Never reaches the failed assertion when the dry run allowed the prefix.
  method DispatchInsn(scheds: seq<Scheduler>, pkg: seq<Insn>, dispatchCount: nat) returns (ghost at: seq<Option<nat>>)
    requires dispatchCount <= |pkg| && forall j, k :: 0 <= j < k < |scheds| ==> scheds[j] != scheds[k]
    requires P.Dispatched(Values(scheds), DecodedsOf(pkg), dispatchCount).Some?
    modifies scheds
    ensures Some(Values(scheds)) == P.Dispatched(old(Values(scheds)), DecodedsOf(pkg), dispatchCount)
    ensures |at| == dispatchCount && P.Placed(old(Values(scheds)), DecodedsOf(pkg), at)
    ensures Latches(scheds) == WithIds(old(Latches(scheds)), pkg, at)
  {
    hide Going, Values, Latches, P.Bypasses, P.FirstFree;
    ghost var ss, ls := Values(scheds), Latches(scheds);
    at := [];
    GoingStarts(pkg, dispatchCount, ss, ls);
    for i := 0 to dispatchCount
      invariant |at| == i && Going(pkg, dispatchCount, ss, ls, Values(scheds), Latches(scheds), at)
    {
      GoingOn(pkg, dispatchCount, ss, ls, Values(scheds), Latches(scheds), at);
      var x := DispatchOne(scheds, pkg[i]);
      at := at + [x];
    }
    GoingEnds(pkg, dispatchCount, ss, ls, Values(scheds), Latches(scheds), at);
  }

  // The first |at| instructions have been placed: `cur` and `now` are the schedulers and the
  // latches, `ss` and `ls` what they were.
  predicate Going(pkg: seq<Insn>, n: nat, ss: seq<P.Sched>, ls: seq<seq<nat>>, cur: seq<P.Sched>, now: seq<seq<nat>>,
      at: seq<Option<nat>>)
  {
    && |at| <= n <= |pkg| && |ls| == |ss| && P.Placed(ss, DecodedsOf(pkg), at) && P.LeftOf(ss, cur, at)
    && now == WithIds(ls, pkg, at)
    && P.Dispatched(ss, DecodedsOf(pkg), n) == P.Dispatched(cur, DecodedsOf(pkg)[|at|..], n - |at|)
    && P.Dispatched(ss, DecodedsOf(pkg), n).Some?
  }

  lemma GoingStarts(pkg: seq<Insn>, n: nat, ss: seq<P.Sched>, ls: seq<seq<nat>>)
    requires n <= |pkg| && |ls| == |ss| && P.Dispatched(ss, DecodedsOf(pkg), n).Some?
    ensures Going(pkg, n, ss, ls, ss, ls, [])
  {
    hide P.Placed, P.LeftOf, P.Dispatched, WithIds;
    P.NonePlaced(ss, DecodedsOf(pkg));
    NoIds(ls, pkg);
    assert DecodedsOf(pkg)[0..] == DecodedsOf(pkg);
  }

  lemma GoingOn(pkg: seq<Insn>, n: nat, ss: seq<P.Sched>, ls: seq<seq<nat>>, cur: seq<P.Sched>, now: seq<seq<nat>>,
      at: seq<Option<nat>>)
    requires Going(pkg, n, ss, ls, cur, now, at) && |at| < n
    ensures |cur| == |now| == |ss| && |at| < |pkg|
    ensures var insn := pkg[|at|];
      var x := if P.Bypasses(insn.d) then None else P.FirstFree(cur, insn.d.fu, 0);
      && (!P.Bypasses(insn.d) ==> x.Some?)
      && Going(pkg, n, ss, ls, if x.Some? then cur[x.value := cur[x.value].Take()] else cur,
               if x.Some? then now[x.value := now[x.value] + [insn.id]] else now, at + [x])
  {
    hide P.Placed, P.LeftOf, P.FirstFree, P.Dispatched, P.Bypasses, WithIds, DecodedsOf;
    var ds, insn := DecodedsOf(pkg), pkg[|at|];
    P.SameSchedulers(ss, cur, at);
    P.DispatchedTurn(cur, ds, |at|, n);
    P.PlaceNext(ss, cur, ds, at);
    IdsNext(ls, pkg, at, if P.Bypasses(insn.d) then None else P.FirstFree(cur, insn.d.fu, 0));
  }

  lemma GoingEnds(pkg: seq<Insn>, n: nat, ss: seq<P.Sched>, ls: seq<seq<nat>>, cur: seq<P.Sched>, now: seq<seq<nat>>,
      at: seq<Option<nat>>)
    requires Going(pkg, n, ss, ls, cur, now, at) && |at| == n
    ensures n <= |pkg| && P.Dispatched(ss, DecodedsOf(pkg), n) == Some(cur)
    ensures P.Placed(ss, DecodedsOf(pkg), at) && now == WithIds(ls, pkg, at)
  {
    hide P.Placed, P.LeftOf, P.Dispatched, WithIds;
    P.NonePlaced(cur, DecodedsOf(pkg)[n..]);
  }

  // One turn of the loop.
  method DispatchOne(scheds: seq<Scheduler>, insn: Insn) returns (x: Option<nat>)
    requires forall j, k :: 0 <= j < k < |scheds| ==> scheds[j] != scheds[k]
    requires !P.Bypasses(insn.d) ==> P.FirstFree(Values(scheds), insn.d.fu, 0).Some?
    modifies scheds
    ensures x == if P.Bypasses(insn.d) then None else P.FirstFree(old(Values(scheds)), insn.d.fu, 0)
    ensures x.Some? ==> x.value < |scheds|
    ensures Values(scheds) ==
      if x.Some? then old(Values(scheds))[x.value := old(Values(scheds))[x.value].Take()] else old(Values(scheds))
    ensures Latches(scheds) ==
      if x.Some? then old(Latches(scheds))[x.value := old(Latches(scheds))[x.value] + [insn.id]] else old(Latches(scheds))
  {
    hide P.FirstFree;
    x := None;
    var d := insn.d;
    if !(d.excp.Some? || (d.fu == CSR && d.subOp == CSR_FENCE) || (d.fu == ALU && d.isaRd == 0)
      || (d.fu == CSR && d.subOp == CSR_MRET)) {
      x := FindFree(scheds, d.fu);
      ghost var before := Values(scheds);
      scheds[x.value].Enqueue(insn.id);
      assert Values(scheds) == before[x.value := before[x.value].Take()];
    }
  }

  lemma NoIds(ls: seq<seq<nat>>, pkg: seq<Insn>)
    ensures ls == WithIds(ls, pkg, [])
  {
    assert forall k :: 0 <= k < |ls| ==> WithIds(ls, pkg, [])[k] == ls[k];
  }

  lemma IdsNext(ls: seq<seq<nat>>, pkg: seq<Insn>, at: seq<Option<nat>>, x: Option<nat>)
    requires |at| < |pkg| && (x.Some? ==> x.value < |ls|)
    ensures var now := WithIds(ls, pkg, at);
      WithIds(ls, pkg, at + [x]) == if x.Some? then now[x.value := now[x.value] + [pkg[|at|].id]] else now
  {
    assert (at + [x])[..|at|] == at;
    var now, next := WithIds(ls, pkg, at), WithIds(ls, pkg, at + [x]);
    forall k | 0 <= k < |ls| ensures next[k] == if x == Some(k) then now[k] + [pkg[|at|].id] else now[k] {
    }
  }

  function Min3(a: nat, b: nat, c: nat): nat { Min(Min(a, b), c) }

  // How many instructions of a package the three dry runs together allow.
  function TakenCount(c: R.Core, ss: seq<P.Sched>, ds: seq<Decoded>): (n: nat)
    requires c.Valid()
    ensures n <= |ds|
  {
    Min3(R.FitCount(ds, c.rcu.rob.size - |c.rcu.rob.elems|, |c.rcu.free|),
         L.FitCount(ds, c.lsq.ldq.size - |c.lsq.ldq.elems|, c.lsq.stq.size - |c.lsq.stq.elems|),
         P.DryRun(ss, P.StartPorts(ss), ds, true))
  }

  // It is the least of the three: none allows fewer, and one allows no more.
  lemma TakenIsLeast(c: R.Core, ss: seq<P.Sched>, ds: seq<Decoded>)
    requires c.Valid()
    ensures var n := TakenCount(c, ss, ds);
      var rcuFit := R.FitCount(ds, c.rcu.rob.size - |c.rcu.rob.elems|, |c.rcu.free|);
      var lsqFit := L.FitCount(ds, c.lsq.ldq.size - |c.lsq.ldq.elems|, c.lsq.stq.size - |c.lsq.stq.elems|);
      var portFit := P.DryRun(ss, P.StartPorts(ss), ds, true);
      && n <= rcuFit && n <= lsqFit && n <= portFit && (n == rcuFit || n == lsqFit || n == portFit)
  {
  }

  // What the minimum allows fits everywhere: the reorder buffer, the free list, both queues
  // and the schedulers. So no queue overflows, no empty free list is popped, and the dispatch
  // assertion holds.
  lemma TakenCountFits(c: R.Core, ss: seq<P.Sched>, xs: seq<Item>, n: nat)
    requires c.Valid() && P.FullBudget(ss) && (forall i :: 0 <= i < |xs| ==> xs[i].d.WellDecoded())
    requires n == TakenCount(c, ss, Decodeds(xs))
    ensures TakesFit(c.rcu, Decodeds(xs), n) && RoomFor(c.lsq, xs, n) && P.Dispatched(ss, Decodeds(xs), n).Some?
    ensures forall i :: 0 <= i < n - 1 ==> xs[i].d.excp.None? && !xs[i].d.controlFlow
  {
    hide R.AllBelow, R.EntriesInRange, R.TagsInRange, P.Dispatched, P.DryRun, P.StartPorts, R.FitCount, L.FitCount,
      P.FullBudget;
    var ds := Decodeds(xs);
    RcuFitIsLongest(ds, c.rcu.rob.size - |c.rcu.rob.elems|, |c.rcu.free|, n);
    LsqFitIsLongest(ds, c.lsq.ldq.size - |c.lsq.ldq.elems|, c.lsq.stq.size - |c.lsq.stq.elems|, n);
    P.DryRunIsSound(ss, ds, true, n);
    forall i | 0 <= i < n - 1 ensures xs[i].d.excp.None? && !xs[i].d.controlFlow {
      P.DryRunStops(ss, P.StartPorts(ss), ds, i);
    }
  }

  lemma TagsInRange(l: L.Lsq, xs: seq<Item>, n: nat)
    requires RoomFor(l, xs, n)
    ensures forall i :: 0 <= i < n ==>
      && (xs[i].d.fu == LDU ==> TagOf(l, xs, n, i) < l.ldq.size) && (xs[i].d.fu == STU ==> TagOf(l, xs, n, i) < l.stq.size)
  {
  }

  class Dispatch {
    const rcu: Rcu
    const scheds: seq<Scheduler>

    constructor (rcu: Rcu, scheds: seq<Scheduler>)
      ensures this.rcu == rcu && this.scheds == scheds
    { this.rcu, this.scheds := rcu, scheds; }

    ghost predicate Ready(pkg: seq<Insn>)
      reads rcu.Repr(), scheds, pkg
    {
      && rcu.Valid() && rcu.intRegfile.Length > 0 && Distinct(pkg)
      && (forall j, k :: 0 <= j < k < |scheds| ==> scheds[j] != scheds[k])
      && (forall i :: 0 <= i < |pkg| ==> pkg[i].d.WellDecoded() && pkg[i].lsqTag == 0 && pkg[i].phyRd == 0)
      && P.FullBudget(Values(scheds))
    }

    // The three dry runs.
    method TryAll(pkg: seq<Insn>) returns (taken: nat)
      requires rcu.Valid()
      ensures rcu.Valid() && rcu.View() == old(rcu.View()) && Values(scheds) == old(Values(scheds))
      ensures taken == TakenCount(rcu.View(), Values(scheds), DecodedsOf(pkg))
    {
      hide P.DryRun, P.StartPorts, R.FitCount, L.FitCount, LoopQueue.View, R.Core.Valid, R.Rcu.Valid;
      var lsqCount := rcu.lsq.TryAllocate(pkg);
      var rcuCount := rcu.TryAllocate(pkg);
      var portCount := TryDispatch(scheds, pkg, true);
      taken := Min3(rcuCount, lsqCount, portCount);
    }

    // Lsq::Allocate, then Rcu::Allocate.
    method AllocateAll(pkg: seq<Insn>, n: nat)
      requires rcu.Valid() && rcu.intRegfile.Length > 0 && Distinct(pkg)
      requires forall i :: 0 <= i < |pkg| ==> pkg[i].lsqTag == 0 && pkg[i].phyRd == 0
      requires n <= |pkg| && RoomFor(rcu.View().lsq, Fresh(pkg), n) && TakesFit(rcu.View().rcu, DecodedsOf(pkg), n)
      modifies rcu, rcu.rob, rcu.rob.dataVec, rcu.intFreelist, rcu.intBusylist.flags, rcu.intRenameTable.alias, rcu.lsq.Repr()
      modifies Insns(pkg)`phyRs1, Insns(pkg)`phyRs2, Insns(pkg)`phyRd, Insns(pkg)`lphyRd, Insns(pkg)`robTag, Insns(pkg)`lsqTag
      ensures rcu.Valid() && Decodeds(Items(pkg)) == DecodedsOf(pkg)
      ensures rcu.View() == R.Core(AllocateMany(old(rcu.View()).rcu, Items(pkg), n),
        QueueMany(old(rcu.View()).lsq, Fresh(pkg), n))
      ensures forall i :: 0 <= i < n ==> pkg[i].lsqTag == TagOf(old(rcu.View()).lsq, Fresh(pkg), n, i)
    {
      hide QueueMany, TagOf, RoomFor, TakesFit, AllocateMany, LoopQueue.View, LoopQueue.Valid, Lsq.View, Lsq.Valid,
        Rcu.Separate, Rcu.Regs, Rcu.Valid, Rcu.Repr, Lsq.Repr, R.Core.Valid, R.Rcu.Valid, Kinds, Writers,
        Decoded.WellDecoded, NamesAsSingly, SlotsAsSingly;
      ghost var l, xs := rcu.lsq.View(), Fresh(pkg);
      TagsInRange(l, xs, n);
      assert forall i :: 0 <= i < n ==> xs[i].d == pkg[i].d;
      rcu.AllocateQueues(pkg, n);
      ghost var ys := Items(pkg);
      assert Decodeds(ys) == DecodedsOf(pkg);
      rcu.Allocate(pkg, n);
      assert forall i :: 0 <= i < n ==> pkg[i].lsqTag == ys[i].lsqTag;
    }

    // While the machine recovers the package waits; otherwise the prefix all three dry runs
    // allow is taken, with the state that taking its instructions singly in order gives.
    method Evaluate(pkg: seq<Insn>) returns (stalled: bool, taken: nat)
      requires Ready(pkg)
      modifies rcu.Repr(), scheds, Insns(pkg)
      ensures rcu.Valid() && stalled == (old(rcu.robState) != R.Idle)
      ensures stalled ==> taken == 0 && rcu.View() == old(rcu.View()) && Values(scheds) == old(Values(scheds))
      ensures !stalled ==>
        && taken == TakenCount(old(rcu.View()), old(Values(scheds)), DecodedsOf(pkg))
        && RoomFor(old(rcu.View()).lsq, Fresh(pkg), taken) && TakesFit(old(rcu.View()).rcu, Decodeds(Items(pkg)), taken)
        && rcu.View() == R.Core(AllocateMany(old(rcu.View()).rcu, Items(pkg), taken),
          QueueMany(old(rcu.View()).lsq, Fresh(pkg), taken))
        && Some(Values(scheds)) == P.Dispatched(old(Values(scheds)), DecodedsOf(pkg), taken)
        && forall i :: 0 <= i < taken ==> pkg[i].lsqTag == TagOf(old(rcu.View()).lsq, Fresh(pkg), taken, i)
    {
      hide QueueMany, TagOf, RoomFor, TakesFit, AllocateMany, TakenCount, P.Dispatched, P.DryRun, P.StartPorts,
        P.FullBudget, R.FitCount, L.FitCount, Values, LoopQueue.View, LoopQueue.Valid, Lsq.View, Lsq.Valid,
        Rcu.Separate, Rcu.Regs, Rcu.Valid, R.Core.Valid, R.Rcu.Valid, Kinds, Writers, Decoded.WellDecoded;
      stalled, taken := false, 0;
      if rcu.robState != R.Idle {
        stalled := true;
      } else {
        ghost var c, ss, xs := rcu.View(), Values(scheds), Fresh(pkg);
        taken := TryAll(pkg);
        assert Decodeds(xs) == DecodedsOf(pkg);
        TakenCountFits(c, ss, xs, taken);
        TakeAll(pkg, taken);
      }
    }

    // Allocation in both units, then the schedulers.
    method TakeAll(pkg: seq<Insn>, n: nat)
      requires Ready(pkg) && RoomFor(rcu.View().lsq, Fresh(pkg), n) && TakesFit(rcu.View().rcu, DecodedsOf(pkg), n)
      requires n <= |pkg| && P.Dispatched(Values(scheds), DecodedsOf(pkg), n).Some?
      modifies rcu.Repr(), scheds, Insns(pkg)
      ensures rcu.Valid() && Decodeds(Items(pkg)) == DecodedsOf(pkg)
      ensures rcu.View() == R.Core(AllocateMany(old(rcu.View()).rcu, Items(pkg), n),
        QueueMany(old(rcu.View()).lsq, Fresh(pkg), n))
      ensures forall i :: 0 <= i < n ==> pkg[i].lsqTag == TagOf(old(rcu.View()).lsq, Fresh(pkg), n, i)
      ensures Some(Values(scheds)) == P.Dispatched(old(Values(scheds)), DecodedsOf(pkg), n)
    {
      hide QueueMany, TagOf, RoomFor, TakesFit, AllocateMany, P.Dispatched, P.FullBudget, Values, LoopQueue.View,
        LoopQueue.Valid, Lsq.View, Lsq.Valid, Rcu.Separate, Rcu.Regs, Rcu.Valid, Rcu.View, R.Core.Valid, R.Rcu.Valid,
        Kinds, Writers, Decoded.WellDecoded;
      ghost var ss := Values(scheds);
      assert forall k :: 0 <= k < |scheds| ==> (scheds[k] as object) !in rcu.Repr();
      AllocateAll(pkg, n);
      assert forall k :: 0 <= k < |scheds| ==> scheds[k].Value() == ss[k];
      assert Values(scheds) == ss;
      hide Rcu.Repr, Lsq.Repr;
      Enter(pkg, n);
    }

    // DispatchInsn leaves the reorder unit and the package alone.
    method Enter(pkg: seq<Insn>, n: nat)
      requires rcu.Valid() && n <= |pkg| && P.Dispatched(Values(scheds), DecodedsOf(pkg), n).Some?
      requires forall j, k :: 0 <= j < k < |scheds| ==> scheds[j] != scheds[k]
      modifies scheds
      ensures rcu.Valid() && rcu.View() == old(rcu.View()) && Items(pkg) == old(Items(pkg))
      ensures Some(Values(scheds)) == P.Dispatched(old(Values(scheds)), DecodedsOf(pkg), n)
    {
      hide P.Dispatched, Values, R.Core.Valid, R.Rcu.Valid, Items, Decodeds, LoopQueue.View, LoopQueue.Valid, Lsq.View;
      assert forall k :: 0 <= k < |scheds| ==> (scheds[k] as object) !in rcu.Repr();
      hide Lsq.Valid, Rcu.Separate, Rcu.Regs, Rcu.Valid, Rcu.View, Rcu.Repr, Lsq.Repr;
      ghost var at := DispatchInsn(scheds, pkg, n);
      assert Items(pkg) == old(Items(pkg));
    }
  }
}
