// The in-age-order reservation station, updated in place
// (src/Processor/Component/Schedular/ResvrStation/RS_InAgeOrder.hh, Schedular/BaseSchedular.hh),
// and the operand-read port (RfReadPort.cc), proved against Station.
module ResvrStation {
  import opened DynInsn
  import S = Station
  import R = RcuSpec

  // A functional unit, as far as a scheduler sees it (FuncUnit/BaseFuncUnit.hh:65-76, 111-119).
  class FuncUnit {
    const supportFunc: set<FuncType>
    const pipelined: bool
    var stalled: bool
    var drained: bool
    var reserved: bool
    var inPort: Option<Insn>

    constructor (supportFunc: set<FuncType>, pipelined: bool)
      ensures this.supportFunc == supportFunc && this.pipelined == pipelined && !Busy() && inPort.None?
    {
      this.supportFunc, this.pipelined := supportFunc, pipelined;
      stalled, drained, reserved, inPort := false, true, false, None;
    }

    predicate Busy()
      reads this
    {
      if pipelined then stalled || reserved else !drained || stalled || reserved
    }

    method Issue(insn: Insn)
      requires insn.d.fu in supportFunc
      modifies this
      ensures reserved && inPort == Some(insn) && stalled == old(stalled) && drained == old(drained)
    {
      reserved := true;
      inPort := Some(insn);
    }
  }

  // Another scheduler behind this one, as far as this one sees it: room, an enqueue budget, and
  // the latch an instruction is scheduled into.
  class SubSchedular {
    const supportFunc: set<FuncType>
    var availible: nat
    var allocatedCount: nat
    var enqueLatch: seq<Insn>

    constructor (supportFunc: set<FuncType>, entryCount: nat, enqueWidth: nat)
      ensures this.supportFunc == supportFunc && availible == entryCount && allocatedCount == enqueWidth && enqueLatch == []
    {
      this.supportFunc, availible, allocatedCount, enqueLatch := supportFunc, entryCount, enqueWidth, [];
    }

    predicate Busy()
      reads this
    { availible == 0 || allocatedCount == 0 }

    // Allocate, then Schedule.
    method Enqueue(insn: Insn)
      requires !Busy() && insn.d.fu in supportFunc
      modifies this
      ensures enqueLatch == old(enqueLatch) + [insn]
      ensures availible == old(availible) - 1 && allocatedCount == old(allocatedCount) - 1
    {
      availible, allocatedCount, enqueLatch := availible - 1, allocatedCount - 1, enqueLatch + [insn];
    }
  }

  function WaiterOf(insn: Insn): S.Waiter
    reads insn
  {
    S.Waiter(insn.id, insn.d, insn.phyRs1, insn.phyRs2,
             if insn.operand1Ready then Some(insn.operand1) else None,
             if insn.operand2Ready then Some(insn.operand2) else None)
  }

  // RfReadPort::Evaluate, up to the hand-over.
  method ReadOperands(insn: Insn, busy: seq<R.Busy>, regs: seq<Val>, ghost done: seq<bool>)
    requires insn.phyRs1 < |busy| == |regs| == |done| && insn.phyRs2 < |busy|
    requires forall p :: 0 <= p < |busy| ==> done[p] == busy[p].done
    modifies insn`operand1, insn`operand1Ready, insn`operand2, insn`operand2Ready
    ensures WaiterOf(insn) == S.ReadOperands(old(WaiterOf(insn)), done, regs)
  {
    if insn.d.rs1Type == INT && !insn.operand1Ready {
      if busy[insn.phyRs1].done {
        insn.operand1 := regs[insn.phyRs1];
        insn.operand1Ready := true;
      }
    }
    if insn.d.rs2Type == INT && !insn.operand2Ready {
      if busy[insn.phyRs2].done {
        insn.operand2 := regs[insn.phyRs2];
        insn.operand2Ready := true;
      }
    }
  }

  // No instruction sits in two busy slots.
  ghost predicate Alone(queue: seq<Insn?>, busy: seq<nat>) {
    && (forall i :: 0 <= i < |busy| ==> busy[i] < |queue|)
    && forall i, j :: 0 <= i < j < |busy| && queue[busy[i]] != null ==> queue[busy[i]] != queue[busy[j]]
  }

  // What the latch holds goes to reserved, still empty, distinct slots.
  ghost predicate LatchFits(latch: seq<(nat, Insn)>, queue: seq<Insn?>, busy: seq<nat>) {
    && (forall k :: 0 <= k < |latch| ==> latch[k].0 < |queue| && latch[k].0 in busy && queue[latch[k].0] == null)
    && (forall j, k :: 0 <= j < k < |latch| ==> latch[j].0 != latch[k].0 && latch[j].1 != latch[k].1)
    && (forall i :: 0 <= i < |busy| ==> busy[i] < |queue|)
    && (forall i, k :: 0 <= i < |busy| && 0 <= k < |latch| ==> queue[busy[i]] != latch[k].1)
  }

  // What the busy slots hold; a free slot may keep a stale pointer.
  ghost function SlotsOf(queue: seq<Insn?>, busy: seq<nat>): (s: seq<Option<S.Waiter>>)
    reads queue
    ensures |s| == |queue|
    ensures forall i :: 0 <= i < |s| ==> s[i] == if i in busy && queue[i] != null then Some(WaiterOf(queue[i])) else None
  {
    seq(|queue|, i requires 0 <= i < |queue| reads queue => if i in busy && queue[i] != null
      then Some(WaiterOf(queue[i])) else None)
  }

  ghost function LatchOf(latch: seq<(nat, Insn)>): (q: seq<(nat, S.Waiter)>)
    reads set k | 0 <= k < |latch| :: latch[k].1
    ensures |q| == |latch| && forall k :: 0 <= k < |q| ==> q[k] == (latch[k].0, WaiterOf(latch[k].1))
  {
    seq(|latch|, k requires 0 <= k < |latch| reads set j | 0 <= j < |latch| :: latch[j].1 => (latch[k].0, WaiterOf(latch[k].1)))
  }

  lemma AllocateSlots(latch: seq<(nat, Insn)>, queue: seq<Insn?>, busy: seq<nat>, i: nat)
    requires i < |queue| && i !in busy && Alone(queue, busy) && LatchFits(latch, queue, busy)
    ensures SlotsOf(queue[i := null], busy + [i]) == SlotsOf(queue, busy)[i := None]
    ensures Alone(queue[i := null], busy + [i]) && LatchFits(latch, queue[i := null], busy + [i])
  {
    assert forall x :: x in busy + [i] <==> x in busy || x == i;
    assert SlotsOf(queue[i := null], busy + [i]) == SlotsOf(queue, busy)[i := None];
  }

  lemma LeaveSlots(latch: seq<(nat, Insn)>, queue: seq<Insn?>, busy: seq<nat>, k: nat)
    requires k < |busy| && Alone(queue, busy) && LatchFits(latch, queue, busy) && queue[busy[k]] != null
    requires forall i, j :: 0 <= i < j < |busy| ==> busy[i] != busy[j]
    ensures SlotsOf(queue[busy[k] := null], Without(busy, k)) == SlotsOf(queue, busy)[busy[k] := None]
    ensures Alone(queue[busy[k] := null], Without(busy, k)) && LatchFits(latch, queue[busy[k] := null], Without(busy, k))
  {
    forall x | x in busy && x != busy[k] ensures x in Without(busy, k) {
      var j :| 0 <= j < |busy| && busy[j] == x;
      assert Without(busy, k)[if j < k then j else j - 1] == x;
    }
    assert forall x :: x in Without(busy, k) <==> x in busy && x != busy[k];
    assert SlotsOf(queue[busy[k] := null], Without(busy, k)) == SlotsOf(queue, busy)[busy[k] := None];
  }

  lemma LeavePair(latch: seq<(nat, Insn)>, queue: seq<Insn?>, free: seq<nat>, busy: seq<nat>, k: nat)
    requires S.Partition(free, busy, |queue|) && k < |busy| && Alone(queue, busy) && LatchFits(latch, queue, busy)
      && queue[busy[k]] != null
    ensures S.Partition(free + [busy[k]], Without(busy, k), |queue|)
    ensures SlotsOf(queue[busy[k] := null], Without(busy, k)) == SlotsOf(queue, busy)[busy[k] := None]
    ensures Alone(queue[busy[k] := null], Without(busy, k)) && LatchFits(latch, queue[busy[k] := null], Without(busy, k))
  {
    S.PartitionLeave(free, busy, |queue|, k);
    LeaveSlots(latch, queue, busy, k);
  }

  lemma BusyInside(free: seq<nat>, busy: seq<nat>, n: nat)
    requires S.Partition(free, busy, n)
    ensures forall k :: 0 <= k < |busy| ==> busy[k] < n
  {
  }

  lemma EnterSlot(queue: seq<Insn?>, busy: seq<nat>, i: nat, insn: Insn)
    requires i < |queue| && i in busy && Alone(queue, busy) && forall k :: 0 <= k < |busy| ==> queue[busy[k]] != insn
    requires forall j, k :: 0 <= j < k < |busy| ==> busy[j] != busy[k]
    ensures SlotsOf(queue[i := insn], busy) == SlotsOf(queue, busy)[i := Some(WaiterOf(insn))] && Alone(queue[i := insn], busy)
  {
  }

  class InAgeOrder {
    const enqueWidth: nat
    const dequeWidth: nat
    const issueQueue: array<Insn?>
    const funcUnits: seq<FuncUnit>
    const subSchedular: seq<SubSchedular>
    var freeList: seq<nat>
    var bustList: seq<nat>
    var allocatedCount: nat
    var enqueLatch: seq<(nat, Insn)>

    ghost predicate Valid()
      reads this, issueQueue
    {
      && S.Partition(freeList, bustList, issueQueue.Length) && allocatedCount <= enqueWidth
      && Alone(issueQueue[..], bustList) && LatchFits(enqueLatch, issueQueue[..], bustList)
    }

    ghost function View(): S.Station
      reads this, issueQueue, issueQueue[..], set k | 0 <= k < |enqueLatch| :: enqueLatch[k].1
    {
      S.Station(SlotsOf(issueQueue[..], bustList), freeList, bustList, [], LatchOf(enqueLatch), allocatedCount, enqueWidth)
    }

    // Whether some unit or some scheduler behind takes the kind now.
    ghost predicate HasUnit(f: FuncType)
      reads funcUnits
    {
      exists k :: 0 <= k < |funcUnits| && f in funcUnits[k].supportFunc && !funcUnits[k].Busy()
    }

    ghost predicate HasSub(f: FuncType)
      reads subSchedular
    {
      exists k :: 0 <= k < |subSchedular| && f in subSchedular[k].supportFunc && !subSchedular[k].Busy()
    }

    ghost function Units(): set<FuncType>
      reads funcUnits, subSchedular
    {
      set f: FuncType | HasUnit(f) || HasSub(f)
    }

    constructor (entryCount: nat, enqueWidth: nat, dequeWidth: nat, funcUnits: seq<FuncUnit>,
        subSchedular: seq<SubSchedular>)
      ensures this.enqueWidth == enqueWidth && this.dequeWidth == dequeWidth && this.funcUnits == funcUnits
      ensures this.subSchedular == subSchedular
      ensures fresh(issueQueue) && issueQueue.Length == entryCount && freeList == [] && bustList == [] && enqueLatch == []
    {
      this.enqueWidth, this.dequeWidth := enqueWidth, dequeWidth;
      this.funcUnits, this.subSchedular := funcUnits, subSchedular;
      issueQueue := new Insn?[entryCount](_ => null);
      freeList, bustList, allocatedCount, enqueLatch := [], [], 0, [];
    }

    // Every slot becomes free; what the slots point to stays.
    method Reset()
      modifies this`freeList, this`bustList
      ensures freeList == seq(issueQueue.Length, i => i) && bustList == []
    {
      bustList := [];
      freeList := [];
      for i := 0 to issueQueue.Length
        invariant freeList == seq(i, j => j) && bustList == []
      {
        freeList := freeList + [i];
      }
    }

    predicate IssueQueueFull()
      reads this
    { freeList == [] }

    predicate Empty()
      reads this
    { bustList == [] }

    predicate Busy()
      reads this
    { IssueQueueFull() || allocatedCount == 0 }

    function GetAvailibleEntryCount(): nat
      reads this
    { |freeList| }

    method Allocate() returns (entryIndex: nat)
      requires Valid() && !Busy()
      modifies this`freeList, this`bustList, this`allocatedCount, issueQueue
      ensures Valid() && old(View()).free[0] < |old(View()).slots|
      ensures View() == S.AllocateEntry(old(View())).0 && entryIndex == S.AllocateEntry(old(View())).1
    {
      hide Alone, LatchFits, SlotsOf, LatchOf, WaiterOf;
      entryIndex := freeList[0];
      S.PartitionHand(freeList, bustList, issueQueue.Length);
      assert entryIndex < issueQueue.Length && entryIndex !in bustList;
      hide S.Partition;
      AllocateSlots(enqueLatch, issueQueue[..], bustList, entryIndex);
      bustList := bustList + [entryIndex];
      freeList := freeList[1..];
      issueQueue[entryIndex] := null;
      allocatedCount := allocatedCount - 1;
      assert issueQueue[..] == old(issueQueue[..])[entryIndex := null];
    }

    method Schedule(insn: Insn, index: nat)
      requires Valid() && index < issueQueue.Length && LatchFits(enqueLatch + [(index, insn)], issueQueue[..], bustList)
      modifies this`enqueLatch
      ensures Valid() && View() == old(View()).(latch := old(View()).latch + [(index, WaiterOf(insn))])
    {
      enqueLatch := enqueLatch + [(index, insn)];
      assert LatchOf(enqueLatch) == old(LatchOf(enqueLatch)) + [(index, WaiterOf(insn))];
    }

    method Dispatch(insn: Insn, index: nat)
      requires S.Partition(freeList, bustList, issueQueue.Length) && Alone(issueQueue[..], bustList) && index in bustList
      requires forall k :: 0 <= k < |bustList| ==> bustList[k] < issueQueue.Length && issueQueue[bustList[k]] != insn
      modifies issueQueue
      ensures Alone(issueQueue[..], bustList) && issueQueue[..] == old(issueQueue[..])[index := insn]
      ensures SlotsOf(issueQueue[..], bustList) == old(SlotsOf(issueQueue[..], bustList))[index := Some(WaiterOf(insn))]
    {
      EnterSlot(issueQueue[..], bustList, index, insn);
      issueQueue[index] := insn;
    }

    // The first idle unit that takes the kind, or else the first scheduler behind with room.
    method HandOver(insn: Insn) returns (taken: bool)
      modifies funcUnits, subSchedular
      ensures taken == old(insn.d.fu in Units())
      ensures !taken ==> forall v :: 0 <= v < |funcUnits| ==> unchanged(funcUnits[v])
      ensures !taken ==> forall v :: 0 <= v < |subSchedular| ==> unchanged(subSchedular[v])
      ensures taken && old(HasUnit(insn.d.fu)) ==>
        exists u :: 0 <= u < |funcUnits| && old(!funcUnits[u].Busy()) && funcUnits[u].inPort == Some(insn)
      ensures taken && !old(HasUnit(insn.d.fu)) ==>
        exists u :: 0 <= u < |subSchedular| && old(!subSchedular[u].Busy())
          && subSchedular[u].enqueLatch == old(subSchedular[u].enqueLatch) + [insn]
    {
      taken := false;
      for u := 0 to |funcUnits|
        invariant forall v :: 0 <= v < u ==> !(insn.d.fu in funcUnits[v].supportFunc && !funcUnits[v].Busy())
        invariant forall v :: 0 <= v < |funcUnits| ==> unchanged(funcUnits[v])
        invariant forall v :: 0 <= v < |subSchedular| ==> unchanged(subSchedular[v])
      {
        if insn.d.fu in funcUnits[u].supportFunc && !funcUnits[u].Busy() {
          assert HasUnit(insn.d.fu);
          funcUnits[u].Issue(insn);
          return true;
        }
      }
      assert !HasUnit(insn.d.fu);
      for u := 0 to |subSchedular|
        invariant forall v :: 0 <= v < u ==> !(insn.d.fu in subSchedular[v].supportFunc && !subSchedular[v].Busy())
        invariant forall v :: 0 <= v < |funcUnits| ==> unchanged(funcUnits[v])
        invariant forall v :: 0 <= v < |subSchedular| ==> unchanged(subSchedular[v])
      {
        if insn.d.fu in subSchedular[u].supportFunc && !subSchedular[u].Busy() {
          assert HasSub(insn.d.fu);
          subSchedular[u].Enqueue(insn);
          return true;
        }
      }
      assert !HasSub(insn.d.fu);
    }

    // Why selection passes over a slot: it is reserved only, or its instruction still awaits an
    // operand, or nothing behind takes its kind.
    ghost predicate Passed(i: nat)
      requires i < issueQueue.Length
      reads this, issueQueue, issueQueue[..], funcUnits, subSchedular
    {
      var insn := issueQueue[i];
      insn != null ==>
        (insn.d.rs1Type == INT && !insn.operand1Ready) || (insn.d.rs2Type == INT && !insn.operand2Ready)
        || insn.d.fu !in Units()
    }

    lemma PassedIsNotGo()
      requires Valid()
      ensures forall j :: 0 <= j < |bustList| ==>
        bustList[j] < issueQueue.Length && (Passed(bustList[j]) <==> !S.CanGo(View().slots[bustList[j]], Units()))
    {
      hide LatchFits, LatchOf, Units;
    }

    // The oldest entry that holds a ready instruction and finds a free unit leaves the busy list
    // and goes to the first such unit.
    method IssueSelect() returns (index: nat, success: bool, ghost k: nat)
      requires Valid()
      modifies this`bustList, funcUnits, subSchedular
      ensures S.Select(old(View()), old(Units()), 0) == if success then Some(k) else None
      ensures !success ==> bustList == old(bustList) && Units() == old(Units()) && k == |bustList|
      ensures k <= |old(bustList)|
      ensures forall j :: 0 <= j < k ==> old(bustList[j] < issueQueue.Length && Passed(bustList[j]))
      ensures success ==>
        && k < |old(bustList)| && index == old(bustList)[k] && bustList == Without(old(bustList), k)
        && index < issueQueue.Length && issueQueue[index] != null
        && var insn := issueQueue[index];
           && insn.d.fu in old(Units())
           && (insn.d.rs1Type == INT ==> insn.operand1Ready) && (insn.d.rs2Type == INT ==> insn.operand2Ready)
           && if old(HasUnit(insn.d.fu)) then
                exists u :: 0 <= u < |funcUnits| && old(!funcUnits[u].Busy()) && funcUnits[u].inPort == Some(insn)
              else
                exists u :: 0 <= u < |subSchedular| && old(!subSchedular[u].Busy())
                  && subSchedular[u].enqueLatch == old(subSchedular[u].enqueLatch) + [insn]
    {
      index, success, k := 0, false, 0;
      ghost var st, units := View(), Units();
      PassedIsNotGo();
      BusyInside(freeList, bustList, issueQueue.Length);
      hide LatchFits, LatchOf, Units, Passed, Alone, HasUnit, HasSub, S.Partition, FuncUnit.Busy, SubSchedular.Busy;
      for i := 0 to |bustList|
        invariant !success && bustList == old(bustList) && S.Select(st, units, 0) == S.Select(st, units, i) && k == i
        invariant forall v :: 0 <= v < |funcUnits| ==> unchanged(funcUnits[v])
        invariant forall v :: 0 <= v < |subSchedular| ==> unchanged(subSchedular[v])
      {
        index := bustList[i];
        var insn := issueQueue[index];
        assert index in bustList && st.slots[st.busy[i]] == if insn != null then Some(WaiterOf(insn)) else None;
        if insn != null {
          if !((insn.d.rs1Type == INT && !insn.operand1Ready) || (insn.d.rs2Type == INT && !insn.operand2Ready)) {
            success := HandOver(insn);
            if success {
              bustList := bustList[..i] + bustList[i + 1..];
              return;
            }
          }
        }
        k := k + 1;
      }
    }

    method Deallocate(index: nat)
      requires index < issueQueue.Length
      modifies this`freeList, issueQueue
      ensures freeList == old(freeList) + [index] && issueQueue[..] == old(issueQueue[..])[index := null]
    {
      freeList := freeList + [index];
      issueQueue[index] := null;
    }

    // One turn of Evaluate.
    method IssueOne() returns (success: bool)
      requires Valid()
      modifies this`bustList, this`freeList, issueQueue, funcUnits, subSchedular
      ensures Valid() && success == S.Select(old(View()), old(Units()), 0).Some?
      ensures View() == if success then S.Leave(old(View()), S.Select(old(View()), old(Units()), 0).value) else old(View())
      ensures !success ==> Units() == old(Units())
      ensures forall j :: 0 <= j < |old(View()).busy| ==> old(View()).busy[j] < |old(View()).slots|
    {
      hide S.Select, S.CanGo, S.Partition, Alone, LatchFits, Units, HasUnit, HasSub, SubSchedular.Busy, FuncUnit.Busy,
        SlotsOf, LatchOf, WaiterOf;
      BusyInside(freeList, bustList, issueQueue.Length);
      ghost var st, queue, r := View(), issueQueue[..], S.Select(View(), Units(), 0);
      var index;
      ghost var k;
      index, success, k := IssueSelect();
      if success {
        Deallocate(index);
        assert SlotsOf(queue, st.busy) == st.slots && LatchOf(enqueLatch) == st.latch;
        LeavePair(enqueLatch, queue, st.free, st.busy, k);
      }
    }

    // Up to DequeWidth instructions leave, oldest first; `us` are the kinds of unit free each time.
    method Evaluate() returns (ghost us: seq<set<FuncType>>)
      requires Valid()
      modifies this`bustList, this`freeList, issueQueue, funcUnits, subSchedular
      ensures Valid() && |us| <= dequeWidth && AllGo(old(View()), us) == Some(View())
      ensures |us| < dequeWidth ==> bustList == [] || S.Select(View(), Units(), 0).None?
    {
      hide S.Partition, S.Select, S.Leave, Alone, LatchFits, SlotsOf, LatchOf, WaiterOf, Units, HasUnit, HasSub,
        SubSchedular.Busy, View, AllGo, FuncUnit.Busy, Valid;
      us := [];
      NoneGo(View());
      for i := 0 to dequeWidth
        invariant Valid() && |us| == i && AllGo(old(View()), us) == Some(View())
      {
        if Empty() {
          return;
        }
        ghost var units := Units();
        ghost var st := View();
        var success := IssueOne();
        if !success {
          return;
        }
        GoOn(old(View()), us, units, st);
        us := us + [units];
      }
    }

    ghost predicate Holds(insn: Insn)
      reads this, issueQueue
    {
      exists k :: 0 <= k < |bustList| && bustList[k] < issueQueue.Length && issueQueue[bustList[k]] == insn
    }

    ghost function Waiting(): set<Insn>
      reads this, issueQueue
    {
      set insn: Insn | insn in issueQueue[..] && Holds(insn)
    }

    // A broadcast reaches every waiting instruction of the busy list.
    method Forwarding(insn: Insn)
      requires Valid() && !Holds(insn)
      modifies Waiting()
      ensures Valid() && View() == S.Forward(old(View()), insn.d, insn.phyRd, insn.rdResult)
    {
      if insn.d.rdType != NONE && insn.phyRd != 0 && !Empty() {
        assert forall k :: 0 <= k < |enqueLatch| ==> enqueLatch[k].1 !in Waiting();
        hide S.Partition, S.Wake1, Alone, LatchFits, Holds, Waiting;
        WakeAll(insn);
        assert LatchOf(enqueLatch) == old(LatchOf(enqueLatch));
        ghost var slots, was := SlotsOf(issueQueue[..], bustList), old(View());
        forall i | 0 <= i < issueQueue.Length
          ensures slots[i] == if i in bustList && was.slots[i].Some?
            then Some(S.Wake1(was.slots[i].value, insn.d, insn.phyRd, insn.rdResult)) else was.slots[i]
        {
          if i in bustList && issueQueue[i] != null {
            var j :| 0 <= j < |bustList| && bustList[j] == i;
          }
        }
        assert slots == S.Forward(was, insn.d, insn.phyRd, insn.rdResult).slots;
      }
    }

    method WakeAll(insn: Insn)
      requires Valid() && !Holds(insn)
      modifies Waiting()
      ensures forall j :: 0 <= j < |bustList| && issueQueue[bustList[j]] != null ==>
        WaiterOf(issueQueue[bustList[j]]) == S.Wake1(old(WaiterOf(issueQueue[bustList[j]])), insn.d, insn.phyRd, insn.rdResult)
    {
      hide S.Partition, S.Wake1, LatchFits;
      for k := 0 to |bustList|
        invariant forall j :: k <= j < |bustList| && issueQueue[bustList[j]] != null ==>
          WaiterOf(issueQueue[bustList[j]]) == old(WaiterOf(issueQueue[bustList[j]]))
        invariant forall j :: 0 <= j < k && issueQueue[bustList[j]] != null ==>
          WaiterOf(issueQueue[bustList[j]]) == S.Wake1(old(WaiterOf(issueQueue[bustList[j]])), insn.d, insn.phyRd, insn.rdResult)
      {
        var w := issueQueue[bustList[k]];
        if w != null {
          assert w in issueQueue[..] && Holds(w);
          Wake(w, insn);
        }
      }
    }

    // The latched instructions enter their slots; a pending flush then frees everything.
    method Advance(flush: bool)
      requires Valid()
      modifies this`allocatedCount, this`enqueLatch, this`freeList, this`bustList, issueQueue
      ensures Valid() && forall k :: 0 <= k < |old(View()).latch| ==> old(View()).latch[k].0 < |old(View()).slots|
      ensures View() == if flush then S.Flush(old(View())) else S.Advance(old(View()))
    {
      if flush {
        FlushAll();
      } else {
        EnterAll();
      }
    }

    method FlushAll()
      requires Valid()
      modifies this`allocatedCount, this`enqueLatch, this`freeList, this`bustList
      ensures Valid() && View() == S.Flush(old(View()))
    {
      hide S.Partition;
      allocatedCount := enqueWidth;
      enqueLatch := [];
      Reset();
      FreshPartition(issueQueue.Length);
      assert SlotsOf(issueQueue[..], []) == seq(issueQueue.Length, i => None);
      assert LatchOf([]) == [];
    }

    method EnterAll()
      requires Valid()
      modifies this`allocatedCount, this`enqueLatch, issueQueue
      ensures Valid() && forall k :: 0 <= k < |old(View()).latch| ==> old(View()).latch[k].0 < |old(View()).slots|
      ensures View() == S.Advance(old(View()))
    {
      hide S.Partition, Alone, SlotsOf, LatchFits, LatchOf, S.EnterAll, WaiterOf;
      LatchInRange(enqueLatch, issueQueue[..], bustList);
      EnterLatch();
      NothingLatched(issueQueue[..], bustList);
      allocatedCount := enqueWidth;
      enqueLatch := [];
    }

    method EnterLatch()
      requires S.Partition(freeList, bustList, issueQueue.Length) && Alone(issueQueue[..], bustList)
      requires LatchFits(enqueLatch, issueQueue[..], bustList)
      modifies issueQueue
      ensures Alone(issueQueue[..], bustList)
      ensures SlotsOf(issueQueue[..], bustList) == S.EnterAll(old(SlotsOf(issueQueue[..], bustList)), old(LatchOf(enqueLatch)))
    {
      LatchInRange(enqueLatch, issueQueue[..], bustList);
      hide S.EnterAll, S.Partition, Alone, LatchOf, LatchFits, SlotsOf, WaiterOf;
      LatchStrange(enqueLatch, issueQueue[..], bustList);
      ghost var slots, q := SlotsOf(issueQueue[..], bustList), LatchOf(enqueLatch);
      EnterNone(slots);
      assert q[..0] == [] && q[..|enqueLatch|] == q;
      for k := 0 to |enqueLatch|
        invariant Alone(issueQueue[..], bustList) && SlotsOf(issueQueue[..], bustList) == S.EnterAll(slots, q[..k])
        invariant forall j :: 0 <= j < |enqueLatch| ==> q[j] == (enqueLatch[j].0, WaiterOf(enqueLatch[j].1))
        invariant forall i :: 0 <= i < |bustList| ==> bustList[i] < issueQueue.Length
        invariant forall i, j :: 0 <= i < |bustList| && k <= j < |enqueLatch| ==> issueQueue[bustList[i]] != enqueLatch[j].1
      {
        EnterNext(slots, q, k);
        Dispatch(enqueLatch[k].1, enqueLatch[k].0);
      }
    }
  }

  lemma NothingLatched(queue: seq<Insn?>, busy: seq<nat>)
    requires forall i :: 0 <= i < |busy| ==> busy[i] < |queue|
    ensures LatchOf([]) == [] && LatchFits([], queue, busy)
  {
  }

  lemma LatchInRange(latch: seq<(nat, Insn)>, queue: seq<Insn?>, busy: seq<nat>)
    requires LatchFits(latch, queue, busy)
    ensures forall k :: 0 <= k < |latch| ==> latch[k].0 < |queue| && latch[k].0 in busy
    ensures forall i :: 0 <= i < |busy| ==> busy[i] < |queue|
  {
  }

  lemma LatchStrange(latch: seq<(nat, Insn)>, queue: seq<Insn?>, busy: seq<nat>)
    requires LatchFits(latch, queue, busy)
    ensures forall j, k :: 0 <= j < k < |latch| ==> latch[j].1 != latch[k].1
    ensures forall i :: 0 <= i < |busy| ==> busy[i] < |queue|
    ensures forall i, k :: 0 <= i < |busy| && 0 <= k < |latch| ==> queue[busy[i]] != latch[k].1
  {
  }

  lemma EnterNone(slots: seq<Option<S.Waiter>>)
    ensures S.EnterAll(slots, []) == slots
  {
  }

  lemma EnterNext(slots: seq<Option<S.Waiter>>, q: seq<(nat, S.Waiter)>, k: nat)
    requires k < |q| && forall j :: 0 <= j < |q| ==> q[j].0 < |slots|
    ensures S.EnterAll(slots, q[..k + 1]) == S.EnterAll(slots, q[..k])[q[k].0 := Some(q[k].1)]
  {
    assert q[..k + 1][..k] == q[..k];
  }

  lemma FreshPartition(n: nat)
    ensures S.Partition(seq(n, i => i), [], n)
  {
    var free := seq(n, i => i);
    forall s: nat | s < n ensures s in free {
      assert free[s] == s;
    }
  }

  method Wake(w: Insn, insn: Insn)
    requires w != insn
    modifies w`operand1, w`operand1Ready, w`operand2, w`operand2Ready
    ensures WaiterOf(w) == S.Wake1(old(WaiterOf(w)), insn.d, insn.phyRd, insn.rdResult)
  {
    if insn.d.rdType == w.d.rs1Type && insn.phyRd == w.phyRs1 {
      w.operand1 := insn.rdResult;
      w.operand1Ready := true;
    }
    if insn.d.rdType == w.d.rs2Type && insn.phyRd == w.phyRs2 {
      w.operand2 := insn.rdResult;
      w.operand2Ready := true;
    }
  }

  // Successive issues, each under its own set of free units.
  function AllGo(st: S.Station, us: seq<set<FuncType>>): (r: Option<S.Station>) {
    if us == [] then Some(st)
    else
      var st' := AllGo(st, us[..|us| - 1]);
      if st'.Some? && (forall j :: 0 <= j < |st'.value.busy| ==> st'.value.busy[j] < |st'.value.slots|)
         && S.Select(st'.value, us[|us| - 1], 0).Some?
      then Some(S.Leave(st'.value, S.Select(st'.value, us[|us| - 1], 0).value)) else None
  }

  lemma NoneGo(st: S.Station)
    ensures AllGo(st, []) == Some(st)
  {
  }

  lemma GoOn(st0: S.Station, us: seq<set<FuncType>>, units: set<FuncType>, st: S.Station)
    requires AllGo(st0, us) == Some(st) && (forall j :: 0 <= j < |st.busy| ==> st.busy[j] < |st.slots|)
      && S.Select(st, units, 0).Some?
    ensures AllGo(st0, us + [units]) == Some(S.Leave(st, S.Select(st, units, 0).value))
  {
    assert (us + [units])[..|us|] == us;
  }
}
