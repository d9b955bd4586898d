// The load/store queue, updated in place (src/Processor/Component/Lsq.cc), proved against
// LsqSpec, and the memory side of the load/store unit (FuncUnit/Func_LSU.hh).
module LsqUnit {
  import opened DynInsn
  import opened LoopQueue
  import L = LsqSpec
  import M = MemAccess
  import opened Package

  datatype LoadReq = LoadReq(transId: nat, address: nat, length: nat)

  // The decoded part of a package, in the shape the specification takes it.
  function Fresh(pkg: seq<Insn>): (xs: seq<Item>)
    ensures |xs| == |pkg| && forall i :: 0 <= i < |pkg| ==> xs[i] == Item(pkg[i].id, pkg[i].d, 0)
  { seq(|pkg|, i requires 0 <= i < |pkg| => Item(pkg[i].id, pkg[i].d, 0)) }

  function DecodedsOf(pkg: seq<Insn>): (ds: seq<Decoded>)
    ensures |ds| == |pkg| && forall i :: 0 <= i < |pkg| ==> ds[i] == pkg[i].d
  { seq(|pkg|, i requires 0 <= i < |pkg| => pkg[i].d) }

  lemma StoreSent(l: L.Lsq, k: nat)
    requires l.Valid() && k < |l.stq.elems|
    ensures var slot := l.stq.Slot(k);
      && l.stq.Live(slot)
      && l.(stq := l.stq.Update(slot, l.stq.elems[k].(state := L.StoreInflight))) == L.SetStoreState(l, slot, L.StoreInflight)
  {
  }

  // One turn of the scan for a store to send.
  lemma StoreScan(q: seq<L.StqEntry>, i: nat)
    requires i < |q|
    ensures L.FirstWaitingStore(q[i..]) == if q[i].state == L.StoreWaitSend then 0 else 1 + L.FirstWaitingStore(q[i + 1..])
  {
  }

  // One turn of the dependence scan, with or without a write.
  lemma Cleared(q: Queue<L.LdqEntry>, q0: Queue<L.LdqEntry>, done: seq<L.LdqEntry>, stqHead: nat, i: nat)
    requires q.Valid() && i < |q0.elems| && done == L.ClearDeps(q0.elems, stqHead) && q == q0.(elems := done[..i] + q0.elems[i..])
    ensures var e := q0.elems[i];
      var slot := q.Slot(i);
      && q.Live(slot) && q.At(slot) == e
      && if e.hasDependancy && e.oldestStqTag == stqHead then
           q.Update(slot, e.(hasDependancy := false)) == q0.(elems := done[..i + 1] + q0.elems[i + 1..])
         else q == q0.(elems := done[..i + 1] + q0.elems[i + 1..])
  {
    SlotPos(q, i);
    var e := q0.elems[i];
    assert done[i] == L.ClearOne(e, stqHead);
    if e.hasDependancy && e.oldestStqTag == stqHead {
      assert q.Update(q.Slot(i), e.(hasDependancy := false)).elems == done[..i + 1] + q0.elems[i + 1..];
    } else {
      assert q.elems == done[..i + 1] + q0.elems[i + 1..];
    }
  }

  class Lsq {
    const loadQueue: LoopQueue<L.LdqEntry>
    const storeQueue: LoopQueue<L.StqEntry>

    ghost function Repr(): set<object> { {loadQueue, loadQueue.dataVec, storeQueue, storeQueue.dataVec} }

    ghost predicate Valid()
      reads Repr()
    {
      && loadQueue.Valid() && storeQueue.Valid()
      && (loadQueue as object) != storeQueue && (loadQueue.dataVec as object) != storeQueue.dataVec
    }

    ghost function View(): (l: L.Lsq)
      reads Repr()
      requires Valid()
      ensures l.Valid()
    {
      L.Lsq(loadQueue.View(), storeQueue.View())
    }

    constructor (ldqEntryCount: nat, stqEntryCount: nat, blankLoad: L.LdqEntry, blankStore: L.StqEntry)
      requires ldqEntryCount > 0 && stqEntryCount > 0
      ensures Valid() && fresh(Repr())
      ensures View() == L.Lsq(Queue(ldqEntryCount, 0, []), Queue(stqEntryCount, 0, []))
    {
      loadQueue := new LoopQueue<L.LdqEntry>(ldqEntryCount, blankLoad);
      storeQueue := new LoopQueue<L.StqEntry>(stqEntryCount, blankStore);
    }

    method TryAllocate(pkg: seq<Insn>) returns (successCount: nat)
      requires Valid()
      ensures successCount == L.FitCount(DecodedsOf(pkg), View().ldq.size - |View().ldq.elems|,
        View().stq.size - |View().stq.elems|)
    {
      successCount := 0;
      var allocLdqCount, allocStqCount := 0, 0;
      var loads, stores := loadQueue.dataVec.Length - loadQueue.usage, storeQueue.dataVec.Length - storeQueue.usage;
      ghost var ds := DecodedsOf(pkg);
      for i := 0 to |pkg|
        invariant successCount == i && allocLdqCount <= loads && allocStqCount <= stores
        invariant L.FitCount(ds, loads, stores) == i + L.FitCount(ds[i..], loads - allocLdqCount, stores - allocStqCount)
      {
        if pkg[i].d.fu == LDU {
          if loads > allocLdqCount {
            allocLdqCount := allocLdqCount + 1;
          } else {
            break;
          }
        } else if pkg[i].d.fu == STU {
          if stores > allocStqCount {
            allocStqCount := allocStqCount + 1;
          } else {
            break;
          }
        }
        successCount := successCount + 1;
        assert ds[i..][1..] == ds[i + 1..];
      }
    }

    method CreateLdqEntry(insn: Insn)
      requires Valid() && insn.lsqTag < loadQueue.dataVec.Length
      modifies loadQueue.dataVec
      ensures Valid() && View().stq == old(View()).stq
      ensures View().ldq == old(View()).ldq.Update(insn.lsqTag, L.NewLdqEntry(old(View()), insn.id, insn.d))
    {
      var e := L.LdqEntry(insn.id, insn.d, L.LoadWaitSend, false, false, storeQueue.usage != 0, storeQueue.GetLatest(), false, 0);
      loadQueue.Set(insn.lsqTag, e);
    }

    method CreateStqEntry(insn: Insn)
      requires Valid() && insn.lsqTag < storeQueue.dataVec.Length
      modifies storeQueue.dataVec
      ensures Valid() && View().ldq == old(View()).ldq
      ensures View().stq == old(View()).stq.Update(insn.lsqTag, L.NewStqEntry(insn.id, insn.d))
    {
      storeQueue.Set(insn.lsqTag, L.StqEntry(insn.id, insn.d, L.StoreWaitSend, false, false, 0, 0));
    }

    // One turn of the loop of Allocate.
    method AllocateOne(insn: Insn)
      requires Valid() && View().HasRoom(insn.d)
      modifies Repr(), insn`lsqTag
      ensures Valid() && View() == L.Allocate(old(View()), insn.id, insn.d).0
      ensures insn.lsqTag == if insn.d.fu == LDU || insn.d.fu == STU then L.Allocate(old(View()), insn.id, insn.d).1
        else old(insn.lsqTag)
    {
      hide LoopQueue.View, Queue.Push, Queue.Update;
      if insn.d.fu == LDU {
        insn.lsqTag := loadQueue.Allocate();
        CreateLdqEntry(insn);
        PushUpdate(old(View()).ldq, old(loadQueue.TailData()), L.NewLdqEntry(old(View()), insn.id, insn.d));
      } else if insn.d.fu == STU {
        insn.lsqTag := storeQueue.Allocate();
        CreateStqEntry(insn);
        PushUpdate(old(View()).stq, old(storeQueue.TailData()), L.NewStqEntry(insn.id, insn.d));
      }
    }

    method Allocate(pkg: seq<Insn>, allocCount: nat)
      requires Valid() && Distinct(pkg) && forall i :: 0 <= i < |pkg| ==> pkg[i].lsqTag == 0
      requires RoomFor(View(), Fresh(pkg), allocCount)
      modifies Repr(), Insns(pkg)`lsqTag
      ensures Valid() && View() == QueueMany(old(View()), Fresh(pkg), allocCount)
      ensures forall i :: 0 <= i < |pkg| ==> pkg[i].lsqTag == if i < allocCount
        then TagOf(old(View()), Fresh(pkg), allocCount, i) else 0
    {
      hide LoopQueue.View, L.Allocate, QueueMany, TagOf, RoomFor, Kinds, L.Lsq.HasRoom;
      ghost var l0, xs := View(), Fresh(pkg);
      RoomPrefix(l0, xs, 0, allocCount);
      QueueNone(l0, xs);
      for i := 0 to allocCount
        invariant Valid() && RoomFor(l0, xs, allocCount)
        invariant RoomFor(l0, xs, i) && View() == QueueMany(l0, xs, i)
        invariant forall j :: 0 <= j < |pkg| ==> pkg[j].lsqTag == if j < i then TagOf(l0, xs, allocCount, j) else 0
      {
        RoomPrefix(l0, xs, i + 1, allocCount);
        QueueStep(l0, xs, i, allocCount);
        AllocateOne(pkg[i]);
      }
    }

    // The address generation unit's result; nothing checks that the slot is still live.
    method WriteBack(insn: Insn)
      requires Valid()
      requires insn.d.fu == LDU ==> insn.lsqTag < View().ldq.size
      requires insn.d.fu == STU ==> insn.lsqTag < View().stq.size
      modifies loadQueue.dataVec, storeQueue.dataVec
      ensures Valid() && View() == L.WriteBack(old(View()), insn.d, insn.lsqTag, insn.aguAddr, insn.aguData)
    {
      if insn.d.fu == LDU {
        var e := loadQueue.Get(insn.lsqTag);
        loadQueue.Set(insn.lsqTag, e.(addressReady := true, address := insn.aguAddr));
      } else if insn.d.fu == STU {
        var e := storeQueue.Get(insn.lsqTag);
        storeQueue.Set(insn.lsqTag, e.(addressReady := true, address := insn.aguAddr, data := insn.aguData));
      }
    }

    // Stops at the oldest load still to be sent, whether or not that one may go.
    method TryIssueLoad() returns (success: bool, req: LoadReq)
      requires Valid()
      modifies loadQueue.dataVec
      ensures Valid() && success == L.LoadToIssue(old(View())).Some?
      ensures !success ==> View() == old(View())
      ensures success ==>
        var l := old(View());
        var k := L.LoadToIssue(l).value;
        && l.ldq.Live(l.ldq.Slot(k)) && View() == L.SetLoadState(l, l.ldq.Slot(k), L.LoadInflight)
        && req == LoadReq(l.ldq.Slot(k), M.BlockOf(l.ldq.elems[k].address), M.ALIGN)
    {
      hide LoopQueue.View;
      success, req := false, LoadReq(0, 0, 0);
      if loadQueue.usage != 0 {
        ghost var l := View();
        var ldqPtr := loadQueue.header;
        var i := 0;
        while i < loadQueue.usage
          invariant i <= loadQueue.usage && !success && Valid() && View() == l
          invariant ldqPtr == l.ldq.Slot(i)
          invariant L.FirstWaitingLoad(l.ldq.elems) == i + L.FirstWaitingLoad(l.ldq.elems[i..])
        {
          var e := loadQueue.Get(ldqPtr);
          SlotPos(l.ldq, i);
          assert e == l.ldq.elems[i] == l.ldq.elems[i..][0];
          if e.state == L.LoadWaitSend && !e.killed {
            if e.addressReady && !e.hasDependancy {
              success := true;
              req := LoadReq(ldqPtr, M.BlockOf(e.address), M.ALIGN);
              loadQueue.Set(ldqPtr, e.(state := L.LoadInflight));
            }
            break;
          }
          assert l.ldq.elems[i..][1..] == l.ldq.elems[i + 1..];
          ldqPtr := NextPtr(loadQueue.dataVec.Length, ldqPtr);
          i := i + 1;
        }
      }
    }

    // Only the oldest store still to be sent may go, and only once committed.
    method TryIssueStore(buffer: array<M.Byte>) returns (success: bool, transId: nat, req: M.StoreReq)
      requires Valid() && buffer.Length == M.ALIGN
      requires forall k :: 0 <= k < |View().stq.elems| ==> View().stq.elems[k].d.subOp <= M.STU_SD
      modifies storeQueue.dataVec, buffer
      ensures Valid() && success == L.StoreToIssue(old(View())).Some?
      ensures !success ==> View() == old(View())
      ensures success ==>
        var l := old(View());
        var k := L.StoreToIssue(l).value;
        var e := l.stq.elems[k];
        var made := M.MakeStore(e.d.subOp, e.address, e.data);
        && transId == l.stq.Slot(k) && l.stq.Live(transId) && View() == L.SetStoreState(l, transId, L.StoreInflight)
        && req.address == made.address && req.mask == made.mask && |req.data| == M.ALIGN
        && forall it :: e.address % M.ALIGN <= it < M.ALIGN ==> req.data[it] == made.data[it]
    {
      hide L.FirstWaitingStore, LoopQueue.View, M.MakeStore, M.BlockOf, L.SetStoreState, Queue.Update, Queue.Live;
      success, transId, req := false, 0, M.StoreReq(0, [], 0);
      if storeQueue.usage != 0 {
        ghost var l := View();
        var stqPtr := storeQueue.header;
        var i := 0;
        assert l.stq.elems[0..] == l.stq.elems;
        while i < storeQueue.usage
          invariant i <= storeQueue.usage && !success && Valid() && View() == l
          invariant stqPtr == l.stq.Slot(i) && buffer.Length == M.ALIGN
          invariant L.FirstWaitingStore(l.stq.elems) == i + L.FirstWaitingStore(l.stq.elems[i..])
        {
          var e := storeQueue.Get(stqPtr);
          SlotPos(l.stq, i);
          StoreScan(l.stq.elems, i);
          assert e == l.stq.elems[i];
          if e.state == L.StoreWaitSend {
            if e.commited {
              success := true;
              transId := stqPtr;
              storeQueue.Set(stqPtr, e.(state := L.StoreInflight));
              assert View() == L.SetStoreState(l, stqPtr, L.StoreInflight) by { StoreSent(l, i); }
              req := M.FillStore(e.d.subOp, e.address, e.data, buffer);
            }
            break;
          }
          stqPtr := NextPtr(storeQueue.dataVec.Length, stqPtr);
          i := i + 1;
        }
      }
    }

    method KillLoadEntry(ldqTag: nat)
      requires Valid() && ldqTag < View().ldq.size
      modifies loadQueue.dataVec
      ensures Valid() && View() == L.KillLoad(old(View()), ldqTag)
    {
      var e := loadQueue.Get(ldqTag);
      loadQueue.Set(ldqTag, e.(killed := true));
    }

    // The tag is not looked at: the youngest store goes, whichever it is.
    method KillStoreEntry(stqTag: nat)
      requires Valid() && View().stq.elems != []
      modifies storeQueue
      ensures Valid() && View() == L.KillStore(old(View()))
    {
      storeQueue.RollBack();
    }

    method CommitLoadEntry(ldqTag: nat)
      requires Valid() && ldqTag < View().ldq.size
      modifies loadQueue.dataVec
      ensures Valid() && View() == L.CommitLoad(old(View()), ldqTag)
    {
      var e := loadQueue.Get(ldqTag);
      loadQueue.Set(ldqTag, e.(commited := true));
    }

    method CommitStoreEntry(stqTag: nat)
      requires Valid() && stqTag < View().stq.size
      modifies storeQueue.dataVec
      ensures Valid() && View() == L.CommitStore(old(View()), stqTag)
    {
      var e := storeQueue.Get(stqTag);
      storeQueue.Set(stqTag, e.(commited := true));
    }

    // The dependence scan for one executed store.
    method ClearDependancy()
      requires Valid()
      modifies loadQueue.dataVec
      ensures Valid() && View().stq == old(View()).stq
      ensures View().ldq == old(View()).ldq.(elems := L.ClearDeps(old(View()).ldq.elems, storeQueue.header))
    {
      hide LoopQueue.View, Queue.Update, Queue.Live, Queue.At, L.ClearOne, L.ClearDeps;
      ghost var l := View();
      ghost var q, n, done := l.ldq, |l.ldq.elems|, L.ClearDeps(l.ldq.elems, storeQueue.header);
      var ldqPtr := loadQueue.header;
      var i := 0;
      assert done[..0] + q.elems[0..] == q.elems;
      while i < loadQueue.usage
        invariant i <= loadQueue.usage == n && Valid() && ldqPtr == q.Slot(i)
        invariant View().stq == l.stq && View().ldq == q.(elems := done[..i] + q.elems[i..])
      {
        var e := loadQueue.Get(ldqPtr);
        Cleared(View().ldq, q, done, storeQueue.header, i);
        if e.hasDependancy && e.oldestStqTag == storeQueue.header {
          loadQueue.Set(ldqPtr, e.(hasDependancy := false));
        }
        ldqPtr := NextPtr(loadQueue.dataVec.Length, ldqPtr);
        i := i + 1;
      }
      assert done[..n] + q.elems[n..] == done;
    }

    method Evaluate()
      requires Valid()
      modifies Repr()
      ensures Valid() && View() == L.Evaluate(old(View()))
    {
      hide LoopQueue.View;
      while storeQueue.usage != 0 && storeQueue.Get(storeQueue.header).state == L.StoreExecuted
        invariant Valid() && L.PopStores(View()) == L.PopStores(old(View()))
        decreases storeQueue.usage
      {
        ghost var l := View();
        ClearDependancy();
        storeQueue.HeaderInc();
        assert View() == L.PopStore(l);
      }
      while loadQueue.usage != 0
        invariant Valid() && L.PopLoads(View()) == L.Evaluate(old(View()))
        decreases loadQueue.usage
      {
        var e := loadQueue.Get(loadQueue.header);
        if e.commited {
          loadQueue.HeaderInc();
        } else if e.killed && e.state != L.LoadInflight {
          loadQueue.HeaderInc();
        } else {
          break;
        }
      }
    }
  }
}
