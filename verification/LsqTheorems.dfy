// What a call of Lsq::Evaulate removes and what it leaves, entry by entry
// (src/Processor/Component/Lsq.cc:225-254).
module LsqTheorems {
  import opened DynInsn
  import opened LoopQueue
  import L = LsqSpec

  // The flag of a load after the m oldest of the stores queued in `q` have left.
  function Lowered(e: L.LdqEntry, q: Queue<L.StqEntry>, m: nat): L.LdqEntry {
    e.(hasDependancy := e.hasDependancy && !(e.oldestStqTag < q.size && q.Dist(e.oldestStqTag) < m))
  }

  lemma {:induction false} StoresLeave(l: L.Lsq)
    requires l.Valid()
    ensures var l' := L.PopStores(l);
      var m := |l.stq.elems| - |l'.stq.elems|;
      && 0 <= m && l'.stq.size == l.stq.size && l'.stq.head == l.stq.Slot(m) && l'.stq.elems == l.stq.elems[m..]
      && (forall j :: 0 <= j < m ==> l.stq.elems[j].state == L.StoreExecuted)
      && (l'.stq.elems != [] ==> l'.stq.elems[0].state != L.StoreExecuted)
      && l'.ldq.size == l.ldq.size && l'.ldq.head == l.ldq.head && |l'.ldq.elems| == |l.ldq.elems|
      && forall j :: 0 <= j < |l.ldq.elems| ==> l'.ldq.elems[j] == Lowered(l.ldq.elems[j], l.stq, m)
    decreases |l.stq.elems|
  {
    if L.CanPopStore(l) {
      StoresLeave(L.PopStore(l));
    }
  }

  lemma {:induction false} LoadsLeave(l: L.Lsq)
    requires l.Valid()
    ensures var l' := L.PopLoads(l);
      var n := |l.ldq.elems| - |l'.ldq.elems|;
      && 0 <= n && l'.stq == l.stq
      && l'.ldq.size == l.ldq.size && l'.ldq.head == l.ldq.Slot(n) && l'.ldq.elems == l.ldq.elems[n..]
      && (forall j :: 0 <= j < n ==>
            l.ldq.elems[j].commited || (l.ldq.elems[j].killed && l.ldq.elems[j].state != L.LoadInflight))
      && (l'.ldq.elems != [] ==>
            !l'.ldq.elems[0].commited && (!l'.ldq.elems[0].killed || l'.ldq.elems[0].state == L.LoadInflight))
    decreases |l.ldq.elems|
  {
    if L.CanPopLoad(l) {
      LoadsLeave(L.PopLoad(l));
    }
  }

  // One call: the executed stores at the head leave, all of them and no others; the dependence
  // flags that name one of them are lowered and no others; then the loads at the head that
  // committed, or were squashed and await no response, leave, all of them and no others. So
  // neither queue is ever stuck behind an entry that is done with.
  lemma EvaluateRemoves(l: L.Lsq)
    requires l.Valid()
    ensures var l' := L.Evaluate(l);
      var m, n := |l.stq.elems| - |l'.stq.elems|, |l.ldq.elems| - |l'.ldq.elems|;
      && 0 <= m && 0 <= n && l'.stq.size == l.stq.size && l'.ldq.size == l.ldq.size
      && l'.stq.head == l.stq.Slot(m) && l'.ldq.head == l.ldq.Slot(n)
      && l'.stq.elems == l.stq.elems[m..]
      && (forall j :: 0 <= j < m ==> l.stq.elems[j].state == L.StoreExecuted)
      && (l'.stq.elems != [] ==> l'.stq.elems[0].state != L.StoreExecuted)
      && (forall j :: 0 <= j < |l'.ldq.elems| ==> l'.ldq.elems[j] == Lowered(l.ldq.elems[n + j], l.stq, m))
      && (forall j :: 0 <= j < n ==>
            l.ldq.elems[j].commited || (l.ldq.elems[j].killed && l.ldq.elems[j].state != L.LoadInflight))
      && (l'.ldq.elems != [] ==>
            !l'.ldq.elems[0].commited && (!l'.ldq.elems[0].killed || l'.ldq.elems[0].state == L.LoadInflight))
  {
    hide L.PopStores, L.PopLoads;
    StoresLeave(l);
    LoadsLeave(L.PopStores(l));
    var l1, n := L.PopStores(l), |l.ldq.elems| - |L.Evaluate(l).ldq.elems|;
    assert forall j :: 0 <= j < n ==> l1.ldq.elems[j] == Lowered(l.ldq.elems[j], l.stq, |l.stq.elems| - |l1.stq.elems|);
  }
}
