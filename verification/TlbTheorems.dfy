// What the TLB remembers: sound translations in every run, and exactly the most recently used
// keys in runs without a flush.
module TlbTheorems {
  import opened DynInsn
  import opened Tlb
  import M = MemAccess

  // ---- runs -------------------------------------------------------------------------------------

  datatype Op = DoLookUp(vaddr: nat, asid: nat) | DoInsert(vaddr: nat, asid: nat, paddr: nat) | DoFlush

  // Since the last flush: `log` lists the mappings offered, `uses` the keys in the order of
  // their uses, a use being a hit or an insertion that enters the buffer.
  datatype Run = Run(t: Tlb, log: seq<(Key, nat)>, uses: seq<Key>)

  function KeyOf(op: Op): Key
    requires !op.DoFlush?
  { Key(Vpn(op.vaddr), op.asid) }

  predicate Resident(t: Tlb, k: Key) { Find(t.entries, k, |t.entries|).Some? }

  function Step(r: Run, op: Op): (r': Run)
    requires r.t.Valid()
    ensures r'.t.Valid()
  {
    match op
    case DoLookUp(_, _) => Run(Lookup(r.t, KeyOf(op)), r.log, if Resident(r.t, KeyOf(op)) then r.uses + [KeyOf(op)] else r.uses)
    case DoInsert(_, _, paddr) =>
      Run(Insert(r.t, KeyOf(op), Ppn(paddr)), r.log + [(KeyOf(op), Ppn(paddr))],
          if Resident(r.t, KeyOf(op)) then r.uses else r.uses + [KeyOf(op)])
    case DoFlush => Run(FlushAll(r.t), [], [])
  }

  function Steps(n: nat, ops: seq<Op>): (r: Run)
    requires n > 0
    ensures r.t.Valid()
  {
    if ops == [] then Run(Init(n), [], []) else Step(Steps(n, ops[..|ops| - 1]), ops[|ops| - 1])
  }

  // ---- soundness, flushes included --------------------------------------------------------------

  predicate Unique(es: seq<Entry>) {
    forall i, j :: 0 <= i < j < |es| && es[i].valid && es[j].valid ==> es[i].key != es[j].key
  }

  predicate Logged(es: seq<Entry>, log: seq<(Key, nat)>) {
    forall i :: 0 <= i < |es| && es[i].valid ==> (es[i].key, es[i].ppn) in log
  }

  predicate PagesOk(log: seq<(Key, nat)>) { forall i :: 0 <= i < |log| ==> log[i].1 % PAGE == 0 }

  lemma PageAligned(paddr: nat)
    ensures Ppn(paddr) % PAGE == 0
  {
  }

  lemma StepSound(r: Run, op: Op)
    requires r.t.Valid() && Unique(r.t.entries) && Logged(r.t.entries, r.log) && PagesOk(r.log)
    ensures var r' := Step(r, op); Unique(r'.t.entries) && Logged(r'.t.entries, r'.log) && PagesOk(r'.log)
  {
  }

  lemma {:induction false} RunSound(n: nat, ops: seq<Op>)
    requires n > 0
    ensures var r := Steps(n, ops); Unique(r.t.entries) && Logged(r.t.entries, r.log) && PagesOk(r.log)
    decreases |ops|
  {
    if ops != [] {
      hide Step, Unique, Logged, PagesOk;
      RunSound(n, ops[..|ops| - 1]);
      StepSound(Steps(n, ops[..|ops| - 1]), ops[|ops| - 1]);
    }
  }

  // In every run, flushes included: no key has two valid entries, and a hit returns the page of
  // a mapping inserted for that key since the last flush, with the offset intact.
  lemma HitsAreSound(n: nat, ops: seq<Op>, vaddr: nat, asid: nat)
    requires n > 0 && Translate(Steps(n, ops).t, vaddr, asid).Some?
    ensures var r := Steps(n, ops);
      var paddr := Translate(r.t, vaddr, asid).value;
      && Unique(r.t.entries)
      && paddr % PAGE == vaddr % PAGE && paddr >= Offset(vaddr) && (Key(Vpn(vaddr), asid), paddr - Offset(vaddr)) in r.log
  {
    hide Steps, Unique, Logged, PagesOk, Ppn;
    RunSound(n, ops);
    HitMeans(Steps(n, ops).t, Steps(n, ops).log, vaddr, asid);
  }

  lemma HitMeans(t: Tlb, log: seq<(Key, nat)>, vaddr: nat, asid: nat)
    requires Logged(t.entries, log) && PagesOk(log) && Translate(t, vaddr, asid).Some?
    ensures var paddr := Translate(t, vaddr, asid).value;
      && paddr % PAGE == vaddr % PAGE && paddr >= Offset(vaddr) && (Key(Vpn(vaddr), asid), paddr - Offset(vaddr)) in log
  {
  }

  lemma MasksAreFields(v: nat)
    ensures Vpn(v) == v / 4096 % 0x800_0000 * 4096 && Ppn(v) == v / 4096 % 0x1000_0000_0000 * 4096 && Offset(v) == v % 4096
  {
    VpnIsField(v, v / 4096 / 0x800_0000, v / 4096 % 0x800_0000, v % 4096);
    PpnIsField(v, v / 4096 / 0x1000_0000_0000, v / 4096 % 0x1000_0000_0000, v % 4096);
  }

  // Bits 12 to 38.
  lemma VpnIsField(v: nat, q: nat, y: nat, z: nat)
    requires v == 0x80_0000_0000 * q + (4096 * y + z) && y < 0x800_0000 && z < 4096
    ensures Vpn(v) == y * 4096
  {
    M.DivUnique(v, 0x80_0000_0000, q, 4096 * y + z);
    M.DivUnique(4096 * y + z, 4096, y, z);
  }

  // Bits 12 to 55.
  lemma PpnIsField(v: nat, q: nat, y: nat, z: nat)
    requires v == 0x100_0000_0000_0000 * q + (4096 * y + z) && y < 0x1000_0000_0000 && z < 4096
    ensures Ppn(v) == y * 4096
  {
    M.DivUnique(v, 0x100_0000_0000_0000, q, 4096 * y + z);
    M.DivUnique(4096 * y + z, 4096, y, z);
  }

  // The mappings remembered are those inserted since the last flush.
  lemma {:induction false} LoggedIsInserted(n: nat, ops: seq<Op>, k: Key, ppn: nat) returns (j: nat)
    requires n > 0 && (k, ppn) in Steps(n, ops).log
    ensures j < |ops| && ops[j].DoInsert? && k == Key(Vpn(ops[j].vaddr), ops[j].asid) && ppn == Ppn(ops[j].paddr)
    ensures forall i :: j < i < |ops| ==> !ops[i].DoFlush?
    decreases |ops|
  {
    var m := |ops| - 1;
    if ops[m].DoInsert? && (k, ppn) == (Key(Vpn(ops[m].vaddr), ops[m].asid), Ppn(ops[m].paddr)) {
      j := m;
    } else {
      hide Vpn, Ppn;
      j := LoggedIsInserted(n, ops[..m], k, ppn);
    }
  }

  // Every hit goes back to an insertion since the last flush, for the same address space and the
  // same bits 12 to 38 of the virtual address; it returns bits 12 to 55 of the physical address
  // inserted, with the low twelve bits of the address looked up.
  lemma HitIsAnInsertion(n: nat, ops: seq<Op>, vaddr: nat, asid: nat) returns (j: nat)
    requires n > 0 && Translate(Steps(n, ops).t, vaddr, asid).Some?
    ensures j < |ops| && ops[j].DoInsert? && forall i :: j < i < |ops| ==> !ops[i].DoFlush?
    ensures ops[j].asid == asid && ops[j].vaddr / 4096 % 0x800_0000 == vaddr / 4096 % 0x800_0000
    ensures Translate(Steps(n, ops).t, vaddr, asid).value == ops[j].paddr / 4096 % 0x1000_0000_0000 * 4096 + vaddr % 4096
  {
    hide Steps, Vpn, Ppn, Translate, Offset;
    HitsAreSound(n, ops, vaddr, asid);
    MasksAreFields(vaddr);
    j := LoggedIsInserted(n, ops, Key(Vpn(vaddr), asid), Translate(Steps(n, ops).t, vaddr, asid).value - Offset(vaddr));
    MasksAreFields(ops[j].vaddr);
    MasksAreFields(ops[j].paddr);
  }

  // ---- least recently used ----------------------------------------------------------------------

  ghost predicate Distinct<T>(q: seq<T>) { forall i, j :: 0 <= i < j < |q| ==> q[i] != q[j] }

  lemma DistinctAppend<T>(q: seq<T>, x: T)
    requires Distinct(q) && x !in q
    ensures Distinct(q + [x])
  {
  }

  function Minus(ks: seq<Key>, k: Key): (r: seq<Key>)
    ensures forall x :: x in r <==> x in ks && x != k
    ensures Distinct(ks) ==> Distinct(r)
  {
    if ks == [] then []
    else
      var r := Minus(ks[..|ks| - 1], k);
      if ks[|ks| - 1] == k then r
      else
        assert Distinct(ks) ==> Distinct(r + [ks[|ks| - 1]]) by {
          if Distinct(ks) {
            assert forall i :: 0 <= i < |ks| - 1 ==> ks[i] != ks[|ks| - 1];
            assert ks[|ks| - 1] !in r;
            DistinctAppend(r, ks[|ks| - 1]);
          }
        }
        r + [ks[|ks| - 1]]
  }

  // Moving a key to the most recent end.
  function Bump(ks: seq<Key>, k: Key): seq<Key> { Minus(ks, k) + [k] }

  // All keys ever used, by their last use, least recent first.
  function ByLastUse(uses: seq<Key>): (ks: seq<Key>)
    ensures Distinct(ks) && forall x :: x in ks <==> x in uses
  {
    if uses == [] then []
    else
      var ks := ByLastUse(uses[..|uses| - 1]);
      assert forall x :: x in uses <==> x in uses[..|uses| - 1] || x == uses[|uses| - 1];
      DistinctAppend(Minus(ks, uses[|uses| - 1]), uses[|uses| - 1]);
      Bump(ks, uses[|uses| - 1])
  }

  // The last n of them.
  function Last(ks: seq<Key>, n: nat): seq<Key> { if |ks| <= n then ks else ks[|ks| - n..] }

  lemma {:induction false} MinusIsWithout(ks: seq<Key>, p: nat)
    requires Distinct(ks) && p < |ks|
    ensures Minus(ks, ks[p]) == Without(ks, p)
    decreases |ks|
  {
    var n := |ks| - 1;
    if p < n {
      MinusIsWithout(ks[..n], p);
      assert Without(ks, p) == Without(ks[..n], p) + [ks[n]];
    } else {
      MinusAbsent(ks[..n], ks[n]);
    }
  }

  lemma {:induction false} MinusAbsent(ks: seq<Key>, k: Key)
    requires k !in ks
    ensures Minus(ks, k) == ks
    decreases |ks|
  {
    if ks != [] {
      MinusAbsent(ks[..|ks| - 1], k);
    }
  }

  lemma DistinctSlice<T>(q: seq<T>, m: nat)
    requires Distinct(q) && m <= |q|
    ensures Distinct(q[m..])
  {
  }

  lemma BumpInside(ks: seq<Key>, p: nat, m: nat)
    requires Distinct(ks) && m <= p < |ks|
    ensures Distinct(ks[m..]) && Bump(ks, ks[p]) == ks[..m] + Bump(ks[m..], ks[p])
  {
    hide Minus, Without;
    DistinctSlice(ks, m);
    MinusIsWithout(ks, p);
    assert ks[m..][p - m] == ks[p];
    MinusIsWithout(ks[m..], p - m);
    WithoutInside(ks, p, m);
  }

  lemma WithoutInside(ks: seq<Key>, p: nat, m: nat)
    requires m <= p < |ks|
    ensures Without(ks, p) == ks[..m] + Without(ks[m..], p - m)
  {
  }

  lemma BumpOutside(ks: seq<Key>, p: nat, m: nat)
    requires Distinct(ks) && p < m <= |ks|
    ensures Bump(ks, ks[p]) == Without(ks[..m], p) + ks[m..] + [ks[p]]
  {
    MinusIsWithout(ks, p);
    assert Without(ks, p) == Without(ks[..m], p) + ks[m..];
  }

  lemma LastOf(a: seq<Key>, b: seq<Key>, n: nat)
    requires |b| == n || (|b| < n && a == [])
    ensures Last(a + b, n) == b
  {
  }

  // A used key among the last n moves within them; any other pushes the oldest of them out.
  lemma BumpLast(ks: seq<Key>, k: Key, n: nat)
    requires Distinct(ks) && n > 0
    ensures Distinct(Last(ks, n))
    ensures k in Last(ks, n) ==> Last(Bump(ks, k), n) == Bump(Last(ks, n), k)
    ensures k !in Last(ks, n) ==> Last(Bump(ks, k), n) == Last(Last(ks, n) + [k], n)
  {
    var m := if |ks| <= n then 0 else |ks| - n;
    assert Last(ks, n) == ks[m..];
    DistinctSlice(ks, m);
    hide Bump, Last, Distinct, Without;
    if k in ks {
      var p :| 0 <= p < |ks| && ks[p] == k;
      if p >= m {
        assert ks[m..][p - m] == k;
        BumpKept(ks, p, m, n);
      } else {
        BumpDropped(ks, p, m, n);
      }
    } else {
      BumpNew(ks, k, m, n);
    }
  }

  // A key that stays among the last n.
  lemma BumpKept(ks: seq<Key>, p: nat, m: nat, n: nat)
    requires Distinct(ks) && m <= p < |ks| && m == (if |ks| <= n then 0 else |ks| - n) && n > 0
    ensures Last(Bump(ks, ks[p]), n) == Bump(ks[m..], ks[p])
  {
    BumpInside(ks, p, m);
    assert ks[m..][p - m] == ks[p];
    DistinctSlice(ks, m);
    MinusIsWithout(ks[m..], p - m);
    hide Bump, Last;
    assert |Bump(ks[m..], ks[p])| == |ks[m..]| by { BumpSize(ks[m..], p - m); }
    LastOf(ks[..m], Bump(ks[m..], ks[p]), n);
  }

  // A key that had fallen out of the last n.
  lemma BumpDropped(ks: seq<Key>, p: nat, m: nat, n: nat)
    requires Distinct(ks) && p < m <= |ks| && m == |ks| - n && n > 0
    ensures ks[p] !in ks[m..] && Last(Bump(ks, ks[p]), n) == Last(ks[m..] + [ks[p]], n)
  {
    NotAfter(ks, p, m);
    BumpOutside(ks, p, m);
    hide Bump, Last, Without;
    LastTwice(Without(ks[..m], p), ks[m..] + [ks[p]], n);
    assert Without(ks[..m], p) + ks[m..] + [ks[p]] == Without(ks[..m], p) + (ks[m..] + [ks[p]]);
  }

  lemma BumpNew(ks: seq<Key>, k: Key, m: nat, n: nat)
    requires k !in ks && m <= |ks| && m == (if |ks| <= n then 0 else |ks| - n) && n > 0
    ensures k !in ks[m..] && Last(Bump(ks, k), n) == Last(ks[m..] + [k], n)
  {
    MinusAbsent(ks, k);
    LastTwice(ks[..m], ks[m..] + [k], n);
    assert ks + [k] == ks[..m] + (ks[m..] + [k]);
  }

  lemma BumpSize(ks: seq<Key>, p: nat)
    requires Distinct(ks) && p < |ks|
    ensures |Bump(ks, ks[p])| == |ks|
  {
    MinusIsWithout(ks, p);
  }

  lemma NotAfter(ks: seq<Key>, p: nat, m: nat)
    requires Distinct(ks) && p < m <= |ks|
    ensures ks[p] !in ks[m..]
  {
  }

  // Only the last n of what comes last matter.
  lemma LastTwice(a: seq<Key>, b: seq<Key>, n: nat)
    requires |b| >= n || a == []
    ensures Last(a + b, n) == Last(b, n)
  {
  }

  // ---- the resident keys in order of use --------------------------------------------------------

  function KeysOf(es: seq<Entry>, order: seq<nat>): (ks: seq<Key>)
    requires forall i :: 0 <= i < |order| ==> order[i] < |es|
    ensures |ks| == |order| && forall i :: 0 <= i < |ks| ==> ks[i] == es[order[i]].key
  { seq(|order|, i requires 0 <= i < |order| => es[order[i]].key) }

  // `order` lists the valid slots and `free` the others, each once.
  ghost predicate Lists(es: seq<Entry>, order: seq<nat>, free: seq<nat>) {
    && |es| > 0 && |order| + |free| == |es| && Distinct(order) && Distinct(free)
    && (forall i :: 0 <= i < |order| ==> order[i] < |es|) && (forall i :: 0 <= i < |free| ==> free[i] < |es|)
    && (forall s: nat :: s < |es| ==> (s in order <==> es[s].valid) && (s in free <==> !es[s].valid))
  }

  // The listed slots are in the order of their sequence numbers.
  ghost predicate Sorted(es: seq<Entry>, order: seq<nat>, top: nat) {
    && (forall i :: 0 <= i < |order| ==> order[i] < |es| && es[order[i]].lruSeq <= top)
    && (forall i, j :: 0 <= i < j < |order| ==> es[order[i]].lruSeq < es[order[j]].lruSeq)
  }

  ghost predicate Ordered(t: Tlb, order: seq<nat>) { Lists(t.entries, order, t.free) && Sorted(t.entries, order, t.lruSeq) }

  ghost predicate LruInv(t: Tlb, order: seq<nat>, uses: seq<Key>) {
    Ordered(t, order) && Unique(t.entries) && KeysOf(t.entries, order) == Last(ByLastUse(uses), |t.entries|)
  }

  lemma KeysDistinct(t: Tlb, order: seq<nat>)
    requires Ordered(t, order) && Unique(t.entries)
    ensures Distinct(KeysOf(t.entries, order))
    ensures forall k :: k in KeysOf(t.entries, order) <==> Resident(t, k)
  {
  }

  lemma Rotate(order: seq<nat>, p: nat)
    requires Distinct(order) && p < |order|
    ensures var order' := Without(order, p) + [order[p]];
      Distinct(order') && forall s :: s in order' <==> s in order
  {
  }

  lemma TouchSorted(es: seq<Entry>, order: seq<nat>, top: nat, p: nat)
    requires Sorted(es, order, top) && Distinct(order) && p < |order|
    ensures Sorted(es[order[p] := es[order[p]].(lruSeq := top + 1)], Without(order, p) + [order[p]], top + 1)
  {
  }

  // A hit moves its slot to the most recent end.
  lemma TouchOrdered(t: Tlb, order: seq<nat>, p: nat)
    requires Ordered(t, order) && p < |order|
    ensures Ordered(Touch(t, order[p]), Without(order, p) + [order[p]])
    ensures KeysOf(Touch(t, order[p]).entries, Without(order, p) + [order[p]]) == Without(KeysOf(t.entries, order),
      p) + [t.entries[order[p]].key]
  {
    hide Sorted, Distinct;
    Rotate(order, p);
    TouchSorted(t.entries, order, t.lruSeq, p);
    var order' := Without(order, p) + [order[p]];
    assert forall i :: 0 <= i < |order'| ==> order'[i] in order';
    assert forall i :: 0 <= i < |order| ==> order[i] in order;
  }

  // With no free slot the victim is the least recently used one.
  lemma VictimIsOldest(t: Tlb, order: seq<nat>)
    requires Ordered(t, order) && t.free == []
    ensures order != [] && Lru(t.entries, |t.entries|) == order[0]
  {
  }

  lemma EnterOrdered(t: Tlb, order: seq<nat>, k: Key, ppn: nat)
    requires t.Valid() && Ordered(t, order) && t.free != []
    ensures var t' := Enter(t, k, ppn);
      Ordered(t', order + [t.free[0]]) && KeysOf(t'.entries, order + [t.free[0]]) == KeysOf(t.entries, order) + [k]
  {
    var s := t.free[0];
    assert s in t.free;
    assert s !in order;
    var order' := order + [s];
    assert order'[|order|] == s;
    assert forall x :: x in order' <==> x in order || x == s;
    assert t.free == [s] + t.free[1..];
    assert forall i :: 0 <= i < |t.free[1..]| ==> t.free[1..][i] == t.free[i + 1];
    assert s !in t.free[1..];
    assert forall i :: 0 <= i < |order| ==> order[i] in order;
  }

  lemma TailLists(es: seq<Entry>, order: seq<nat>)
    requires Lists(es, order, []) && order != []
    ensures Lists(es[order[0] := es[order[0]].(valid := false)], order[1..], [order[0]])
  {
  }

  lemma TailSorted(es: seq<Entry>, order: seq<nat>, top: nat)
    requires Sorted(es, order, top) && order != []
    ensures Sorted(es[order[0] := es[order[0]].(valid := false)], order[1..], top)
  {
  }

  lemma EvictOrdered(t: Tlb, order: seq<nat>)
    requires Ordered(t, order) && t.free == [] && t.Valid()
    ensures var t' := Remove(t, Lru(t.entries, |t.entries|));
      Ordered(t', order[1..]) && KeysOf(t'.entries, order[1..]) == KeysOf(t.entries, order)[1..]
        && t'.free == [Lru(t.entries, |t.entries|)]
  {
    VictimIsOldest(t, order);
    TailLists(t.entries, order);
    hide Sorted, Distinct, Lru;
    TailSorted(t.entries, order, t.lruSeq);
    assert t.free + [order[0]] == [order[0]];
  }

  // The position of a resident key's slot.
  lemma SlotOf(t: Tlb, order: seq<nat>, k: Key) returns (p: nat)
    requires Ordered(t, order) && Resident(t, k)
    ensures p < |order| && order[p] < |t.entries| && Find(t.entries, k, |t.entries|) == Some(order[p])
      && t.entries[order[p]].key == k
  {
    var s := Find(t.entries, k, |t.entries|).value;
    assert s in order;
    p :| 0 <= p < |order| && order[p] == s;
  }

  lemma LookUpUnique(t: Tlb, k: Key)
    requires t.Valid() && Unique(t.entries)
    ensures Unique(Lookup(t, k).entries)
  {
  }

  lemma LookUpLru(t: Tlb, order: seq<nat>, uses: seq<Key>, k: Key) returns (order': seq<nat>)
    requires t.Valid() && LruInv(t, order, uses)
    ensures LruInv(Lookup(t, k), order', if Resident(t, k) then uses + [k] else uses)
  {
    hide Lists, Sorted, Unique, ByLastUse, Bump, Last, Find, Touch, Tlb.Valid;
    LookUpUnique(t, k);
    OrderSize(t, order);
    order' := order;
    if Resident(t, k) {
      var p := SlotOf(t, order, k);
      var ks := KeysOf(t.entries, order);
      order' := Without(order, p) + [order[p]];
      KeysDistinct(t, order);
      TouchOrdered(t, order, p);
      MinusIsWithout(ks, p);
      BumpLast(ByLastUse(uses), k, |t.entries|);
      UsedNext(uses, k);
      BumpIs(ks, k);
      assert ks[p] == k;
    }
  }

  lemma BumpIs(ks: seq<Key>, k: Key)
    ensures Bump(ks, k) == Minus(ks, k) + [k]
  {
  }

  lemma UsedNext(uses: seq<Key>, k: Key)
    ensures ByLastUse(uses + [k]) == Bump(ByLastUse(uses), k)
  {
  }

  lemma InsertUnique(t: Tlb, k: Key, ppn: nat)
    requires t.Valid() && Unique(t.entries)
    ensures Unique(Insert(t, k, ppn).entries)
  {
  }

  lemma LastGrows(ks: seq<Key>, k: Key, n: nat)
    requires n > 0
    ensures |ks| < n ==> Last(ks + [k], n) == ks + [k]
    ensures |ks| == n ==> Last(ks + [k], n) == ks[1..] + [k]
  {
  }

  lemma InsertEvicting(t: Tlb, order: seq<nat>, k: Key, ppn: nat) returns (order': seq<nat>)
    requires t.Valid() && Ordered(t, order) && !Resident(t, k) && t.free == []
    ensures Ordered(Insert(t, k, ppn), order') && order != []
      && KeysOf(Insert(t, k, ppn).entries, order') == KeysOf(t.entries, order)[1..] + [k]
  {
    EvictOrdered(t, order);
    hide Ordered, Find, Lru, Remove, Enter;
    OrderSize(t, order);
    var t1 := Remove(t, Lru(t.entries, |t.entries|));
    EnterOrdered(t1, order[1..], k, ppn);
    order' := order[1..] + [t1.free[0]];
  }

  lemma InsertRoom(t: Tlb, order: seq<nat>, k: Key, ppn: nat) returns (order': seq<nat>)
    requires t.Valid() && Ordered(t, order) && !Resident(t, k) && t.free != []
    ensures Ordered(Insert(t, k, ppn), order') && KeysOf(Insert(t, k, ppn).entries, order') == KeysOf(t.entries, order) + [k]
  {
    hide Ordered, Find, Enter;
    EnterOrdered(t, order, k, ppn);
    order' := order + [t.free[0]];
  }

  lemma InsertLru(t: Tlb, order: seq<nat>, uses: seq<Key>, k: Key, ppn: nat) returns (order': seq<nat>)
    requires t.Valid() && LruInv(t, order, uses)
    ensures LruInv(Insert(t, k, ppn), order', if Resident(t, k) then uses else uses + [k])
  {
    OrderSize(t, order);
    KeysDistinct(t, order);
    InsertUnique(t, k, ppn);
    order' := order;
    if Resident(t, k) {
      assert Insert(t, k, ppn) == t;
    } else {
      hide Lists, Sorted, Unique, Ordered, ByLastUse, Bump, Last, Find, Insert, Resident;
      BumpLast(ByLastUse(uses), k, |t.entries|);
      UsedNext(uses, k);
      LastGrows(KeysOf(t.entries, order), k, |t.entries|);
      if t.free == [] {
        order' := InsertEvicting(t, order, k, ppn);
      } else {
        order' := InsertRoom(t, order, k, ppn);
      }
      OrderSize(Insert(t, k, ppn), order');
    }
  }

  lemma OrderSize(t: Tlb, order: seq<nat>)
    requires Ordered(t, order)
    ensures |order| + |t.free| == |t.entries| > 0 && forall i :: 0 <= i < |order| ==> order[i] < |t.entries|
  {
  }

  // Every flush comes when no slot is free.
  predicate FlushesWhenFull(n: nat, ops: seq<Op>)
    requires n > 0
    decreases |ops|
  {
    ops != [] ==>
      && FlushesWhenFull(n, ops[..|ops| - 1])
      && (ops[|ops| - 1].DoFlush? ==> Steps(n, ops[..|ops| - 1]).t.free == [])
  }

  lemma InitLru(n: nat)
    requires n > 0
    ensures LruInv(Init(n), [], [])
  {
    var t := Init(n);
    forall s: nat | s < n ensures s in t.free {
      assert t.free[s] == s;
    }
  }

  // A flush leaves every slot free exactly once if and only if none was free before: otherwise
  // some slot is listed twice.
  lemma FlushListsIffFull(t: Tlb)
    requires t.Valid()
    ensures Ordered(FlushAll(t), []) <==> t.free == []
  {
    var t' := FlushAll(t);
    var n := |t.entries|;
    if t.free == [] {
      forall s: nat | s < n ensures s in t'.free {
        assert t'.free[s] == s;
      }
    } else {
      var s := t.free[0];
      assert t'.free[0] == s && t'.free[|t.free| + s] == s;
    }
  }

  lemma FlushLru(t: Tlb)
    requires t.Valid() && t.free == []
    ensures LruInv(FlushAll(t), [], [])
  {
    FlushListsIffFull(t);
  }

  lemma {:induction false} RunLru(n: nat, ops: seq<Op>) returns (order: seq<nat>)
    requires n > 0 && FlushesWhenFull(n, ops)
    ensures LruInv(Steps(n, ops).t, order, Steps(n, ops).uses) && |Steps(n, ops).t.entries| == n
    decreases |ops|
  {
    if ops == [] {
      InitLru(n);
      order := [];
    } else {
      hide LruInv, Insert, Lookup, Resident, FlushAll;
      var before := ops[..|ops| - 1];
      order := RunLru(n, before);
      var r, op := Steps(n, before), ops[|ops| - 1];
      if op.DoLookUp? {
        order := LookUpLru(r.t, order, r.uses, KeyOf(op));
      } else if op.DoInsert? {
        order := InsertLru(r.t, order, r.uses, KeyOf(op), Ppn(op.paddr));
      } else {
        FlushLru(r.t);
        FlushSize(r.t);
        order := [];
      }
    }
  }

  lemma FlushSize(t: Tlb)
    requires t.Valid()
    ensures |FlushAll(t).entries| == |t.entries|
  {
  }

  // In every run that flushes only when full, a key is resident if and only if it is among the
  // entryNum distinct keys most recently used since the last flush.
  lemma ResidentIffRecentlyUsed(n: nat, ops: seq<Op>, k: Key)
    requires n > 0 && FlushesWhenFull(n, ops)
    ensures Resident(Steps(n, ops).t, k) <==> k in Last(ByLastUse(Steps(n, ops).uses), n)
  {
    var order := RunLru(n, ops);
    hide Steps, Ordered, Unique, Resident, ByLastUse, Last;
    KeysDistinct(Steps(n, ops).t, order);
  }

  // Two entries, flushed while both are free: a page just used is then thrown out although an
  // older one stays.
  lemma FlushWhenNotFullBreaksLru()
    ensures var k1, k2, k3 := Key(0, 0), Key(4096, 0), Key(8192, 0);
      var t0 := FlushAll(Init(2));
      var t1 := Lookup(Insert(Insert(t0, k1, 0), k2, 0), k1);
      var t2 := Insert(t1, k3, 0);
      Resident(t1, k1) && Resident(t1, k2) && !Resident(t2, k1) && Resident(t2, k2) && Resident(t2, k3)
  {
  }

  // ---- which flushes are harmless ---------------------------------------------------------------

  // After the run the buffer holds exactly the keys used last.
  ghost predicate IsLru(n: nat, ops: seq<Op>)
    requires n > 0
  {
    forall k :: Resident(Steps(n, ops).t, k) <==> k in Last(ByLastUse(Steps(n, ops).uses), n)
  }

  ghost predicate NoFlush(ops: seq<Op>) { forall i :: 0 <= i < |ops| ==> !ops[i].DoFlush? }

  // For a buffer of more than one entry a flush is harmless exactly when no slot is free: then
  // the buffer is least-recently-used however the run goes on until the next flush, and
  // otherwise some way of going on loses the key just used.
  lemma FlushIsHarmlessIffFull(n: nat, ops: seq<Op>)
    requires 1 < n < 0x1_0000 && FlushesWhenFull(n, ops)
    ensures Steps(n, ops).t.free == [] <==> forall more :: NoFlush(more) ==> IsLru(n, ops + [DoFlush] + more)
  {
    hide IsLru, Steps, FlushesWhenFull, NoFlush;
    if Steps(n, ops).t.free == [] {
      forall more | NoFlush(more) ensures IsLru(n, ops + [DoFlush] + more) {
        FullFlushGoesOn(n, ops, more);
        RunIsLru(n, ops + [DoFlush] + more);
      }
    } else {
      var more := LosesTheKeyJustUsed(n, ops);
      assert NoFlush(more) && !IsLru(n, ops + [DoFlush] + more);
    }
  }

  lemma RunIsLru(n: nat, ops: seq<Op>)
    requires n > 0 && FlushesWhenFull(n, ops)
    ensures IsLru(n, ops)
  {
    forall k ensures Resident(Steps(n, ops).t, k) <==> k in Last(ByLastUse(Steps(n, ops).uses), n) {
      ResidentIffRecentlyUsed(n, ops, k);
    }
  }

  lemma {:induction false} FullFlushGoesOn(n: nat, ops: seq<Op>, more: seq<Op>)
    requires n > 0 && FlushesWhenFull(n, ops) && Steps(n, ops).t.free == [] && NoFlush(more)
    ensures FlushesWhenFull(n, ops + [DoFlush] + more)
    decreases |more|
  {
    hide Steps;
    var all := ops + [DoFlush] + more;
    if more == [] {
      assert all[..|all| - 1] == ops && all[|all| - 1] == DoFlush;
    } else {
      FullFlushGoesOn(n, ops, more[..|more| - 1]);
      assert all[..|all| - 1] == ops + [DoFlush] + more[..|more| - 1] && all[|all| - 1] == more[|more| - 1];
    }
  }

  // ---- how a key is lost ------------------------------------------------------------------------

  function Fill(i: nat): Op { DoInsert(i * PAGE, 0, 0) }

  lemma FillKey(i: nat)
    requires i <= 0x1_0000
    ensures KeyOf(Fill(i)) == KeyOf(DoLookUp(i * PAGE, 0)) == Key(i * PAGE, 0)
  {
    assert (i * PAGE) % VSPACE == i * PAGE && (i * PAGE) % PAGE == 0 by { Multiple(i); }
  }

  lemma Multiple(i: nat)
    requires i <= 0x1_0000
    ensures i * PAGE < VSPACE && (i * PAGE) % PAGE == 0
  {
  }

  lemma StepsNext(n: nat, ops: seq<Op>, op: Op)
    requires n > 0
    ensures Steps(n, ops + [op]) == Step(Steps(n, ops), op)
  {
    assert (ops + [op])[..|ops|] == ops;
  }

  // The slots without a mapping.
  function Vacant(t: Tlb): (s: set<nat>) { set i: nat | i < |t.entries| && !t.entries[i].valid }

  // Every mapping is one of the first m pages.
  predicate Filled(t: Tlb, m: nat) {
    forall i :: 0 <= i < |t.entries| && t.entries[i].valid ==>
      exists j: nat :: j < m && t.entries[i].key == Key(j * PAGE, 0)
  }

  lemma NotFilled(t: Tlb, m: nat)
    requires Filled(t, m)
    ensures !Resident(t, Key(m * PAGE, 0))
  {
  }

  // While the slot to be filled next is vacant, filling it takes one vacant slot off the list;
  // the list names more slots than are vacant, so it comes to one that is taken.
  lemma {:induction false} FillToTaken(n: nat, ops: seq<Op>, m: nat) returns (more: seq<Op>, m': nat)
    requires n > 0 && var t := Steps(n, ops).t;
      Unique(t.entries) && Filled(t, m) && |t.free| > |Vacant(t)| && m + |Vacant(t)| <= n < 0x1_0000
    ensures NoFlush(more) && m' <= n
    ensures var t := Steps(n, ops + more).t;
      Unique(t.entries) && Filled(t, m') && t.free != [] && t.free[0] < |t.entries| && t.entries[t.free[0]].valid
    decreases |Vacant(Steps(n, ops).t)|
  {
    hide Steps, Unique, Filled, Resident, Insert;
    var r := Steps(n, ops);
    if r.t.entries[r.t.free[0]].valid {
      more, m' := [], m;
      assert ops + more == ops;
    } else {
      FillKey(m);
      FillStep(r.t, m);
      StepsNext(n, ops, Fill(m));
      more, m' := FillToTaken(n, ops + [Fill(m)], m + 1);
      assert ops + ([Fill(m)] + more) == ops + [Fill(m)] + more;
      more := [Fill(m)] + more;
    }
  }

  lemma FillStep(t: Tlb, m: nat)
    requires t.Valid() && Unique(t.entries) && Filled(t, m) && t.free != [] && !t.entries[t.free[0]].valid
    ensures var t' := Insert(t, Key(m * PAGE, 0), Ppn(0));
      && Unique(t'.entries) && Filled(t', m + 1) && |t'.free| == |t.free| - 1
      && Vacant(t') == Vacant(t) - {t.free[0]} && t.free[0] in Vacant(t)
  {
    NotFilled(t, m);
    InsertUnique(t, Key(m * PAGE, 0), Ppn(0));
    var t' := Insert(t, Key(m * PAGE, 0), Ppn(0));
    forall i | 0 <= i < |t'.entries| && t'.entries[i].valid
      ensures exists j: nat :: j < m + 1 && t'.entries[i].key == Key(j * PAGE, 0)
    {
      if i == t.free[0] {
        assert t'.entries[i].key == Key(m * PAGE, 0);
      } else {
        var j: nat :| j < m && t.entries[i].key == Key(j * PAGE, 0);
        assert j < m + 1;
      }
    }
  }

  function UpTo(n: nat): (s: set<nat>)
    ensures |s| == n && forall i: nat :: i in s <==> i < n
  { if n == 0 then {} else UpTo(n - 1) + {n - 1} }

  lemma FlushVacates(t: Tlb)
    requires t.Valid()
    ensures var t' := FlushAll(t);
      && Unique(t'.entries) && Filled(t', 0) && |Vacant(t')| == |t.entries| && |t'.free| == |t.free| + |t.entries|
  {
    assert Vacant(FlushAll(t)) == UpTo(|t.entries|);
  }

  lemma {:induction false} EntryCount(n: nat, ops: seq<Op>)
    requires n > 0
    ensures |Steps(n, ops).t.entries| == n
    decreases |ops|
  {
    if ops != [] {
      hide Insert, Lookup, FlushAll, Resident;
      EntryCount(n, ops[..|ops| - 1]);
      FlushSize(Steps(n, ops[..|ops| - 1]).t);
    }
  }

  // Filling a slot that is taken throws its key out, even if that key was just used.
  lemma TakenIsLost(t: Tlb, k: Key, k': Key)
    requires t.Valid() && Unique(t.entries) && t.free != [] && k != k' && !Resident(t, k')
    requires t.entries[t.free[0]].valid && t.entries[t.free[0]].key == k
    ensures Resident(t, k) && !Resident(Insert(Lookup(t, k), k', Ppn(0)), k) && !Resident(Lookup(t, k), k')
  {
  }

  lemma LastTwoUses(uses: seq<Key>, k: Key, k': Key, n: nat)
    requires n > 1 && k != k'
    ensures k in Last(ByLastUse(uses + [k] + [k']), n)
  {
    UsedNext(uses, k);
    UsedNext(uses + [k], k');
    hide ByLastUse;
    var ks := Minus(ByLastUse(uses), k);
    assert ByLastUse(uses + [k] + [k']) == Minus(ks + [k], k') + [k'];
    MinusKeepsLast(ks, k, k');
    var all := Minus(ks + [k], k') + [k'];
    assert all[|all| - 2] == k;
    assert Last(all, n)[|Last(all, n)| - 2] == k;
  }

  lemma MinusKeepsLast(ks: seq<Key>, k: Key, k': Key)
    requires k != k'
    ensures var r := Minus(ks + [k], k'); r != [] && r[|r| - 1] == k
  {
    assert (ks + [k])[..|ks|] == ks;
  }

  lemma LosesTheKeyJustUsed(n: nat, ops: seq<Op>) returns (more: seq<Op>)
    requires 1 < n < 0x1_0000 && Steps(n, ops).t.free != []
    ensures NoFlush(more) && !IsLru(n, ops + [DoFlush] + more)
  {
    hide Steps, Unique, Resident, Filled, Insert, Lookup, FlushAll, ByLastUse, Last;
    var flushed := ops + [DoFlush];
    EntryCount(n, ops);
    StepsNext(n, ops, DoFlush);
    FlushVacates(Steps(n, ops).t);
    var fill, m := FillToTaken(n, flushed, 0);
    var r := Steps(n, flushed + fill);
    var j := TakenKey(r.t, m);
    FillKey(j);
    FillKey(m);
    var k, k' := Key(j * PAGE, 0), Key(m * PAGE, 0);
    NotFilled(r.t, m);
    assert k != k' by { assert j * PAGE != m * PAGE; }
    TakenIsLost(r.t, k, k');
    StepsNext(n, flushed + fill, DoLookUp(j * PAGE, 0));
    StepsNext(n, flushed + fill + [DoLookUp(j * PAGE, 0)], Fill(m));
    LastTwoUses(r.uses, k, k', n);
    more := fill + [DoLookUp(j * PAGE, 0), Fill(m)];
    assert flushed + fill + [DoLookUp(j * PAGE, 0)] + [Fill(m)] == flushed + more;
    var last := Steps(n, flushed + more);
    assert !Resident(last.t, k) && k in Last(ByLastUse(last.uses), n);
  }

  lemma TakenKey(t: Tlb, m: nat) returns (j: nat)
    requires Filled(t, m) && t.free != [] && t.free[0] < |t.entries| && t.entries[t.free[0]].valid
    ensures j < m && t.entries[t.free[0]].key == Key(j * PAGE, 0)
  {
    j :| j < m && t.entries[t.free[0]].key == Key(j * PAGE, 0);
  }

  // A buffer of one entry is least-recently-used whenever it is flushed.
  lemma OneEntryIsLru(ops: seq<Op>)
    ensures IsLru(1, ops)
  {
    hide Steps;
    OneEntryHoldsLast(ops);
    var uses := Steps(1, ops).uses;
    if uses != [] {
      var n := |uses| - 1;
      assert uses[..n] + [uses[n]] == uses;
      UsedNext(uses[..n], uses[n]);
      assert Last(ByLastUse(uses), 1) == [uses[n]];
    }
  }

  lemma {:induction false} OneEntryHoldsLast(ops: seq<Op>)
    ensures var r := Steps(1, ops);
      && |r.t.entries| == 1
      && if r.t.entries[0].valid then r.uses != [] && r.uses[|r.uses| - 1] == r.t.entries[0].key else r.uses == []
    decreases |ops|
  {
    if ops != [] {
      hide Steps;
      var before := ops[..|ops| - 1];
      OneEntryHoldsLast(before);
      assert before + [ops[|ops| - 1]] == ops;
      StepsNext(1, before, ops[|ops| - 1]);
      OneEntryStep(Steps(1, before), ops[|ops| - 1]);
    }
  }

  lemma OneEntryStep(r: Run, op: Op)
    requires r.t.Valid() && |r.t.entries| == 1
    requires if r.t.entries[0].valid then r.uses != [] && r.uses[|r.uses| - 1] == r.t.entries[0].key else r.uses == []
    ensures var r' := Step(r, op);
      && |r'.t.entries| == 1
      && if r'.t.entries[0].valid then r'.uses != [] && r'.uses[|r'.uses| - 1] == r'.t.entries[0].key else r'.uses == []
  {
  }
}
