// Packages: Rcu::TryAllocate and Lsq::TryAllocate select a prefix, Rcu::Allocate renames and
// allocates it in one batch (src/Processor/Component/Rcu.cc:49-165, Lsq.cc:46-86). Here the
// batch is defined one instruction at a time.
module Package {
  import opened DynInsn
  import opened LoopQueue
  import L = LsqSpec
  import R = RcuSpec

  // An instruction of a package as the reorder unit sees it.
  datatype Item = Item(id: nat, d: Decoded, lsqTag: nat)

  function Decodeds(xs: seq<Item>): (ds: seq<Decoded>)
    ensures |ds| == |xs| && forall i :: 0 <= i < |xs| ==> ds[i] == xs[i].d
  { seq(|xs|, i requires 0 <= i < |xs| => xs[i].d) }

  function Writers(ds: seq<Decoded>, n: nat): (k: nat)
    requires n <= |ds|
    ensures k <= n
  {
    if n == 0 then 0 else Writers(ds, n - 1) + (if ds[n - 1].Writes() then 1 else 0)
  }

  function Kinds(ds: seq<Decoded>, fu: FuncType, n: nat): (k: nat)
    requires n <= |ds|
    ensures k <= n
  {
    if n == 0 then 0 else Kinds(ds, fu, n - 1) + (if ds[n - 1].fu == fu then 1 else 0)
  }

  // ---- the dry runs return the longest prefix that fits ------------------------------------

  lemma {:induction false} WritersShift(ds: seq<Decoded>, n: nat)
    requires 0 < n <= |ds|
    ensures Writers(ds, n) == (if ds[0].Writes() then 1 else 0) + Writers(ds[1..], n - 1)
  {
    if n > 1 { WritersShift(ds, n - 1); }
  }

  lemma {:induction false} KindsShift(ds: seq<Decoded>, fu: FuncType, n: nat)
    requires 0 < n <= |ds|
    ensures Kinds(ds, fu, n) == (if ds[0].fu == fu then 1 else 0) + Kinds(ds[1..], fu, n - 1)
  {
    if n > 1 { KindsShift(ds, fu, n - 1); }
  }

  predicate RcuFits(ds: seq<Decoded>, room: nat, regs: nat, n: nat)
    requires n <= |ds|
  {
    n <= room && Writers(ds, n) <= regs
  }

  predicate LsqFits(ds: seq<Decoded>, loads: nat, stores: nat, n: nat)
    requires n <= |ds|
  {
    Kinds(ds, LDU, n) <= loads && Kinds(ds, STU, n) <= stores
  }

  lemma {:induction false} RcuFitIsLongest(ds: seq<Decoded>, room: nat, regs: nat, n: nat)
    requires n <= |ds|
    ensures RcuFits(ds, room, regs, n) <==> n <= R.FitCount(ds, room, regs)
    decreases n
  {
    if n > 0 {
      WritersShift(ds, n);
      if room > 0 && (ds[0].Writes() ==> regs > 0) {
        RcuFitIsLongest(ds[1..], room - 1, if ds[0].Writes() then regs - 1 else regs, n - 1);
      }
    }
  }

  lemma {:induction false} LsqFitIsLongest(ds: seq<Decoded>, loads: nat, stores: nat, n: nat)
    requires n <= |ds|
    ensures LsqFits(ds, loads, stores, n) <==> n <= L.FitCount(ds, loads, stores)
    decreases n
  {
    if n > 0 {
      KindsShift(ds, LDU, n);
      KindsShift(ds, STU, n);
      var l := ds[0].fu == LDU;
      var s := ds[0].fu == STU;
      if (l ==> loads > 0) && (s ==> stores > 0) {
        LsqFitIsLongest(ds[1..], if l then loads - 1 else loads, if s then stores - 1 else stores, n - 1);
      }
    }
  }

  lemma {:induction false} WritersPrefix(ds: seq<Decoded>, i: nat, n: nat)
    requires i <= n <= |ds|
    ensures Writers(ds, i) <= Writers(ds, n)
    decreases n
  {
    if i < n { WritersPrefix(ds, i, n - 1); }
  }

  lemma {:induction false} KindsPrefix(ds: seq<Decoded>, fu: FuncType, i: nat, n: nat)
    requires i <= n <= |ds|
    ensures Kinds(ds, fu, i) <= Kinds(ds, fu, n)
    decreases n
  {
    if i < n { KindsPrefix(ds, fu, i, n - 1); }
  }

  // ---- one at a time --------------------------------------------------------------------------

  predicate TakesFit(r: R.Rcu, ds: seq<Decoded>, n: nat) {
    && r.Valid() && n <= |ds| && (forall i :: 0 <= i < |ds| ==> ds[i].WellDecoded())
    && |r.rob.elems| + n <= r.rob.size && Writers(ds, n) <= |r.free|
  }

  lemma TakesPrefix(r: R.Rcu, ds: seq<Decoded>, k: nat, n: nat)
    requires TakesFit(r, ds, n) && k <= n
    ensures TakesFit(r, ds, k)
  {
    WritersPrefix(ds, k, n);
  }

  // The register half of the first n instructions, taken singly in order.
  function TakeMany(r: R.Rcu, ds: seq<Decoded>, n: nat): (r': R.Rcu)
    requires TakesFit(r, ds, n)
    ensures r'.Valid() && |r'.free| == |r.free| - Writers(ds, n)
    ensures r'.rob == r.rob && r'.mode == r.mode && r'.tag == r.tag && r'.excp == r.excp && r'.regs == r.regs
  {
    if n == 0 then r else R.TakeRegister(TakeMany(r, ds, n - 1), ds[n - 1])
  }

  // The state the k-th of n instructions is renamed in.
  function TakeAt(r: R.Rcu, ds: seq<Decoded>, n: nat, k: nat): (r': R.Rcu)
    requires TakesFit(r, ds, n) && k <= n
    ensures r'.Valid() && (k < n ==> R.CanAllocate(r', ds[k])) && |r'.table| == ISA_REGS
  {
    TakesPrefix(r, ds, k, n);
    if k < n then TakesPrefix(r, ds, k + 1, n); TakeMany(r, ds, k) else TakeMany(r, ds, k)
  }

  lemma TakeStep(r: R.Rcu, ds: seq<Decoded>, n: nat, k: nat)
    requires TakesFit(r, ds, n) && k < n
    ensures TakeAt(r, ds, n, 0) == r && TakeAt(r, ds, n, n) == TakeMany(r, ds, n)
    ensures TakeAt(r, ds, n, k + 1) == R.TakeRegister(TakeAt(r, ds, n, k), ds[k])
  {
  }

  // Renaming and allocating the first n instructions singly in order.
  function AllocateMany(r: R.Rcu, xs: seq<Item>, n: nat): (r': R.Rcu)
    requires TakesFit(r, Decodeds(xs), n) && |r.regs| > 0
    ensures r'.Valid() && |r'.rob.elems| == |r.rob.elems| + n && r'.rob.size == r.rob.size
    ensures |r'.free| == |r.free| - Writers(Decodeds(xs), n) && r'.regs == r.regs
  {
    if n == 0 then r
    else
      var p, x := AllocateMany(r, xs, n - 1), xs[n - 1];
      OneSizes(p, x);
      R.AllocateOne(p, x.id, x.d, x.lsqTag)
  }

  lemma OneSizes(r: R.Rcu, x: Item)
    requires r.Valid() && x.d.WellDecoded() && R.CanAllocate(r, x.d) && |r.regs| > 0
    ensures var r' := R.AllocateOne(r, x.id, x.d, x.lsqTag);
      && |r'.rob.elems| == |r.rob.elems| + 1 && r'.rob.size == r.rob.size && r'.regs == r.regs
      && |r'.free| == |r.free| - (if x.d.Writes() then 1 else 0)
  {
    hide R.AllBelow, R.EntriesInRange;
  }

  function AllocateAt(r: R.Rcu, xs: seq<Item>, n: nat, k: nat): (r': R.Rcu)
    requires TakesFit(r, Decodeds(xs), n) && |r.regs| > 0 && k <= n
    ensures r'.Valid() && (k < n ==> R.CanAllocate(r', xs[k].d) && xs[k].d.WellDecoded())
    ensures r'.rob.size == r.rob.size && |r'.regs| == |r.regs|
  {
    TakesPrefix(r, Decodeds(xs), k, n);
    if k < n then TakesPrefix(r, Decodeds(xs), k + 1, n); AllocateMany(r, xs, k) else AllocateMany(r, xs, k)
  }

  lemma AllocateStep(r: R.Rcu, xs: seq<Item>, n: nat, k: nat)
    requires TakesFit(r, Decodeds(xs), n) && |r.regs| > 0 && k < n
    ensures AllocateAt(r, xs, n, 0) == r && AllocateAt(r, xs, n, n) == AllocateMany(r, xs, n)
    ensures AllocateAt(r, xs, n, k + 1) == R.AllocateOne(AllocateAt(r, xs, n, k), xs[k].id, xs[k].d, xs[k].lsqTag)
  {
  }

  predicate SameRegisters(a: R.Rcu, b: R.Rcu) {
    a.table == b.table && a.free == b.free && a.busy == b.busy && a.regs == b.regs
  }

  lemma OneLeavesRegisters(a: R.Rcu, b: R.Rcu, x: Item)
    requires a.Valid() && b.Valid() && x.d.WellDecoded() && |a.regs| > 0 && SameRegisters(a, b)
    requires R.CanAllocate(a, x.d) && R.CanAllocate(b, x.d)
    ensures SameRegisters(R.AllocateOne(a, x.id, x.d, x.lsqTag), R.TakeRegister(b, x.d))
    ensures R.RenameOne(a, x.d) == R.RenameOne(b, x.d)
  {
    hide R.AllBelow, R.EntriesInRange;
  }

  // Creating the entries first or last makes no difference to the registers, and each
  // instruction is renamed alike.
  lemma {:induction false} EntriesLeaveRegisters(r: R.Rcu, xs: seq<Item>, n: nat, k: nat)
    requires TakesFit(r, Decodeds(xs), n) && |r.regs| > 0 && k <= n
    ensures SameRegisters(AllocateAt(r, xs, n, k), TakeAt(r, Decodeds(xs), n, k))
    ensures k < n ==> R.RenameOne(AllocateAt(r, xs, n, k), xs[k].d) == R.RenameOne(TakeAt(r, Decodeds(xs), n, k), xs[k].d)
    decreases k
  {
    hide R.AllBelow, R.EntriesInRange, R.AllocateOne, R.TakeRegister, SameRegisters, R.RenameOne, R.Rcu.Valid,
      AllocateAt, TakeAt;
    var ds := Decodeds(xs);
    if k > 0 {
      EntriesLeaveRegisters(r, xs, n, k - 1);
      OneLeavesRegisters(AllocateAt(r, xs, n, k - 1), TakeAt(r, ds, n, k - 1), xs[k - 1]);
      AllocateStep(r, xs, n, k - 1);
      TakeStep(r, ds, n, k - 1);
    } else {
      AllocateNone(r, xs, n);
    }
    if k < n {
      OneLeavesRegisters(AllocateAt(r, xs, n, k), TakeAt(r, ds, n, k), xs[k]);
    }
  }

  lemma AllocateNone(r: R.Rcu, xs: seq<Item>, n: nat)
    requires TakesFit(r, Decodeds(xs), n) && |r.regs| > 0
    ensures AllocateAt(r, xs, n, 0) == r && TakeAt(r, Decodeds(xs), n, 0) == r
    ensures AllocateAt(r, xs, n, n) == AllocateMany(r, xs, n) && TakeAt(r, Decodeds(xs), n, n) == TakeMany(r, Decodeds(xs), n)
    ensures SameRegisters(r, r)
  {
  }

  // Room in both queues for the loads and stores of the first n instructions.
  predicate RoomFor(l: L.Lsq, xs: seq<Item>, n: nat) {
    && l.Valid() && n <= |xs|
    && |l.ldq.elems| + Kinds(Decodeds(xs), LDU, n) <= l.ldq.size
    && |l.stq.elems| + Kinds(Decodeds(xs), STU, n) <= l.stq.size
  }

  lemma RoomPrefix(l: L.Lsq, xs: seq<Item>, i: nat, n: nat)
    requires RoomFor(l, xs, n) && i <= n
    ensures RoomFor(l, xs, i)
    ensures i > 0 ==> RoomFor(l, xs, i - 1) && QueueMany(l, xs, i - 1).HasRoom(xs[i - 1].d)
  {
    KindsPrefix(Decodeds(xs), LDU, i, n);
    KindsPrefix(Decodeds(xs), STU, i, n);
  }

  // Lsq::Allocate on the first n instructions.
  function QueueMany(l: L.Lsq, xs: seq<Item>, n: nat): (l': L.Lsq)
    requires RoomFor(l, xs, n)
    ensures l'.Valid() && l'.ldq.size == l.ldq.size && l'.stq.size == l.stq.size
    ensures |l'.ldq.elems| == |l.ldq.elems| + Kinds(Decodeds(xs), LDU, n)
    ensures |l'.stq.elems| == |l.stq.elems| + Kinds(Decodeds(xs), STU, n)
  {
    if n == 0 then l else L.Allocate(QueueMany(l, xs, n - 1), xs[n - 1].id, xs[n - 1].d).0
  }

  // The queue slot the i-th instruction gets; 0 for anything but loads and stores.
  function TagOf(l: L.Lsq, xs: seq<Item>, n: nat, i: nat): (tag: nat)
    requires RoomFor(l, xs, n) && i < n
  {
    RoomPrefix(l, xs, i + 1, n);
    L.Allocate(QueueMany(l, xs, i), xs[i].id, xs[i].d).1
  }

  lemma QueueNone(l: L.Lsq, xs: seq<Item>)
    requires RoomFor(l, xs, 0)
    ensures QueueMany(l, xs, 0) == l
  {
  }

  // The next instruction finds room, and takes the slot its tag says.
  lemma QueueStep(l: L.Lsq, xs: seq<Item>, i: nat, n: nat)
    requires RoomFor(l, xs, n) && RoomFor(l, xs, i) && RoomFor(l, xs, i + 1) && i < n
    ensures var li := QueueMany(l, xs, i);
      && li.HasRoom(xs[i].d)
      && QueueMany(l, xs, i + 1) == L.Allocate(li, xs[i].id, xs[i].d).0
      && TagOf(l, xs, n, i) == L.Allocate(li, xs[i].id, xs[i].d).1
      && (xs[i].d.fu != LDU && xs[i].d.fu != STU ==> TagOf(l, xs, n, i) == 0)
  {
    RoomPrefix(l, xs, i + 1, n);
  }
}
