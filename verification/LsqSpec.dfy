// Value-level specification of the load/store queue (src/Processor/Component/Lsq.cc).
module LsqSpec {
  import opened DynInsn
  import opened LoopQueue

  datatype LoadState = LoadWaitSend | LoadInflight | LoadExecuted

  datatype StoreState = StoreWaitSend | StoreInflight | StoreExecuted

  // `id` stands for the instruction pointer kept in the entry.
  datatype LdqEntry = LdqEntry(
    id: nat, d: Decoded, state: LoadState, killed: bool, commited: bool,
    hasDependancy: bool, oldestStqTag: nat, addressReady: bool, address: nat)

  datatype StqEntry = StqEntry(
    id: nat, d: Decoded, state: StoreState, commited: bool,
    addressReady: bool, address: nat, data: Val)

  datatype Lsq = Lsq(ldq: Queue<LdqEntry>, stq: Queue<StqEntry>) {
    predicate Valid() { ldq.Valid() && stq.Valid() }

    predicate HasRoom(d: Decoded) {
      && (d.fu == LDU ==> !ldq.Full())
      && (d.fu == STU ==> !stq.Full())
    }
  }

  function NewLdqEntry(l: Lsq, id: nat, d: Decoded): LdqEntry
    requires l.Valid()
  {
    LdqEntry(id, d, LoadWaitSend, false, false, l.stq.elems != [], l.stq.Latest(), false, 0)
  }

  function NewStqEntry(id: nat, d: Decoded): StqEntry {
    StqEntry(id, d, StoreWaitSend, false, false, 0, 0)
  }

  // One instruction's share of Lsq::Allocate; the tag is 0 for anything but loads and stores.
  function Allocate(l: Lsq, id: nat, d: Decoded): (r: (Lsq, nat))
    requires l.Valid() && l.HasRoom(d)
    ensures r.0.Valid()
  {
    if d.fu == LDU then
      (l.(ldq := l.ldq.Push(NewLdqEntry(l, id, d))), l.ldq.Tail())
    else if d.fu == STU then
      (l.(stq := l.stq.Push(NewStqEntry(id, d))), l.stq.Tail())
    else (l, 0)
  }

  // The address generation unit's write-back: no liveness check in the source.
  function WriteBack(l: Lsq, d: Decoded, lsqTag: nat, addr: nat, data: Val): (r: Lsq)
    requires l.Valid()
    requires d.fu == LDU ==> lsqTag < l.ldq.size
    requires d.fu == STU ==> lsqTag < l.stq.size
    ensures r.Valid()
  {
    if d.fu == LDU then
      if l.ldq.Live(lsqTag) then
        l.(ldq := l.ldq.Update(lsqTag, l.ldq.At(lsqTag).(addressReady := true, address := addr)))
      else l
    else if d.fu == STU then
      if l.stq.Live(lsqTag) then
        l.(stq := l.stq.Update(lsqTag, l.stq.At(lsqTag).(addressReady := true, address := addr, data := data)))
      else l
    else l
  }

  // Index of the load TryIssueLoad stops at: the first one waiting to be sent and not killed.
  function FirstWaitingLoad(q: seq<LdqEntry>): (k: nat)
    ensures k <= |q|
    ensures k < |q| ==> q[k].state == LoadWaitSend && !q[k].killed
    ensures forall i :: 0 <= i < k ==> !(q[i].state == LoadWaitSend && !q[i].killed)
  {
    if q == [] || (q[0].state == LoadWaitSend && !q[0].killed) then 0
    else 1 + FirstWaitingLoad(q[1..])
  }

  function FirstWaitingStore(q: seq<StqEntry>): (k: nat)
    ensures k <= |q|
    ensures k < |q| ==> q[k].state == StoreWaitSend
    ensures forall i :: 0 <= i < k ==> q[i].state != StoreWaitSend
  {
    if q == [] || q[0].state == StoreWaitSend then 0 else 1 + FirstWaitingStore(q[1..])
  }

  // The load the next TryIssueLoad sends, if it sends one.
  function LoadToIssue(l: Lsq): (r: Option<nat>)
    ensures r.Some? ==> r.value < |l.ldq.elems|
  {
    var k := FirstWaitingLoad(l.ldq.elems);
    if k < |l.ldq.elems| && l.ldq.elems[k].addressReady && !l.ldq.elems[k].hasDependancy then Some(k) else None
  }

  function StoreToIssue(l: Lsq): (r: Option<nat>)
    ensures r.Some? ==> r.value < |l.stq.elems|
  {
    var k := FirstWaitingStore(l.stq.elems);
    if k < |l.stq.elems| && l.stq.elems[k].commited then Some(k) else None
  }

  function SetLoadState(l: Lsq, slot: nat, st: LoadState): (r: Lsq)
    requires l.Valid() && l.ldq.Live(slot)
    ensures r.Valid()
  {
    l.(ldq := l.ldq.Update(slot, l.ldq.At(slot).(state := st)))
  }

  function SetStoreState(l: Lsq, slot: nat, st: StoreState): (r: Lsq)
    requires l.Valid() && l.stq.Live(slot)
    ensures r.Valid()
  {
    l.(stq := l.stq.Update(slot, l.stq.At(slot).(state := st)))
  }

  function KillLoad(l: Lsq, slot: nat): (r: Lsq)
    requires l.Valid() && slot < l.ldq.size
    ensures r.Valid()
  {
    if l.ldq.Live(slot) then l.(ldq := l.ldq.Update(slot, l.ldq.At(slot).(killed := true))) else l
  }

  // KillStoreEntry ignores its tag: it moves the tail back by one.
  function KillStore(l: Lsq): (r: Lsq)
    requires l.Valid() && l.stq.elems != []
    ensures r.Valid()
  {
    l.(stq := l.stq.DropLatest())
  }

  function CommitLoad(l: Lsq, slot: nat): (r: Lsq)
    requires l.Valid() && slot < l.ldq.size
    ensures r.Valid()
  {
    if l.ldq.Live(slot) then l.(ldq := l.ldq.Update(slot, l.ldq.At(slot).(commited := true))) else l
  }

  function CommitStore(l: Lsq, slot: nat): (r: Lsq)
    requires l.Valid() && slot < l.stq.size
    ensures r.Valid()
  {
    if l.stq.Live(slot) then l.(stq := l.stq.Update(slot, l.stq.At(slot).(commited := true))) else l
  }

  function ClearOne(e: LdqEntry, stqHead: nat): LdqEntry {
    if e.hasDependancy && e.oldestStqTag == stqHead then e.(hasDependancy := false) else e
  }

  function ClearDeps(q: seq<LdqEntry>, stqHead: nat): (r: seq<LdqEntry>)
    ensures |r| == |q|
    ensures forall i :: 0 <= i < |q| ==> r[i] == ClearOne(q[i], stqHead)
  {
    seq(|q|, i requires 0 <= i < |q| => ClearOne(q[i], stqHead))
  }

  // One turn of the first loop of Lsq::Evaulate.
  predicate CanPopStore(l: Lsq) { l.stq.elems != [] && l.stq.elems[0].state == StoreExecuted }

  function PopStore(l: Lsq): (r: Lsq)
    requires l.Valid() && CanPopStore(l)
    ensures r.Valid()
  {
    Lsq(l.ldq.(elems := ClearDeps(l.ldq.elems, l.stq.head)), l.stq.Pop())
  }

  // One turn of the second loop.
  predicate CanPopLoad(l: Lsq) {
    && l.ldq.elems != []
    && (l.ldq.elems[0].commited || (l.ldq.elems[0].killed && l.ldq.elems[0].state != LoadInflight))
  }

  function PopLoad(l: Lsq): (r: Lsq)
    requires l.Valid() && CanPopLoad(l)
    ensures r.Valid()
  {
    l.(ldq := l.ldq.Pop())
  }

  function PopStores(l: Lsq): (r: Lsq)
    requires l.Valid()
    ensures r.Valid()
    decreases |l.stq.elems|
  {
    if CanPopStore(l) then PopStores(PopStore(l)) else l
  }

  function PopLoads(l: Lsq): (r: Lsq)
    requires l.Valid()
    ensures r.Valid()
    decreases |l.ldq.elems|
  {
    if CanPopLoad(l) then PopLoads(PopLoad(l)) else l
  }

  function Evaluate(l: Lsq): (r: Lsq)
    requires l.Valid()
    ensures r.Valid()
  {
    PopLoads(PopStores(l))
  }

  // Lsq::TryAllocate: how many leading instructions fit, given what is left of each queue.
  function FitCount(ds: seq<Decoded>, loads: nat, stores: nat): (n: nat)
    ensures n <= |ds|
  {
    if ds == [] then 0
    else if ds[0].fu == LDU then (if loads > 0 then 1 + FitCount(ds[1..], loads - 1, stores) else 0)
    else if ds[0].fu == STU then (if stores > 0 then 1 + FitCount(ds[1..], loads, stores - 1) else 0)
    else 1 + FitCount(ds[1..], loads, stores)
  }
}
