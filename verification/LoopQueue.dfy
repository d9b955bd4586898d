// The circular queue behind the reorder buffer, both LSQ queues and the front-end
// buffers (src/Processor/Component/LoopQueue.hh).
module LoopQueue {

  // The slot holding the k-th oldest entry of a queue of `size` slots.
  function SlotOf(size: nat, head: nat, k: nat): (slot: nat)
    requires head < size && k <= size
    ensures slot < size
  {
    if head + k < size then head + k else head + k - size
  }

  // The distance of a slot from the header, modulo the size.
  function PosOf(size: nat, head: nat, slot: nat): (k: nat)
    requires head < size && slot < size
    ensures k < size && SlotOf(size, head, k) == slot
  {
    if slot >= head then slot - head else slot + size - head
  }

  function NextPtr(size: nat, cur: nat): (next: nat)
    requires cur < size
    ensures next < size
  {
    if cur == size - 1 then 0 else cur + 1
  }

  function LastPtr(size: nat, cur: nat): (last: nat)
    requires cur < size
    ensures last < size && NextPtr(size, last) == cur
  {
    if cur == 0 then size - 1 else cur - 1
  }

  // The wrap-aware age comparison, as written in the source.
  predicate OlderThan(head: nat, tag1: nat, tag2: nat) {
    if (tag1 >= head) != (tag2 >= head) then tag1 > tag2 else tag1 < tag2
  }

  // Abstract value of a queue: the live entries from oldest to youngest.
  datatype Queue<T> = Queue(size: nat, head: nat, elems: seq<T>) {
    predicate Valid() { head < size && |elems| <= size }

    function Slot(k: nat): (slot: nat)
      requires Valid() && k <= size
      ensures slot < size
    { SlotOf(size, head, k) }

    // Distance of a slot from the header; meaningful for slots below the size.
    function Dist(slot: nat): (k: int) { if slot >= head then slot - head else slot + size - head }

    function Pos(slot: nat): (k: nat)
      requires Valid() && slot < size
      ensures k < size && Slot(k) == slot
    { Dist(slot) }

    predicate Live(slot: nat)
      requires Valid()
    { slot < size && Pos(slot) < |elems| }

    function At(slot: nat): T
      requires Valid() && Live(slot)
    { elems[Pos(slot)] }

    function Tail(): (slot: nat)
      requires Valid()
      ensures slot < size
    { Slot(|elems|) }

    // Slot of the youngest entry; of the slot before the header when empty.
    function Latest(): (slot: nat)
      requires Valid()
      ensures slot < size
    { LastPtr(size, Tail()) }

    predicate Full() { |elems| == size }

    predicate IsOlder(tag1: nat, tag2: nat) { OlderThan(head, tag1, tag2) }

    function Push(x: T): (q: Queue<T>)
      requires Valid() && !Full()
      ensures q.Valid()
    { this.(elems := elems + [x]) }

    function Pop(): (q: Queue<T>)
      requires Valid() && elems != []
      ensures q.Valid()
    { Queue(size, NextPtr(size, head), elems[1..]) }

    function DropLatest(): (q: Queue<T>)
      requires Valid() && elems != []
      ensures q.Valid()
    { this.(elems := elems[..|elems| - 1]) }

    // Writing through operator[]: a slot that is not live leaves the value unchanged.
    function Update(slot: nat, x: T): (q: Queue<T>)
      requires Valid() && slot < size
      ensures q.Valid()
    { if Live(slot) then this.(elems := elems[Pos(slot) := x]) else this }
  }

  // isOlder is comparison of distances from the header, for all tags, live or not.
  lemma OlderIsDistance(size: nat, head: nat, tag1: nat, tag2: nat)
    requires head < size && tag1 < size && tag2 < size
    ensures OlderThan(head, tag1, tag2) <==> PosOf(size, head, tag1) < PosOf(size, head, tag2)
  {
  }

  // Slots and positions are inverse, and the youngest entry sits in Latest().
  lemma SlotPos<T>(q: Queue<T>, k: nat)
    requires q.Valid() && k < q.size
    ensures q.Pos(q.Slot(k)) == k
    ensures q.elems != [] ==> q.Pos(q.Latest()) == |q.elems| - 1
  {
  }

  // The write-back guard `!empty && (older than the latest || equal to the latest)`
  // holds of a tag exactly when its slot is live.
  lemma GuardIsLiveness<T>(q: Queue<T>, tag: nat)
    requires q.Valid() && tag < q.size
    ensures q.elems != [] && (q.IsOlder(tag, q.Latest()) || tag == q.Latest()) <==> q.Live(tag)
  {
  }

  // Popping moves every other slot one step closer to the header.
  lemma PopShifts<T>(q: Queue<T>, slot: nat)
    requires q.Valid() && q.elems != [] && slot < q.size
    ensures slot != q.head ==> q.Pop().Pos(slot) == q.Pos(slot) - 1
    ensures slot == q.head ==> q.Pop().Pos(slot) == q.size - 1
  {
  }

  // Filling the slot that was just reserved is the same as pushing.
  lemma PushUpdate<T>(q: Queue<T>, x: T, y: T)
    requires q.Valid() && !q.Full()
    ensures q.Push(x).Live(q.Tail()) && q.Push(x).Update(q.Tail(), y) == q.Push(y)
  {
  }

  class LoopQueue<T(0)> {
    const dataVec: array<T>
    var header: nat
    var tail: nat
    var usage: nat

    ghost predicate Valid()
      reads this, dataVec
    {
      && header < dataVec.Length && tail < dataVec.Length && usage <= dataVec.Length
      && tail == SlotOf(dataVec.Length, header, usage)
    }

    ghost function View(): (q: Queue<T>)
      reads this, dataVec
      requires Valid()
      ensures q.Valid() && q.size == dataVec.Length && q.head == header
      ensures |q.elems| == usage
      ensures forall k :: 0 <= k < usage ==> q.elems[k] == dataVec[SlotOf(dataVec.Length, header, k)]
    {
      Queue(dataVec.Length, header,
            if header + usage <= dataVec.Length then dataVec[header..header + usage]
            else dataVec[header..] + dataVec[..header + usage - dataVec.Length])
    }

    constructor (depth: nat, blank: T)
      requires depth > 0
      ensures Valid() && fresh(dataVec)
      ensures View() == Queue(depth, 0, [])
    {
      dataVec := new T[depth](_ => blank);
      header, tail, usage := 0, 0, 0;
    }

    method Reset(blank: T)
      requires Valid()
      modifies this, dataVec
      ensures Valid() && View() == Queue(dataVec.Length, 0, [])
    {
      tail, header, usage := 0, 0, 0;
      var i := 0;
      while i < dataVec.Length
        invariant tail == 0 && header == 0 && usage == 0
      {
        dataVec[i] := blank;
        i := i + 1;
      }
    }

    function GetLatest(): (slot: nat)
      reads this, dataVec
      requires Valid()
      ensures slot == View().Latest()
    {
      LastPtr(dataVec.Length, tail)
    }

    predicate IsOlder(tag1: nat, tag2: nat)
      reads this
    {
      OlderThan(header, tag1, tag2)
    }

    method HeaderInc()
      requires Valid() && usage > 0
      modifies this
      ensures Valid() && View() == old(View()).Pop()
    {
      if header == dataVec.Length - 1 {
        header := 0;
      } else {
        header := header + 1;
      }
      usage := usage - 1;
    }

    method TailInc()
      requires Valid() && usage < dataVec.Length
      modifies this
      ensures Valid() && View() == old(View()).Push(old(dataVec[tail]))
    {
      if tail == dataVec.Length - 1 {
        tail := 0;
      } else {
        tail := tail + 1;
      }
      usage := usage + 1;
      assert View().elems == old(View()).elems + [old(dataVec[tail])];
    }

    method Push(data: T)
      requires Valid() && usage < dataVec.Length
      modifies this, dataVec
      ensures Valid() && View() == old(View()).Push(data)
    {
      dataVec[tail] := data;
      assert View().elems == old(View()).elems;
      TailInc();
    }

    method Pop() returns (data: T)
      requires Valid() && usage > 0
      modifies this
      ensures Valid() && data == old(View()).elems[0] && View() == old(View()).Pop()
    {
      data := dataVec[header];
      HeaderInc();
    }

    method RollBack()
      requires Valid() && usage > 0
      modifies this
      ensures Valid() && View() == old(View()).DropLatest()
    {
      if tail == 0 {
        tail := dataVec.Length - 1;
      } else {
        tail := tail - 1;
      }
      usage := usage - 1;
      assert View().elems == old(View()).elems[..usage];
    }

    // What the tail slot was left with.
    ghost function TailData(): T
      reads this, dataVec
      requires Valid()
    { dataVec[tail] }

    // Reserves the tail slot; the caller fills it through Set.
    method Allocate() returns (ptr: nat)
      requires Valid() && usage < dataVec.Length
      modifies this
      ensures Valid() && ptr == old(View()).Tail() && ptr < dataVec.Length
      ensures View() == old(View()).Push(old(TailData()))
    {
      ptr := tail;
      TailInc();
    }

    function Get(pos: nat): (x: T)
      reads this, dataVec
      requires Valid() && pos < dataVec.Length
      ensures View().Live(pos) ==> x == View().At(pos)
    {
      dataVec[pos]
    }

    method Set(pos: nat, x: T)
      requires Valid() && pos < dataVec.Length
      modifies dataVec
      ensures Valid() && View() == old(View()).Update(pos, x)
    {
      dataVec[pos] := x;
      assert View().elems == old(View()).Update(pos, x).elems;
    }
  }
}
