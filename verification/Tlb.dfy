// The translation lookaside buffer with least-recently-used replacement
// (src/Processor/Component/TLB.cc, TLB.hh).
module Tlb {
  import opened DynInsn

  const PAGE := 4096
  const VSPACE := 0x80_0000_0000             // addresses below bit 39
  const PSPACE := 0x100_0000_0000_0000       // addresses below bit 56

  // vaddr & vpn_mask, paddr & ppn_mask, vaddr & off_mask.
  function Vpn(vaddr: nat): nat { vaddr % VSPACE - vaddr % VSPACE % PAGE }

  function Ppn(paddr: nat): nat { paddr % PSPACE - paddr % PSPACE % PAGE }

  function Offset(vaddr: nat): nat { vaddr % PAGE }

  datatype Key = Key(vpn: nat, asid: nat)

  datatype Entry = Entry(key: Key, ppn: nat, lruSeq: nat, valid: bool)

  datatype Tlb = Tlb(entries: seq<Entry>, free: seq<nat>, lruSeq: nat) {
    predicate Valid() { |entries| > 0 && forall i :: 0 <= i < |free| ==> free[i] < |entries| }
  }

  // ---- the operations on values -----------------------------------------------------------------

  // The scan keeps the last match.
  function Find(es: seq<Entry>, k: Key, n: nat): (r: Option<nat>)
    requires n <= |es|
    ensures r.Some? ==> r.value < n && es[r.value].valid && es[r.value].key == k
    ensures r.None? ==> forall i :: 0 <= i < n ==> !(es[i].valid && es[i].key == k)
  {
    if n == 0 then None
    else if es[n - 1].valid && es[n - 1].key == k then Some(n - 1)
    else Find(es, k, n - 1)
  }

  function Touch(t: Tlb, i: nat): Tlb
    requires i < |t.entries|
  {
    t.(entries := t.entries[i := t.entries[i].(lruSeq := t.lruSeq + 1)], lruSeq := t.lruSeq + 1)
  }

  // The first slot with the smallest sequence number, whether or not it is valid.
  function Lru(es: seq<Entry>, n: nat): (i: nat)
    requires 0 < n <= |es|
    ensures i < n && forall j :: 0 <= j < n ==> es[i].lruSeq <= es[j].lruSeq
  {
    if n == 1 then 0
    else
      var i := Lru(es, n - 1);
      if es[n - 1].lruSeq < es[i].lruSeq then n - 1 else i
  }

  function Remove(t: Tlb, i: nat): (t': Tlb)
    requires t.Valid() && i < |t.entries|
    ensures t'.Valid()
  {
    t.(entries := t.entries[i := t.entries[i].(valid := false)], free := t.free + [i])
  }

  // The new mapping goes to the first free slot.
  function Enter(t: Tlb, k: Key, ppn: nat): (t': Tlb)
    requires t.Valid() && t.free != []
    ensures t'.Valid() && |t'.entries| == |t.entries|
  {
    Tlb(t.entries[t.free[0] := Entry(k, ppn, t.lruSeq + 1, true)], t.free[1..], t.lruSeq + 1)
  }

  // An existing mapping for the key is left as it is.
  function Insert(t: Tlb, k: Key, ppn: nat): (t': Tlb)
    requires t.Valid()
    ensures t'.Valid() && |t'.entries| == |t.entries|
  {
    if Find(t.entries, k, |t.entries|).Some? then t
    else if t.free == [] then Enter(Remove(t, Lru(t.entries, |t.entries|)), k, ppn)
    else Enter(t, k, ppn)
  }

  function FlushAll(t: Tlb): (t': Tlb)
    requires t.Valid()
    ensures t'.Valid()
  {
    t.(entries := seq(|t.entries|, i requires 0 <= i < |t.entries| => t.entries[i].(valid := false)),
       free := t.free + seq(|t.entries|, i => i))
  }

  function Lookup(t: Tlb, k: Key): (t': Tlb)
    requires t.Valid()
    ensures t'.Valid() && |t'.entries| == |t.entries|
  {
    var r := Find(t.entries, k, |t.entries|);
    if r.Some? then Touch(t, r.value) else t
  }

  // The address a hit returns: ppn | offset, two disjoint sets of bits.
  function Translate(t: Tlb, vaddr: nat, asid: nat): Option<nat> {
    var r := Find(t.entries, Key(Vpn(vaddr), asid), |t.entries|);
    if r.Some? then Some(t.entries[r.value].ppn + Offset(vaddr)) else None
  }

  // ---- the structure, updated in place ----------------------------------------------------------

  class BaseTLB {
    const entries: array<Entry>
    var free: seq<nat>
    var lruSeq: nat

    ghost function View(): Tlb
      reads this, entries
    { Tlb(entries[..], free, lruSeq) }

    ghost predicate Valid()
      reads this, entries
    { View().Valid() }

    // The slots start out invalid.
    constructor (entryNum: nat)
      requires entryNum > 0
      ensures Valid() && fresh(entries) && View() == Init(entryNum)
    {
      entries := new Entry[entryNum](_ => Entry(Key(0, 0), 0, 0, false));
      free := seq(entryNum, i => i);
      lruSeq := 0;
      new;
      assert entries[..] == Init(entryNum).entries;
    }

    predicate IsFull()
      reads this
    { free == [] }

    method LookupEntry(k: Key, hidden: bool) returns (entry: Option<nat>)
      requires Valid()
      modifies entries, this`lruSeq
      ensures Valid() && entry == Find(old(View()).entries, k, |old(View()).entries|)
      ensures View() == if hidden then old(View()) else Lookup(old(View()), k)
    {
      entry := None;
      for i := 0 to entries.Length
        invariant entry == Find(entries[..], k, i)
      {
        if entries[i].key == k && entries[i].valid {
          entry := Some(i);
        }
      }
      if !hidden && entry.Some? {
        lruSeq := lruSeq + 1;
        entries[entry.value] := entries[entry.value].(lruSeq := lruSeq);
      }
    }

    method RemoveEntry(idx: nat)
      requires Valid() && idx < entries.Length
      modifies entries, this`free
      ensures Valid() && View() == Remove(old(View()), idx)
    {
      entries[idx] := entries[idx].(valid := false);
      free := free + [idx];
    }

    method EvictLRU()
      requires Valid()
      modifies entries, this`free
      ensures Valid() && View() == Remove(old(View()), Lru(old(View()).entries, |old(View()).entries|))
    {
      var lru := 0;
      for i := 0 to entries.Length
        invariant i == 0 ==> lru == 0
        invariant i > 0 ==> lru == Lru(entries[..], i)
      {
        if entries[i].lruSeq < entries[lru].lruSeq {
          lru := i;
        }
      }
      RemoveEntry(lru);
    }

    method InsertEntry(k: Key, ppn: nat)
      requires Valid()
      modifies entries, this`free, this`lruSeq
      ensures Valid() && View() == Insert(old(View()), k, ppn)
    {
      var existing := LookupEntry(k, true);
      if existing.None? {
        if IsFull() {
          EvictLRU();
        }
        var slot := free[0];
        free := free[1..];
        lruSeq := lruSeq + 1;
        entries[slot] := Entry(k, ppn, lruSeq, true);
      }
    }

    // Every slot is pushed on the free list, also those already there.
    method FlushEntries()
      requires Valid()
      modifies entries, this`free
      ensures Valid() && View() == FlushAll(old(View()))
    {
      for i := 0 to entries.Length
        invariant forall j :: 0 <= j < entries.Length ==> entries[j] == if j < i then old(entries[j]).(valid := false)
          else old(entries[j])
        invariant free == old(free) + seq(i, j => j)
      {
        entries[i] := entries[i].(valid := false);
        free := free + [i];
      }
      assert entries[..] == FlushAll(old(View())).entries;
    }

    method TLB_LookUp(vaddr: nat, asid: nat) returns (hit: bool, paddr: nat)
      requires Valid()
      modifies entries, this`lruSeq
      ensures Valid() && View() == Lookup(old(View()), Key(Vpn(vaddr), asid))
      ensures (if hit then Some(paddr) else None) == Translate(old(View()), vaddr, asid)
    {
      var e := LookupEntry(Key(Vpn(vaddr), asid), false);
      hit := e.Some?;
      paddr := if hit then entries[e.value].ppn + Offset(vaddr) else 0;
    }

    method TLB_Insert(vaddr: nat, asid: nat, paddr: nat)
      requires Valid()
      modifies entries, this`free, this`lruSeq
      ensures Valid() && View() == Insert(old(View()), Key(Vpn(vaddr), asid), Ppn(paddr))
    {
      InsertEntry(Key(Vpn(vaddr), asid), Ppn(paddr));
    }
  }

  function Init(n: nat): (t: Tlb)
    requires n > 0
    ensures t.Valid()
  {
    Tlb(seq(n, i => Entry(Key(0, 0), 0, 0, false)), seq(n, i => i), 0)
  }
}
