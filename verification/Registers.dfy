// Consequences of register conservation: every register has exactly one place.
module Registers {
  import opened DynInsn
  import R = RcuSpec
  import opened BackendInv

  lemma {:induction false} PoolOnce(regCount: nat, p: nat)
    requires regCount >= 2
    ensures multiset(Pool(regCount))[p] == if 1 <= p < regCount - 1 then 1 else 0
    decreases regCount
  {
    if regCount > 2 {
      PoolOnce(regCount - 1, p);
      assert Pool(regCount) == Pool(regCount - 1) + [regCount - 2];
    }
  }

  lemma CountAtLeast(ps: seq<nat>, i: nat, j: nat)
    requires i < j < |ps| && ps[i] == ps[j]
    ensures multiset(ps)[ps[i]] >= 2
  {
    assert ps == ps[..j] + [ps[j]] + ps[j + 1..];
    assert ps[i] in ps[..j];
  }

  // A free register is neither mapped by the committed table nor targeted by a live writer.
  lemma FreeIsFresh(regCount: nat, free: seq<nat>, m: seq<nat>, held: seq<R.RobEntry>, p: nat)
    requires regCount >= 2 && Conserved(regCount, free, m, held) && p in free
    ensures p != 0 && p !in m
    ensures forall k :: 0 <= k < |held| ==> held[k].phyRd != p
  {
    PoolOnce(regCount, p);
    var c := Census(free, m, held);
    assert c[p] == multiset(free)[p] + multiset(m)[p] + multiset(Dests(held))[p];
    forall k | 0 <= k < |held| ensures held[k].phyRd != p {
      assert Dests(held)[k] in Dests(held);
    }
  }

  // The target of a live writer is not a committed mapping, nor another writer's target.
  lemma TargetIsFresh(regCount: nat, free: seq<nat>, m: seq<nat>, held: seq<R.RobEntry>, k: nat)
    requires regCount >= 2 && Conserved(regCount, free, m, held) && k < |held| && held[k].phyRd != 0
    ensures held[k].phyRd !in m && held[k].phyRd !in free
    ensures forall j :: 0 <= j < |held| && j != k ==> held[j].phyRd != held[k].phyRd
  {
    var p := held[k].phyRd;
    PoolOnce(regCount, p);
    var ds := Dests(held);
    assert Census(free, m, held)[p] == multiset(free)[p] + multiset(m)[p] + multiset(ds)[p];
    assert ds[k] in ds;
    forall j | 0 <= j < |held| && j != k ensures held[j].phyRd != p {
      if held[j].phyRd == p {
        CountAtLeast(ds, if j < k then j else k, if j < k then k else j);
      }
    }
  }

  // Two ISA registers never share a committed mapping other than register 0.
  lemma MappingIsFresh(regCount: nat, free: seq<nat>, m: seq<nat>, held: seq<R.RobEntry>, i: nat)
    requires regCount >= 2 && Conserved(regCount, free, m, held) && i < |m| && m[i] != 0
    ensures m[i] !in free
    ensures forall j :: 0 <= j < |m| && j != i ==> m[j] != m[i]
    ensures forall k :: 0 <= k < |held| ==> held[k].phyRd != m[i]
  {
    var p := m[i];
    PoolOnce(regCount, p);
    assert Census(free, m, held)[p] == multiset(free)[p] + multiset(m)[p] + multiset(Dests(held))[p];
    assert p in m;
    forall j | 0 <= j < |m| && j != i ensures m[j] != p {
      if m[j] == p {
        CountAtLeast(m, if j < i then j else i, if j < i then i else j);
      }
    }
    forall k | 0 <= k < |held| ensures held[k].phyRd != p {
      assert Dests(held)[k] in Dests(held);
    }
  }
}
