// A dispatched package is a run of single dispatches (src/Processor/Pipeline/Dispatch.cc:42-69).
module PackageTheorems {
  import opened DynInsn
  import opened LoopQueue
  import L = LsqSpec
  import R = RcuSpec
  import opened Package
  import opened Backend
  import opened BackendInv
  import opened ProofDispatch

  // What the dispatch stage establishes before it allocates n instructions: both dry runs
  // allow them, and none but the last stops dispatch.
  predicate Taken(s: State, ds: seq<Decoded>, n: nat) {
    && s.rcu.mode == R.Idle && n <= |ds| && (forall i :: 0 <= i < |ds| ==> ds[i].WellDecoded())
    && s.rcu.rob.Valid() && s.lsq.Valid()
    && n <= R.FitCount(ds, s.rcu.rob.size - |s.rcu.rob.elems|, |s.rcu.free|)
    && n <= L.FitCount(ds, s.lsq.ldq.size - |s.lsq.ldq.elems|, s.lsq.stq.size - |s.lsq.stq.elems|)
    && forall i :: 0 <= i < n - 1 ==> !Stops(ds[i])
  }

  predicate Stops(d: Decoded) { d.excp.Some? || d.controlFlow }

  // The package as Lsq::Allocate leaves it: consecutive numbers and the queue slots.
  predicate Queued(s: State, xs: seq<Item>, n: nat) {
    && RoomFor(s.lsq, xs, n)
    && forall i :: 0 <= i < n ==> xs[i].id == s.nextId + i && xs[i].lsqTag == TagOf(s.lsq, xs, n, i)
  }

  lemma TakenFits(cfg: Config, s: State, xs: seq<Item>, n: nat)
    requires InvShape(cfg, s) && Taken(s, Decodeds(xs), n)
    ensures TakesFit(s.rcu, Decodeds(xs), n) && RoomFor(s.lsq, xs, n) && |s.rcu.regs| > 0
  {
    hide R.AllBelow, R.EntriesInRange, R.TagsInRange, MapsOk, ArchsOk, AllValid;
    RcuFitIsLongest(Decodeds(xs), s.rcu.rob.size - |s.rcu.rob.elems|, |s.rcu.free|, n);
    LsqFitIsLongest(Decodeds(xs), s.lsq.ldq.size - |s.lsq.ldq.elems|, s.lsq.stq.size - |s.lsq.stq.elems|, n);
  }

  // One more instruction of the package can be dispatched, and nothing before the last one
  // takes the machine out of its idle state.
  lemma DispatchNext(cfg: Config, s: State, t: State, xs: seq<Item>, n: nat, k: nat)
    requires k < n && TakesFit(s.rcu, Decodeds(xs), n) && |s.rcu.regs| > 0 && Queued(s, xs, n) && RoomFor(s.lsq, xs, k)
    requires InvShape(cfg, t) && t.rcu.mode == R.Idle && t.nextId == s.nextId + k
    requires t.rcu == AllocateAt(s.rcu, xs, n, k) && t.lsq == QueueMany(s.lsq, xs, k)
    ensures CanDispatch(t, xs[k].d) && RoomFor(s.lsq, xs, k + 1)
    ensures var t' := Dispatch(cfg, t, xs[k].d);
      && t'.rcu == AllocateAt(s.rcu, xs, n, k + 1) && t'.lsq == QueueMany(s.lsq, xs, k + 1) && t'.nextId == s.nextId + k + 1
      && (!Stops(xs[k].d) ==> t'.rcu.mode == R.Idle)
  {
    hide R.AllBelow, R.EntriesInRange, R.TagsInRange, MapsOk, ArchsOk, AllValid, AllocateAt, AllocateMany, QueueMany,
      TagOf, RoomFor, TakesFit, R.TakeRegister, L.Allocate;
    RoomPrefix(s.lsq, xs, k + 1, n);
    QueueStep(s.lsq, xs, k, n);
    AllocateStep(s.rcu, xs, n, k);
    TakeMode(t.rcu, xs[k].d);
  }

  lemma TakeMode(r: R.Rcu, d: Decoded)
    requires r.Valid() && d.WellDecoded() && R.CanAllocate(r, d)
    ensures R.TakeRegister(r, d).mode == r.mode
  {
  }

  // Dispatching the first n instructions as a batch is a run of n dispatch transitions: every
  // one is enabled, the invariant holds throughout, and the state reached is the batch's.
  lemma {:induction false} PackageIsARun(cfg: Config, mem0: Mem, s: State, xs: seq<Item>, n: nat, k: nat)
      returns (ss: seq<State>, es: seq<Event>)
    requires Inv(cfg, mem0, s) && Taken(s, Decodeds(xs), n) && Queued(s, xs, n) && k <= n
    ensures IsRun(cfg, ss, es) && |es| == k && ss[0] == s && forall i :: 0 <= i < k ==> es[i] == EvDispatch(xs[i].d)
    ensures Inv(cfg, mem0, ss[k]) && (k < n ==> ss[k].rcu.mode == R.Idle)
    ensures TakesFit(s.rcu, Decodeds(xs), n) && |s.rcu.regs| > 0 && RoomFor(s.lsq, xs, k) && ss[k].nextId == s.nextId + k
    ensures ss[k].rcu == AllocateAt(s.rcu, xs, n, k) && ss[k].lsq == QueueMany(s.lsq, xs, k)
    decreases k
  {
    hide InvOrder, InvMaps, InvArch, InvCons, InvMode, InvPkg, InvOps, InvRegs, InvVals, InvLdq, InvStq, InvMem,
      AllocateAt, QueueMany, RoomFor, TakesFit, R.AllBelow, R.EntriesInRange, R.TagsInRange, MapsOk, ArchsOk, AllValid,
      CanDispatch, Dispatch, InvShape, R.Core.Valid, R.Rcu.Valid, TagOf, Stops;
    TakenFits(cfg, s, xs, n);
    if k == 0 {
      ss, es := [s], [];
      AllocateNone(s.rcu, xs, n);
      RoomPrefix(s.lsq, xs, 0, n);
      QueueNone(s.lsq, xs);
    } else {
      ss, es := PackageIsARun(cfg, mem0, s, xs, n, k - 1);
      var t, d := ss[k - 1], xs[k - 1].d;
      DispatchNext(cfg, s, t, xs, n, k - 1);
      DispatchInv(cfg, mem0, t, d);
      ExtendRun(cfg, ss, es, EvDispatch(d));
      ss, es := ss + [Dispatch(cfg, t, d)], es + [EvDispatch(d)];
    }
  }

  lemma ExtendRun(cfg: Config, ss: seq<State>, es: seq<Event>, e: Event)
    requires IsRun(cfg, ss, es) && Enabled(cfg, ss[|es|], e)
    ensures IsRun(cfg, ss + [Step(cfg, ss[|es|], e)], es + [e])
  {
    hide Enabled, Step;
  }
}
