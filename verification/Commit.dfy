// The commit stage (src/Processor/Pipeline/Commit.cc).
module CommitStage {
  import opened DynInsn
  import opened LoopQueue
  import R = RcuSpec
  import opened RcuUnit

  // The instructions of the first n entries.
  function Ids(q: seq<R.RobEntry>, n: nat): (ids: seq<nat>)
    requires n <= |q|
    ensures |ids| == n && forall i :: 0 <= i < n ==> ids[i] == q[i].id
  { seq(n, i requires 0 <= i < n => q[i].id) }

  class Commit {
    const rcu: Rcu

    constructor (rcu: Rcu)
      ensures this.rcu == rcu
    { this.rcu := rcu; }

    // The in-order prefix handed to the next cycle.
    method SendCommitReq() returns (insnPkg: seq<nat>)
      requires rcu.Valid()
      ensures var r := rcu.Regs();
        insnPkg == Ids(r.rob.elems, R.PackageFrom(r, rcu.deallocWidth, 0))
    {
      hide R.AllBelow, R.EntriesInRange, R.TagsInRange, R.ReadyForCommit, LoopQueue.View;
      insnPkg := [];
      ghost var r := rcu.Regs();
      var robPtr := rcu.rob.header;
      var i := 0;
      while i < rcu.deallocWidth && i < rcu.rob.usage
        invariant i <= rcu.rob.usage && robPtr == r.rob.Slot(i) && insnPkg == Ids(r.rob.elems, i)
        invariant R.PackageFrom(r, rcu.deallocWidth, 0) == i + R.PackageFrom(r, rcu.deallocWidth, i)
      {
        var entry := rcu.rob.Get(robPtr);
        SlotPos(r.rob, i);
        var ready := rcu.ReadyForCommit(robPtr);
        if (entry.done || !entry.valid) && ready {
          insnPkg := insnPkg + [entry.id];
        } else {
          break;
        }
        robPtr := NextPtr(rcu.rob.dataVec.Length, robPtr);
        i := i + 1;
      }
    }

    method CommitInsnPkg(insnPkg: seq<nat>) returns (trap: Option<R.Trap>, flush: bool)
      requires rcu.Valid() && R.CommitMany(rcu.View(), |insnPkg|).Some?
      modifies rcu.Repr()
      ensures rcu.Valid() && Some(rcu.View()) == R.CommitMany(old(rcu.View()), |insnPkg|)
      ensures trap == TrapOf(old(rcu.View()), |insnPkg|) && flush == Flushes(old(rcu.View()), |insnPkg|)
    {
      hide R.CommitMany, R.Core.Valid, LoopQueue.View;
      trap, flush := rcu.CommitInsn(|insnPkg|);
    }
  }
}
