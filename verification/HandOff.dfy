// The acknowledged hand-off between the front-end stages: the instruction buffer of Fetch2, the
// decode queue, and dispatch (src/Processor/Pipeline/Decode.cc:18-101, Fetch2.cc:17-96,
// Dispatch.cc:42-69). A stage offers a prefix of its queue through a latch and pops only what
// the next stage acknowledges; the acknowledgement arrives within the tick, because later
// stages are evaluated first (src/Processor/Processor.cc:258-297).
module HandOff {
  import opened DynInsn
  import opened LoopQueue
  import opened Timing

  // What SendReq offers.
  function Offer<T>(q: seq<T>, width: nat): (pkg: seq<T>)
    ensures pkg <= q
  { q[..Min(|q|, width)] }

  // What Decode::ReceiveReq takes of a package, or None if it stalls the latch.
  function Accepts(mustTakeAll: bool, room: nat, width: nat, size: nat): Option<nat> {
    if mustTakeAll && room < width then None else Some(Min(room, size))
  }

  // ---- the stages -------------------------------------------------------------------------------

  // The queueing half shared by Decode and Fetch2.
  class QueueStage<T(0)> {
    const queue: LoopQueue<T>
    const outLatch: TimeBuffer<seq<T>>
    const toNextStageInsnCount: nat
    const fromLastStageInsnCount: nat
    const mustTakenAllInsn: bool

    constructor (size: nat, blank: T, outLatch: TimeBuffer<seq<T>>, toNext: nat, fromLast: nat, mustTakeAll: bool)
      requires size > 0
      ensures Valid() && Contents() == [] && fresh(queue) && fresh(queue.dataVec) && this.outLatch == outLatch
      ensures toNextStageInsnCount == toNext && fromLastStageInsnCount == fromLast && mustTakenAllInsn == mustTakeAll
      ensures queue.dataVec.Length == size
    {
      queue := new LoopQueue<T>(size, blank);
      this.outLatch, toNextStageInsnCount, fromLastStageInsnCount, mustTakenAllInsn := outLatch, toNext, fromLast, mustTakeAll;
    }

    ghost predicate Valid()
      reads queue, queue.dataVec
    { queue.Valid() }

    ghost function Contents(): seq<T>
      reads queue, queue.dataVec
      requires Valid()
    { queue.View().elems }

    method FlushAction(blank: T)
      requires Valid()
      modifies queue, queue.dataVec
      ensures Valid() && Contents() == []
    {
      queue.Reset(blank);
    }

    method ReleaseAction(ack: Option<nat>)
      requires Valid() && (ack.Some? ==> ack.value <= |Contents()|)
      modifies queue
      ensures Valid() && Contents() == old(Contents())[if ack.Some? then ack.value else 0..]
    {
      if ack.Some? {
        ghost var q := Contents();
        for i := 0 to ack.value
          invariant Valid() && Contents() == q[i..]
        {
          var insn := queue.Pop();
        }
      }
    }

    // Decode's ReceiveReq: pushes what fits and acknowledges it, or stalls.
    method ReceiveReq(pkg: seq<T>) returns (ack: Option<nat>)
      requires Valid()
      modifies queue, queue.dataVec
      ensures Valid() && ack == Accepts(mustTakenAllInsn, queue.dataVec.Length - |old(Contents())|, fromLastStageInsnCount, |pkg|)
      ensures Contents() == old(Contents()) + if ack.Some? then pkg[..ack.value] else []
      ensures var room := queue.dataVec.Length - |old(Contents())|;
        ack == if mustTakenAllInsn && room < fromLastStageInsnCount then None
               else if room < |pkg| then Some(room) else Some(|pkg|)
    {
      hide LoopQueue.View;
      ghost var q, room := Contents(), queue.dataVec.Length - |Contents()|;
      if !mustTakenAllInsn || queue.dataVec.Length - queue.usage >= fromLastStageInsnCount {
        var taken := 0;
        for i := 0 to |pkg|
          invariant Valid() && taken == i && i <= room && Contents() == q + pkg[..i]
        {
          if queue.usage < queue.dataVec.Length {
            queue.Push(pkg[i]);
            assert pkg[..i + 1] == pkg[..i] + [pkg[i]];
            taken := taken + 1;
          } else {
            break;
          }
        }
        ack := Some(taken);
      } else {
        ack := None;
      }
    }

    // Fetch2's ReceiveReq: everything, or nothing and a replay.
    method ReceiveAll(pkg: seq<T>) returns (replay: bool)
      requires Valid() && |pkg| <= fromLastStageInsnCount
      modifies queue, queue.dataVec
      ensures Valid() && replay == (queue.dataVec.Length - |old(Contents())| < fromLastStageInsnCount)
      ensures Contents() == old(Contents()) + if replay then [] else pkg
    {
      ghost var q := Contents();
      replay := queue.dataVec.Length - queue.usage < fromLastStageInsnCount;
      if !replay {
        for i := 0 to |pkg|
          invariant Valid() && Contents() == q + pkg[..i]
        {
          queue.Push(pkg[i]);
          assert pkg[..i + 1] == pkg[..i] + [pkg[i]];
        }
        assert pkg[..|pkg|] == pkg;
      }
    }

    // The package offered: the oldest entries, as many as the next stage handles.
    method Collect() returns (insnPkg: seq<T>)
      requires Valid()
      ensures insnPkg == Offer(Contents(), toNextStageInsnCount)
    {
      hide LoopQueue.View;
      insnPkg := [];
      var dqPtr := queue.header;
      var i := 0;
      while i < toNextStageInsnCount && i < queue.usage
        invariant i <= queue.usage && i <= toNextStageInsnCount
        invariant dqPtr == queue.View().Slot(i) && insnPkg == Contents()[..i]
      {
        SlotPos(queue.View(), i);
        insnPkg := insnPkg + [queue.Get(dqPtr)];
        dqPtr := NextPtr(queue.dataVec.Length, dqPtr);
        i := i + 1;
      }
    }

    method SendReq()
      requires Valid()
      modifies outLatch`inPort
      ensures Valid() && Contents() == old(Contents())
      ensures outLatch.inPort == if Contents() == [] || outLatch.stallFlag then old(outLatch.inPort)
                                 else Some(Offer(Contents(), toNextStageInsnCount))
      ensures Contents() != [] && !outLatch.stallFlag ==>
        && outLatch.inPort.Some? && outLatch.inPort.value <= Contents()
        && |outLatch.inPort.value| ==
           if |Contents()| <= toNextStageInsnCount then |Contents()| else toNextStageInsnCount
    {
      hide LoopQueue.View;
      if queue.usage != 0 && !outLatch.IsStalled() {
        var insnPkg := Collect();
        outLatch.Set(insnPkg);
      }
    }
  }

  // ---- the two links as one machine -------------------------------------------------------------

  datatype Sizes = Sizes(buffer: nat, decode: nat, fetchWidth: nat, decodeWidth: nat, dispatchWidth: nat, mustTakeAll: bool)

  // The instruction buffer, the latch to Decode, the decode queue and the latch to Dispatch; with
  // what went into the buffer, what Decode took and what Dispatch took since the last flush.
  datatype Pipe<T> = Pipe(
    buffer: seq<T>, toDecode: Line<seq<T>>, decode: seq<T>, toDispatch: Line<seq<T>>, tick: nat,
    pushed: seq<T>, decoded: seq<T>, dispatched: seq<T>)

  // One tick's outside influence: how much of its package dispatch takes (None: it stalls), what
  // arrives from the cache, and whether the front end is flushed.
  datatype Input<T> = Input(taken: Option<nat>, incoming: seq<T>, flush: bool)

  function Empty<T>(): Line<seq<T>> { Line(1, None, None, false, false, []) }

  function Start<T>(): Pipe<T> { Pipe([], Empty(), [], Empty(), 0, [], [], []) }

  function Taken<T>(line: Line<seq<T>>, n: Option<nat>): (t: seq<T>) {
    if line.outPort.Some? && n.Some? && n.value <= |line.outPort.value| then line.outPort.value[..n.value] else []
  }

  // A producer's send and the latch's advance, when the consumer stalled it or not.
  function Latch<T>(line: Line<seq<T>>, stalled: bool, q: seq<T>, width: nat, flush: bool, tick: nat): Line<seq<T>>
    requires line.latency == 1
  {
    var stall := line.stall || stalled;
    AdvanceLine(line.(stall := stall, flush := line.flush || flush,
                      inPort := if q == [] || stall then line.inPort else Some(Offer(q, width))), tick)
  }

  predicate Allowed<T>(p: Pipe<T>, u: Input<T>, z: Sizes) {
    && p.toDecode.latency == 1 && p.toDispatch.latency == 1 && |u.incoming| <= z.fetchWidth
    && (p.toDispatch.outPort.Some? && u.taken.Some? ==> u.taken.value <= |p.toDispatch.outPort.value|)
  }

  // What Decode takes this tick, given its queue after the release.
  function DecodeTakes<T>(p: Pipe<T>, decode: seq<T>, z: Sizes): Option<nat> {
    if p.toDecode.outPort.None? || |decode| > z.decode then None
    else Accepts(z.mustTakeAll, z.decode - |decode|, z.decodeWidth, |p.toDecode.outPort.value|)
  }

  function Drop<T>(q: seq<T>, n: nat): seq<T> { if n <= |q| then q[n..] else [] }

  // Dispatch, then Decode, then Fetch2, then the latches.
  function Tick<T>(p: Pipe<T>, u: Input<T>, z: Sizes): Pipe<T>
    requires Allowed(p, u, z)
  {
    var t2 := Taken(p.toDispatch, u.taken);
    var decode1 := Drop(p.decode, |t2|);
    var k := DecodeTakes(p, decode1, z);
    var t1 := Taken(p.toDecode, k);
    var decode2 := decode1 + t1;
    var buffer1 := Drop(p.buffer, |t1|);
    var arrives := |buffer1| <= z.buffer && z.buffer - |buffer1| >= z.fetchWidth;
    var buffer2 := if arrives then buffer1 + u.incoming else buffer1;
    var toDispatch' := Latch(p.toDispatch, p.toDispatch.outPort.Some? && u.taken.None?, decode2, z.dispatchWidth,
      u.flush, p.tick);
    var toDecode' := Latch(p.toDecode, p.toDecode.outPort.Some? && k.None?, buffer2, z.decodeWidth, u.flush, p.tick);
    if u.flush then Pipe([], toDecode', [], toDispatch', p.tick + 1, [], [], [])
    else Pipe(buffer2, toDecode', decode2, toDispatch', p.tick + 1,
              if arrives then p.pushed + u.incoming else p.pushed, p.decoded + t1, p.dispatched + t2)
  }

  // The consumer sees a prefix of the producer's queue, and nothing else is under way.
  ghost predicate LinkOk<T>(line: Line<seq<T>>, q: seq<T>) {
    && line.latency == 1 && line.queue == [] && !line.stall && !line.flush && line.inPort.None?
    && (line.outPort.Some? ==> line.outPort.value <= q)
  }

  ghost predicate Inv<T>(p: Pipe<T>, z: Sizes) {
    && LinkOk(p.toDecode, p.buffer) && LinkOk(p.toDispatch, p.decode)
    && p.pushed == p.decoded + p.buffer && p.decoded == p.dispatched + p.decode
    && |p.buffer| <= z.buffer && |p.decode| <= z.decode
  }

  // What the consumer takes is the front of the producer's queue, and the latch again shows a
  // prefix of what is left.
  lemma LinkStep<T>(line: Line<seq<T>>, q: seq<T>, n: Option<nat>, more: seq<T>, width: nat, flush: bool, tick: nat)
    requires LinkOk(line, q) && (line.outPort.Some? && n.Some? ==> n.value <= |line.outPort.value|)
    ensures var t := Taken(line, n);
      && q == t + Drop(q, |t|) && |t| <= |q|
      && LinkOk(Latch(line, line.outPort.Some? && n.None?, Drop(q, |t|) + more, width, flush, tick), if flush then []
        else Drop(q, |t|) + more)
  {
    if line.outPort.Some? && n.Some? {
      assert line.outPort.value == q[..|line.outPort.value|];
    }
  }

  lemma TickInv<T>(p: Pipe<T>, u: Input<T>, z: Sizes)
    requires Inv(p, z) && Allowed(p, u, z)
    ensures Inv(Tick(p, u, z), z)
  {
    hide Latch, LinkOk, Taken, Drop;
    var t2 := Taken(p.toDispatch, u.taken);
    var decode1 := Drop(p.decode, |t2|);
    TakenSize(p.toDispatch, p.decode, u.taken);
    var k := DecodeTakes(p, decode1, z);
    var t1 := Taken(p.toDecode, k);
    TakenSize(p.toDecode, p.buffer, k);
    var buffer1 := Drop(p.buffer, |t1|);
    var more := if z.buffer - |buffer1| >= z.fetchWidth then u.incoming else [];
    LinkStep(p.toDispatch, p.decode, u.taken, t1, z.dispatchWidth, u.flush, p.tick);
    LinkStep(p.toDecode, p.buffer, k, more, z.decodeWidth, u.flush, p.tick);
    assert buffer1 + [] == buffer1;
    assert p.dispatched + (t2 + decode1) + t1 == p.dispatched + t2 + (decode1 + t1);
    assert p.decoded + (t1 + buffer1) + more == p.decoded + t1 + (buffer1 + more);
    assert p.pushed + [] == p.pushed;
  }

  lemma TakenSize<T>(line: Line<seq<T>>, q: seq<T>, n: Option<nat>)
    requires LinkOk(line, q)
    ensures |Taken(line, n)| <= |q| && |Drop(q, |Taken(line, n)|)| == |q| - |Taken(line, n)|
    ensures if n.Some? then |Taken(line, n)| <= n.value else Taken(line, n) == []
  {
  }

  // ---- runs -------------------------------------------------------------------------------------

  ghost predicate IsRun<T>(ps: seq<Pipe<T>>, us: seq<Input<T>>, z: Sizes) {
    && |ps| == |us| + 1 && ps[0] == Start()
    && forall i :: 0 <= i < |us| ==> Allowed(ps[i], us[i], z) && ps[i + 1] == Tick(ps[i], us[i], z)
  }

  lemma {:induction false} RunInv<T>(ps: seq<Pipe<T>>, us: seq<Input<T>>, z: Sizes, i: nat)
    requires IsRun(ps, us, z) && i < |ps|
    ensures Inv(ps[i], z)
    decreases i
  {
    if i > 0 {
      hide Inv, Allowed, Tick;
      RunInv(ps, us, z, i - 1);
      TickInv(ps[i - 1], us[i - 1], z);
    }
  }

  // Under any stalls and partial acknowledgements, what Decode takes is a prefix of what entered
  // the instruction buffer since the last flush, and what Dispatch takes is a prefix of what
  // entered the decode queue: nothing is lost, repeated or reordered, and what is missing is
  // exactly what still waits in the queues.
  lemma ExactlyOnceInOrder<T>(ps: seq<Pipe<T>>, us: seq<Input<T>>, z: Sizes, i: nat)
    requires IsRun(ps, us, z) && i < |ps|
    ensures var p := ps[i];
      && p.decoded <= p.pushed && p.pushed == p.decoded + p.buffer
      && p.dispatched <= p.decoded && p.decoded == p.dispatched + p.decode
      && p.pushed == p.dispatched + p.decode + p.buffer
      && |p.buffer| <= z.buffer && |p.decode| <= z.decode
  {
    RunInv(ps, us, z, i);
    hide LinkOk;
  }
}
