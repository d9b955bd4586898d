// The latency, stall and flush delay line between stages (src/Timing/TimeBuffer.hh).
module Timing {
  import opened DynInsn

  datatype Entry<T> = Entry(data: T, destTick: nat)

  // Ports as options: a port that is not valid holds nothing.
  datatype Line<T> = Line(latency: nat, inPort: Option<T>, outPort: Option<T>, stall: bool, flush: bool, queue: seq<Entry<T>>)

  function ResetLine<T>(b: Line<T>): Line<T> { Line(b.latency, None, None, false, false, []) }

  // An advance that is neither flushed nor stalled, at the given tick.
  function Move<T>(b: Line<T>, tick: nat): (b': Line<T>)
    requires b.latency >= 1
  {
    var q := if b.inPort.Some? then b.queue + [Entry(b.inPort.value, tick + b.latency - 1)] else b.queue;
    if q != [] && q[0].destTick <= tick then b.(inPort := None, outPort := Some(q[0].data), queue := q[1..])
    else b.(inPort := None, outPort := None, queue := q)
  }

  function AdvanceLine<T>(b: Line<T>, tick: nat): Line<T>
    requires b.latency >= 1
  {
    if b.flush then ResetLine(b) else if b.stall then b.(stall := false) else Move(b, tick)
  }

  class TimeBuffer<T> {
    const latency: nat
    var inPort: Option<T>
    var outPort: Option<T>
    var stallFlag: bool
    var flushFlag: bool
    var dataQueue: seq<Entry<T>>

    function View(): Line<T>
      reads this
    { Line(latency, inPort, outPort, stallFlag, flushFlag, dataQueue) }

    constructor (latency: nat)
      ensures View() == Line(latency, None, None, false, false, [])
    {
      this.latency, inPort, outPort, stallFlag, flushFlag, dataQueue := latency, None, None, false, false, [];
    }

    method Set(data: T)
      modifies this`inPort
      ensures inPort == Some(data)
    { inPort := Some(data); }

    method Stall()
      modifies this`stallFlag
      ensures stallFlag
    { stallFlag := true; }

    method Flush()
      modifies this`flushFlag
      ensures flushFlag
    { flushFlag := true; }

    predicate IsStalled()
      reads this
    { stallFlag }

    predicate IsDrained()
      reads this
    { dataQueue == [] && outPort.None? }

    method Reset()
      modifies this
      ensures View() == ResetLine(old(View()))
    {
      flushFlag, stallFlag := false, false;
      outPort, inPort := None, None;
      while dataQueue != []
        invariant !flushFlag && !stallFlag && outPort.None? && inPort.None?
        decreases |dataQueue|
      {
        dataQueue := dataQueue[1..];
      }
    }

    method Advance(curTick: nat)
      requires latency >= 1
      modifies this
      ensures View() == AdvanceLine(old(View()), curTick)
    {
      if !flushFlag {
        if !stallFlag {
          if latency != 0 && inPort.Some? {
            dataQueue := dataQueue + [Entry(inPort.value, curTick + latency - 1)];
            inPort := None;
          }
          outPort := None;
          if latency != 0 && dataQueue != [] && dataQueue[0].destTick <= curTick {
            outPort := Some(dataQueue[0].data);
            dataQueue := dataQueue[1..];
          }
        } else {
          stallFlag := false;
        }
      } else {
        Reset();
      }
    }
  }

  // ---- histories ------------------------------------------------------------------------------

  datatype Stamped<T> = Stamped(data: T, tick: nat)

  // What has passed since the last reset: items taken in and items put out, with the ticks of
  // the advances that did it; the advances that moved and those that were stalled.
  datatype Log<T> = Log(taken: seq<Stamped<T>>, given: seq<Stamped<T>>, moves: nat, stalls: nat, movesAt: seq<nat>)

  // What the stages around the buffer do between two advances.
  datatype Use<T> = Use(send: Option<T>, stall: bool, flush: bool)

  datatype Run<T> = Run(b: Line<T>, tick: nat, log: Log<T>)

  function Start<T>(latency: nat): Run<T> { Run(Line(latency, None, None, false, false, []), 0, Log([], [], 0, 0, [])) }

  // The uses of one tick, then its advance. `movesAt` records the number of moves before each
  // item was taken in.
  function Tick<T>(r: Run<T>, u: Use<T>): Run<T>
    requires r.b.latency >= 1
  {
    var b := r.b.(inPort := if u.send.Some? then u.send else r.b.inPort, stall := r.b.stall || u.stall,
      flush := r.b.flush || u.flush);
    var b' := AdvanceLine(b, r.tick);
    var log' :=
      if b.flush then Log([], [], 0, 0, [])
      else if b.stall then r.log.(stalls := r.log.stalls + 1)
      else Log(if b.inPort.Some? then r.log.taken + [Stamped(b.inPort.value, r.tick)] else r.log.taken,
               if b'.outPort.Some? then r.log.given + [Stamped(b'.outPort.value, r.tick)] else r.log.given,
               r.log.moves + 1, r.log.stalls,
               if b.inPort.Some? then r.log.movesAt + [r.log.moves] else r.log.movesAt);
    Run(b', r.tick + 1, log')
  }

  function Ticks<T>(latency: nat, us: seq<Use<T>>): (r: Run<T>)
    requires latency >= 1
    ensures r.b.latency == latency
  {
    if us == [] then Start(latency) else Tick(Ticks(latency, us[..|us| - 1]), us[|us| - 1])
  }

  // What a tick leaves at the ports. A stall keeps both as they are, also what was just sent, and
  // is over with the tick; a flush empties everything, whatever else was asked for; otherwise
  // the input is taken in and the output is what the tick put out, if anything.
  lemma TickPorts<T>(r: Run<T>, u: Use<T>)
    requires r.b.latency >= 1
    ensures var b, sent, r' := Tick(r, u).b, if u.send.Some? then u.send else r.b.inPort, Tick(r, u);
      && !b.stall && !b.flush && b.latency == r.b.latency
      && if u.flush || r.b.flush then b.inPort == None && b.outPort == None && b.queue == []
         else if u.stall || r.b.stall then b.inPort == sent && b.outPort == r.b.outPort && b.queue == r.b.queue
         else
           && b.inPort == None
           && r'.log.given == r.log.given + (if b.outPort.Some? then [Stamped(b.outPort.value, r.tick)] else [])
           && r'.log.taken == r.log.taken + (if sent.Some? then [Stamped(sent.value, r.tick)] else [])
  {
  }

  // The queue holds the items taken in and not yet put out, oldest first.
  ghost predicate Pending<T>(queue: seq<Entry<T>>, log: Log<T>, latency: nat) {
    && latency >= 1 && |log.taken| == |log.given| + |queue|
    && (forall k :: 0 <= k < |log.given| ==> log.given[k].data == log.taken[k].data)
    && (forall k :: |log.given| <= k < |log.taken| ==>
          queue[k - |log.given|] == Entry(log.taken[k].data, log.taken[k].tick + (latency - 1)))
  }

  // Items are taken in at increasing ticks and moves, and no faster by moves than by ticks.
  ghost predicate TakenInOrder<T>(log: Log<T>, tick: nat) {
    && |log.taken| == |log.movesAt|
    && (forall k :: 0 <= k < |log.taken| ==> log.taken[k].tick < tick && log.movesAt[k] < log.moves)
    && (forall j, k :: 0 <= j < k < |log.taken| ==> log.taken[j].tick < log.taken[k].tick && log.movesAt[j] < log.movesAt[k])
    && (forall k :: 0 <= k < |log.taken| ==> log.moves - log.movesAt[k] <= tick - log.taken[k].tick)
  }

  // Nothing was put out early, nor later than the stalls since reset explain.
  ghost predicate GivenInTime<T>(log: Log<T>, latency: nat) {
    && latency >= 1 && |log.given| <= |log.taken|
    && forall k :: 0 <= k < |log.given| ==>
         log.taken[k].tick + (latency - 1) <= log.given[k].tick <= log.taken[k].tick + (latency - 1) + log.stalls
  }

  // The items still to come are due one move after the other, counted in ticks and in moves.
  ghost predicate NotOverdue<T>(log: Log<T>, latency: nat, tick: nat) {
    && latency >= 1 && |log.taken| == |log.movesAt| && |log.given| <= |log.taken|
    && forall k :: |log.given| <= k < |log.taken| ==>
         && log.taken[k].tick + (latency - 1) + log.stalls >= tick + (k - |log.given|)
         && log.movesAt[k] + latency >= log.moves + 1 + (k - |log.given|)
  }

  ghost predicate Settled<T>(queue: seq<Entry<T>>, log: Log<T>, latency: nat, tick: nat) {
    Pending(queue, log, latency) && TakenInOrder(log, tick) && GivenInTime(log, latency) && NotOverdue(log, latency, tick)
  }

  ghost predicate Inv<T>(r: Run<T>) { !r.b.stall && !r.b.flush && Settled(r.b.queue, r.log, r.b.latency, r.tick) }

  // Taking an item in.
  function Take<T>(log: Log<T>, data: T, tick: nat): Log<T> {
    log.(taken := log.taken + [Stamped(data, tick)], movesAt := log.movesAt + [log.moves])
  }

  function TakeIf<T>(log: Log<T>, data: Option<T>, tick: nat): Log<T> { if data.Some? then Take(log, data.value, tick) else log }

  function QueueIf<T>(queue: seq<Entry<T>>, data: Option<T>, latency: nat, tick: nat): seq<Entry<T>>
    requires latency >= 1
  { if data.Some? then queue + [Entry(data.value, tick + (latency - 1))] else queue }

  // Putting the oldest out, if it is due, and closing the tick.
  function Close<T>(log: Log<T>, queue: seq<Entry<T>>, tick: nat): Log<T> {
    (if Due(queue, tick) then Give(log, queue[0].data, tick) else log).(moves := log.moves + 1)
  }

  function CloseQueue<T>(queue: seq<Entry<T>>, tick: nat): seq<Entry<T>> { if Due(queue, tick) then queue[1..] else queue }

  predicate Due<T>(queue: seq<Entry<T>>, tick: nat) { |queue| > 0 && queue[0].destTick <= tick }

  // Putting the oldest out.
  function Give<T>(log: Log<T>, data: T, tick: nat): Log<T> { log.(given := log.given + [Stamped(data, tick)]) }

  lemma StallInv<T>(r: Run<T>)
    requires Inv(r)
    ensures Inv(r.(tick := r.tick + 1, log := r.log.(stalls := r.log.stalls + 1)))
  {
  }

  // What holds between taking in and putting out at one tick.
  ghost predicate Taking<T>(log: Log<T>, latency: nat, tick: nat) {
    && |log.taken| == |log.movesAt| && latency >= 1 && |log.given| <= |log.taken|
    && (forall k :: 0 <= k < |log.taken| ==> log.taken[k].tick <= tick && log.movesAt[k] <= log.moves)
    && (forall j, k :: 0 <= j < k < |log.taken| ==> log.taken[j].tick < log.taken[k].tick && log.movesAt[j] < log.movesAt[k])
    && (forall k :: 0 <= k < |log.taken| ==> log.moves - log.movesAt[k] <= tick - log.taken[k].tick)
    && (forall k :: |log.given| <= k < |log.taken| ==>
         && log.taken[k].tick + (latency - 1) + log.stalls >= tick + (k - |log.given|)
         && log.movesAt[k] + latency >= log.moves + 1 + (k - |log.given|))
  }

  lemma TakeStep<T>(log: Log<T>, latency: nat, tick: nat, data: T)
    requires TakenInOrder(log, tick) && NotOverdue(log, latency, tick)
    ensures Taking(log, latency, tick) && Taking(Take(log, data, tick), latency, tick)
  {
    var log' := Take(log, data, tick);
    var n := |log.taken|;
    if |log.given| < n {
      assert log'.taken[n - 1] == log.taken[n - 1];
    }
  }

  // Ticks and moves of successive items are at least one apart.
  lemma {:induction false} Spread<T>(log: Log<T>, latency: nat, tick: nat, g: nat, k: nat)
    requires Taking(log, latency, tick) && g <= k < |log.taken|
    ensures log.taken[k].tick >= log.taken[g].tick + (k - g) && log.movesAt[k] >= log.movesAt[g] + (k - g)
    decreases k
  {
    if g < k {
      Spread(log, latency, tick, g, k - 1);
    }
  }

  // Nothing is due: the oldest item still has a move to go, and the others follow one by one.
  lemma CloseEmpty<T>(log: Log<T>, latency: nat, tick: nat)
    requires Taking(log, latency, tick)
    requires |log.given| < |log.taken| ==> log.taken[|log.given|].tick + (latency - 1) > tick
    ensures var log' := log.(moves := log.moves + 1); TakenInOrder(log', tick + 1) && NotOverdue(log', latency, tick + 1)
  {
    var g := |log.given|;
    forall k | g <= k < |log.taken|
      ensures log.taken[k].tick + (latency - 1) + log.stalls >= tick + 1 + (k - g)
      ensures log.movesAt[k] + latency >= log.moves + 2 + (k - g)
    {
      Spread(log, latency, tick, g, k);
    }
  }

  lemma CloseDue<T>(log: Log<T>, latency: nat, tick: nat, data: T)
    requires Taking(log, latency, tick) && |log.given| < |log.taken|
    requires log.taken[|log.given|].tick + (latency - 1) <= tick && GivenInTime(log, latency)
    ensures var log' := Give(log, data, tick).(moves := log.moves + 1);
      TakenInOrder(log', tick + 1) && NotOverdue(log', latency, tick + 1) && GivenInTime(log', latency)
  {
  }

  lemma PendingStep<T>(log: Log<T>, latency: nat, tick: nat, queue: seq<Entry<T>>)
    requires Pending(queue, log, latency)
    ensures queue != [] ==>
      && queue[0] == Entry(log.taken[|log.given|].data, log.taken[|log.given|].tick + (latency - 1))
      && Pending(queue[1..], Give(log, queue[0].data, tick).(moves := log.moves + 1), latency)
    ensures Pending(queue, log.(moves := log.moves + 1), latency) && (queue == [] <==> |log.given| == |log.taken|)
      && |log.given| <= |log.taken|
  {
  }

  // Closing the tick, with the oldest item put out if it is due.
  lemma CloseStep<T>(log: Log<T>, latency: nat, tick: nat, queue: seq<Entry<T>>)
    requires Taking(log, latency, tick) && Pending(queue, log, latency) && GivenInTime(log, latency)
    ensures Settled(CloseQueue(queue, tick), Close(log, queue, tick), latency, tick + 1)
  {
    hide Pending, Taking, TakenInOrder, NotOverdue;
    PendingStep(log, latency, tick, queue);
    if queue != [] && queue[0].destTick <= tick {
      hide GivenInTime;
      CloseDue(log, latency, tick, queue[0].data);
    } else {
      CloseEmpty(log, latency, tick);
    }
  }

  lemma PendingTake<T>(log: Log<T>, latency: nat, tick: nat, queue: seq<Entry<T>>, data: T)
    requires Pending(queue, log, latency)
    ensures Pending(queue + [Entry(data, tick + (latency - 1))], Take(log, data, tick), latency)
  {
  }

  lemma MoveInv<T>(queue: seq<Entry<T>>, log: Log<T>, latency: nat, tick: nat, data: Option<T>)
    requires Settled(queue, log, latency, tick)
    ensures latency >= 1
    ensures var q := QueueIf(queue, data, latency, tick);
      Settled(CloseQueue(q, tick), Close(TakeIf(log, data, tick), q, tick), latency, tick + 1)
  {
    hide Taking, TakenInOrder, NotOverdue, GivenInTime, Pending, Take, Give, Close, CloseQueue;
    PositiveLatency(queue, log, latency);
    if data.Some? {
      TakeStep(log, latency, tick, data.value);
      PendingTake(log, latency, tick, queue, data.value);
      hide Settled;
      GivenTake(log, latency, data.value, tick);
      CloseStep(Take(log, data.value, tick), latency, tick, QueueIf(queue, data, latency, tick));
    } else {
      hide Settled;
      TakeNothing(log, latency, tick);
      CloseStep(log, latency, tick, queue);
    }
  }

  lemma PositiveLatency<T>(queue: seq<Entry<T>>, log: Log<T>, latency: nat)
    requires Pending(queue, log, latency)
    ensures latency >= 1
  {
  }

  lemma TickInv<T>(r: Run<T>, u: Use<T>)
    requires Inv(r) && r.b.latency >= 1
    ensures Inv(Tick(r, u)) && Tick(r, u).b.latency == r.b.latency
  {
    if u.flush {
      hide Tick;
      FlushInv(r, u);
    } else if u.stall {
      StallInv(r);
    } else {
      var data := if u.send.Some? then u.send else r.b.inPort;
      hide Settled;
      MoveInv(r.b.queue, r.log, r.b.latency, r.tick, data);
      MoveTick(r, u);
    }
  }

  lemma FlushInv<T>(r: Run<T>, u: Use<T>)
    requires r.b.latency >= 1 && u.flush
    ensures Inv(Tick(r, u)) && Tick(r, u).b.latency == r.b.latency
  {
  }

  lemma MoveTick<T>(r: Run<T>, u: Use<T>)
    requires r.b.latency >= 1 && !u.flush && !u.stall && !r.b.stall && !r.b.flush
    ensures var data := if u.send.Some? then u.send else r.b.inPort;
      var q := QueueIf(r.b.queue, data, r.b.latency, r.tick);
      var t := Tick(r, u);
      && t.b.queue == CloseQueue(q, r.tick) && t.log == Close(TakeIf(r.log, data, r.tick), q, r.tick)
      && t.tick == r.tick + 1 && !t.b.stall && !t.b.flush && t.b.latency == r.b.latency
  {
    var data := if u.send.Some? then u.send else r.b.inPort;
    var b := r.b.(inPort := data);
    assert Tick(r, u).b == Move(b, r.tick);
  }

  lemma TakeNothing<T>(log: Log<T>, latency: nat, tick: nat)
    requires TakenInOrder(log, tick) && NotOverdue(log, latency, tick)
    ensures Taking(log, latency, tick)
  {
  }

  lemma GivenTake<T>(log: Log<T>, latency: nat, data: T, tick: nat)
    requires GivenInTime(log, latency)
    ensures GivenInTime(Take(log, data, tick), latency)
  {
  }

  lemma {:induction false} TicksInv<T>(latency: nat, us: seq<Use<T>>)
    requires latency >= 1
    ensures Inv(Ticks(latency, us))
    decreases |us|
  {
    if us == [] {
    } else {
      hide Inv;
      TicksInv(latency, us[..|us| - 1]);
      TickInv(Ticks(latency, us[..|us| - 1]), us[|us| - 1]);
    }
  }

  // Items come out in the order they were taken in, none lost or repeated; each comes out no
  // earlier than latency - 1 ticks after the advance that took it in and late by at most the
  // stalled advances since reset, so exactly then if there were none; and at most latency - 1
  // items are held.
  ghost predicate FifoDelay<T>(queue: seq<Entry<T>>, log: Log<T>, latency: nat) {
    && latency >= 1 && |log.taken| == |log.given| + |queue| && |queue| <= latency - 1
    && (forall k :: 0 <= k < |log.given| ==>
          && log.given[k].data == log.taken[k].data
          && log.taken[k].tick + (latency - 1) <= log.given[k].tick <= log.taken[k].tick + (latency - 1) + log.stalls)
    && (forall k :: 0 <= k < |queue| ==> queue[k].data == log.taken[|log.given| + k].data)
  }

  // Whatever the stages do, the buffer is a bounded first-in-first-out delay line.
  lemma BoundedFifoDelay<T>(latency: nat, us: seq<Use<T>>)
    requires latency >= 1
    ensures FifoDelay(Ticks(latency, us).b.queue, Ticks(latency, us).log, latency)
  {
    hide Ticks, Settled, FifoDelay;
    TicksInv(latency, us);
    var r := Ticks(latency, us);
    SettledMeans(r.b.queue, r.log, latency, r.tick);
  }

  lemma SettledMeans<T>(queue: seq<Entry<T>>, log: Log<T>, latency: nat, tick: nat)
    requires Settled(queue, log, latency, tick)
    ensures FifoDelay(queue, log, latency)
  {
    var n := |log.taken|;
    if queue != [] {
      assert log.movesAt[n - 1] < log.moves;
      assert log.movesAt[n - 1] + latency >= log.moves + 1 + (n - 1 - |log.given|);
    }
    forall k | 0 <= k < |queue| ensures queue[k].data == log.taken[|log.given| + k].data {
      assert queue[|log.given| + k - |log.given|] == queue[k];
    }
  }
}
