// The in-age-order reservation station as a state machine over the phases of a cycle:
// forwarding, issue, operand read, advance (src/Processor/Component/Schedular/ResvrStation/
// RS_InAgeOrder.hh, Schedular/BaseSchedular.hh, RfReadPort.cc, WriteBackPort.cc,
// src/Processor/Pipeline/IEW.cc:48-55).
module Station {
  import opened DynInsn

  // What the station knows of an instruction; an absent operand is one still awaited.
  datatype Waiter = Waiter(id: nat, d: Decoded, phyRs1: nat, phyRs2: nat, a: Option<Val>, b: Option<Val>) {
    predicate Awaits(p: nat) {
      (d.rs1Type == INT && a.None? && phyRs1 == p) || (d.rs2Type == INT && b.None? && phyRs2 == p)
    }

    predicate Ready() { (d.rs1Type == INT ==> a.Some?) && (d.rs2Type == INT ==> b.Some?) }
  }

  // `slots` holds the instructions of the busy slots; `port` those handed to the operand-read
  // ports and not read yet, each with the slot reserved for it; `latch` those read but not entered.
  datatype Station = Station(
    slots: seq<Option<Waiter>>, free: seq<nat>, busy: seq<nat>,
    port: seq<(nat, Waiter)>, latch: seq<(nat, Waiter)>, budget: nat, enqueWidth: nat)

  datatype Phase = Forwarding | Issue | ReadOperand | Settle

  // The station with the done flags and the values of the physical registers.
  datatype World = World(st: Station, done: seq<bool>, regs: seq<Val>, phase: Phase)

  // ---- operations of the station ------------------------------------------------------------

  predicate Busy(st: Station) { st.free == [] || st.budget == 0 }

  function AllocateEntry(st: Station): (r: (Station, nat))
    requires !Busy(st) && st.free[0] < |st.slots|
  {
    var i := st.free[0];
    (st.(slots := st.slots[i := None], free := st.free[1..], busy := st.busy + [i], budget := st.budget - 1), i)
  }

  function Wake1(w: Waiter, d: Decoded, phyRd: nat, v: Val): Waiter {
    var w1 := if d.rdType == w.d.rs1Type && phyRd == w.phyRs1 then w.(a := Some(v)) else w;
    if d.rdType == w.d.rs2Type && phyRd == w.phyRs2 then w1.(b := Some(v)) else w1
  }

  predicate Wakes(d: Decoded, phyRd: nat) { d.rdType != NONE && phyRd != 0 }

  // RS_InAgeOrder::Forwarding.
  function Forward(st: Station, d: Decoded, phyRd: nat, v: Val): (st': Station)
    ensures |st'.slots| == |st.slots|
  {
    if Wakes(d, phyRd) then
      st.(slots := seq(|st.slots|, i requires 0 <= i < |st.slots| =>
        if i in st.busy && st.slots[i].Some? then Some(Wake1(st.slots[i].value, d, phyRd, v)) else st.slots[i]))
    else st
  }

  // IssueSelect and Deallocate for the k-th busy entry.
  function Leave(st: Station, k: nat): Station
    requires k < |st.busy| && st.busy[k] < |st.slots|
  {
    var i := st.busy[k];
    st.(slots := st.slots[i := None], busy := Without(st.busy, k), free := st.free + [i])
  }

  // The entries IssueSelect passes over: empty or still awaiting an operand, or without a unit.
  predicate CanGo(slot: Option<Waiter>, units: set<FuncType>) {
    slot.Some? && slot.value.Ready() && slot.value.d.fu in units
  }

  // Position in the busy list of the entry IssueSelect takes: the oldest that can go.
  function Select(st: Station, units: set<FuncType>, k: nat): (r: Option<nat>)
    requires forall j :: 0 <= j < |st.busy| ==> st.busy[j] < |st.slots|
    ensures r.Some? ==> k <= r.value < |st.busy| && CanGo(st.slots[st.busy[r.value]], units)
    ensures r.Some? ==> forall j :: k <= j < r.value ==> !CanGo(st.slots[st.busy[j]], units)
    ensures r.None? ==> forall j :: k <= j < |st.busy| ==> !CanGo(st.slots[st.busy[j]], units)
    decreases |st.busy| - k
  {
    if k >= |st.busy| then None
    else if CanGo(st.slots[st.busy[k]], units) then Some(k)
    else Select(st, units, k + 1)
  }

  // RfReadPort::Evaluate.
  function ReadOperands(w: Waiter, done: seq<bool>, regs: seq<Val>): Waiter
    requires w.phyRs1 < |done| == |regs| && w.phyRs2 < |done|
  {
    var w1 := if w.d.rs1Type == INT && w.a.None? && done[w.phyRs1] then w.(a := Some(regs[w.phyRs1])) else w;
    if w.d.rs2Type == INT && w.b.None? && done[w.phyRs2] then w1.(b := Some(regs[w.phyRs2])) else w1
  }

  function EnterAll(slots: seq<Option<Waiter>>, latch: seq<(nat, Waiter)>): (slots': seq<Option<Waiter>>)
    requires forall k :: 0 <= k < |latch| ==> latch[k].0 < |slots|
    ensures |slots'| == |slots|
  {
    if latch == [] then slots else EnterAll(slots, latch[..|latch| - 1])[latch[|latch| - 1].0 := Some(latch[|latch| - 1].1)]
  }

  // BaseSchedular::Advance without a flush.
  function Advance(st: Station): Station
    requires forall k :: 0 <= k < |st.latch| ==> st.latch[k].0 < |st.slots|
  {
    st.(slots := EnterAll(st.slots, st.latch), latch := [], budget := st.enqueWidth)
  }

  // BaseSchedular::Advance with a flush: every slot is free, in index order.
  function Flush(st: Station): Station {
    st.(free := seq(|st.slots|, i => i), busy := [], slots := seq(|st.slots|, i => None), port := [], latch := [],
      budget := st.enqueWidth)
  }

  // ---- a cycle ----------------------------------------------------------------------------------

  // The instruction a register was handed to, if any.
  type Producer = Option<nat>

  // What a run remembers: the producer of every register and whether the register is still
  // held for it, the result each producer has broadcast, the producers each instruction in
  // the station was renamed to, the squashed instructions, and the next number.
  datatype History = History(
    owner: seq<Producer>, held: seq<bool>, sent: map<Producer, Val>,
    sources: map<nat, (Producer, Producer)>, dead: set<nat>, next: nat)

  // `ages` gives the instruction number behind each busy slot, in busy-list order.
  datatype Run = Run(w: World, ages: seq<nat>, h: History)

  datatype Event =
    | Broadcast(writer: nat, d: Decoded, phyRd: nat, v: Val)   // a write-back port forwards
    | Rewrite(writer: nat, phyRd: nat)                         // write-back of an already forwarded result
    | StartIssue
    | Hand(w: Waiter, src: (Producer, Producer))           // a slot and a read port are reserved
    | Go(units: set<FuncType>)                             // one IssueSelect that succeeds, with Deallocate
    | StartRead
    | Read(i: nat)                                         // an operand-read port, in this cycle or a later one
    | StartSettle                                          // dispatch, commit and rollback follow
    | Allocate(phyRd: nat, id: nat)                        // the register is handed to a new producer
    | Release(phyRd: nat)                                  // it is freed by commit or rollback
    | Squash(ids: set<nat>)
    | EndCycle(flush: bool)

  predicate InBounds(w: Waiter, n: nat) { w.phyRs1 < n && w.phyRs2 < n }

  predicate Reads(w: Waiter, p: nat) {
    (w.d.rs1Type == INT && w.phyRs1 == p) || (w.d.rs2Type == INT && w.phyRs2 == p)
  }

  // The registers an instruction reads are held for the producers it was renamed to.
  predicate Sourced(w: Waiter, src: (Producer, Producer), h: History) {
    && |h.owner| == |h.held| && InBounds(w, |h.held|)
    && (w.d.rs1Type == INT ==> h.held[w.phyRs1] && h.owner[w.phyRs1] == src.0)
    && (w.d.rs2Type == INT ==> h.held[w.phyRs2] && h.owner[w.phyRs2] == src.1)
  }

  // No instruction that is still wanted reads the register.
  predicate Unread(st: Station, dead: set<nat>, p: nat) {
    && (forall k :: 0 <= k < |st.busy| && st.busy[k] < |st.slots| && st.slots[st.busy[k]].Some? ==>
          st.slots[st.busy[k]].value.id in dead || !Reads(st.slots[st.busy[k]].value, p))
    && (forall i :: 0 <= i < |st.latch| ==> st.latch[i].1.id in dead || !Reads(st.latch[i].1, p))
    && (forall i :: 0 <= i < |st.port| ==> st.port[i].1.id in dead || !Reads(st.port[i].1, p))
  }

  // The environment's part, as the backend guarantees it: only the producer of a register
  // broadcasts into it and only once; an instruction still wanted is handed over while its
  // registers are held for its producers; a register is freed only when no instruction still
  // wanted reads it, and handed on only when free.
  predicate Enabled(r: Run, e: Event) {
    var st, n := r.w.st, |r.w.done|;
    && n == |r.w.regs| == |r.h.owner| == |r.h.held| && |r.ages| == |st.busy|
    && match e
       case Broadcast(writer, d, p, v) =>
         r.w.phase == Forwarding && d.Writes() && 0 < p < n && r.h.owner[p] == Some(writer) && Some(writer) !in r.h.sent
       case Rewrite(writer, p) =>
         r.w.phase == Forwarding && 0 < p < n && r.h.owner[p] == Some(writer) && r.h.held[p] && Some(writer) in r.h.sent
       case StartIssue => r.w.phase == Forwarding
       case Hand(w, src) =>
         && r.w.phase == Issue && !Busy(st) && st.free[0] < |st.slots| && InBounds(w, n) && w.a.None? && w.b.None?
         && (forall k :: 0 <= k < |r.ages| ==> r.ages[k] < w.id)
         && (w.id !in r.h.dead ==> Sourced(w, src, r.h))
       case Go(units) =>
         && r.w.phase == Issue && (forall j :: 0 <= j < |st.busy| ==> st.busy[j] < |st.slots|) && Select(st, units, 0).Some?
       case StartRead => r.w.phase == Issue
       case Read(i) => r.w.phase == ReadOperand && i < |st.port| && InBounds(st.port[i].1, n)
       case StartSettle => r.w.phase == ReadOperand
       case Allocate(p, id) => r.w.phase == Settle && 0 < p < n && !r.h.held[p] && r.h.next <= id
       case Release(p) => r.w.phase == Settle && 0 < p < n && Unread(st, r.h.dead, p)
       case Squash(_) => r.w.phase == Settle
       case EndCycle(_) => r.w.phase == Settle && forall k :: 0 <= k < |st.latch| ==> st.latch[k].0 < |st.slots|
  }

  function Step(r: Run, e: Event): Run
    requires Enabled(r, e)
  {
    var st := r.w.st;
    match e
    case Broadcast(writer, d, p, v) =>
      r.(w := r.w.(st := Forward(st, d, p, v), done := r.w.done[p := true], regs := r.w.regs[p := v]),
         h := r.h.(sent := r.h.sent[Some(writer) := v]))
    case Rewrite(writer, p) => r.(w := r.w.(done := r.w.done[p := true], regs := r.w.regs[p := r.h.sent[Some(writer)]]))
    case StartIssue => r.(w := r.w.(phase := Issue))
    case Hand(w, src) =>
      var (st', i) := AllocateEntry(st);
      Run(r.w.(st := st'.(port := st'.port + [(i, w)])), r.ages + [w.id],
          r.h.(sources := r.h.sources[w.id := src]))
    case Go(units) =>
      var k := Select(st, units, 0).value;
      r.(w := r.w.(st := Leave(st, k)), ages := Without(r.ages, k))
    case StartRead => r.(w := r.w.(phase := ReadOperand))
    case Read(i) =>
      var (slot, w) := st.port[i];
      r.(w := r.w.(st := st.(port := Without(st.port, i), latch := st.latch + [(slot, ReadOperands(w, r.w.done, r.w.regs))])))
    case StartSettle => r.(w := r.w.(phase := Settle))
    case Allocate(p, id) =>
      r.(w := r.w.(done := r.w.done[p := false]),
         h := r.h.(owner := r.h.owner[p := Some(id)], held := r.h.held[p := true], next := id + 1))
    case Release(p) => r.(w := r.w.(done := r.w.done[p := false]), h := r.h.(held := r.h.held[p := false]))
    case Squash(ids) => r.(h := r.h.(dead := r.h.dead + ids))
    case EndCycle(flush) =>
      if flush then r.(w := r.w.(st := Flush(st), phase := Forwarding), ages := [])
      else r.(w := r.w.(st := Advance(st), phase := Forwarding))
  }

  // ---- invariant --------------------------------------------------------------------------------

  // Every slot is in exactly one of the two index lists, once.
  predicate Partition(free: seq<nat>, busy: seq<nat>, n: nat) {
    && (forall i :: 0 <= i < |free| ==> free[i] < n) && (forall i :: 0 <= i < |busy| ==> busy[i] < n)
    && (forall i, j :: 0 <= i < j < |free| ==> free[i] != free[j])
    && (forall i, j :: 0 <= i < j < |busy| ==> busy[i] != busy[j])
    && (forall i, j :: 0 <= i < |free| && 0 <= j < |busy| ==> free[i] != busy[j])
    && (forall s: nat :: s < n ==> s in free || s in busy)
  }

  predicate Increasing(ages: seq<nat>) { forall i, j :: 0 <= i < j < |ages| ==> ages[i] < ages[j] }

  // The instruction in a busy slot is the one the age list names.
  predicate SlotsTied(slots: seq<Option<Waiter>>, busy: seq<nat>, ages: seq<nat>) {
    && |busy| == |ages|
    && forall k :: 0 <= k < |busy| && busy[k] < |slots| && slots[busy[k]].Some? ==>
         slots[busy[k]].value.id == ages[k]
  }

  predicate InTransit(q: seq<(nat, Waiter)>, slots: seq<Option<Waiter>>, busy: seq<nat>, ages: seq<nat>) {
    && |busy| == |ages|
    && (forall i :: 0 <= i < |q| ==> q[i].0 in busy && q[i].0 < |slots| && slots[q[i].0].None?)
    && (forall i, j :: 0 <= i < j < |q| ==> q[i].0 != q[j].0)
    && (forall i, k :: 0 <= i < |q| && 0 <= k < |busy| ==> busy[k] == q[i].0 ==> ages[k] == q[i].1.id)
  }

  // An operand is missing exactly as long as its producer has not broadcast, and otherwise it
  // is the result that producer broadcast.
  predicate OperandServed(x: Option<Val>, src: Producer, sent: map<Producer, Val>) {
    match x
    case None => src !in sent
    case Some(v) => src in sent && v == sent[src]
  }

  predicate Served(w: Waiter, h: History) {
    w.id in h.sources && Sourced(w, h.sources[w.id], h)
    && (w.d.rs1Type == INT ==> OperandServed(w.a, h.sources[w.id].0, h.sent))
    && (w.d.rs2Type == INT ==> OperandServed(w.b, h.sources[w.id].1, h.sent))
  }

  // Squashed instructions linger, and nothing is promised them.
  predicate ServedIfWanted(w: Waiter, h: History) {
    InBounds(w, |h.held|) && (w.id !in h.dead ==> Served(w, h))
  }

  predicate SlotsServed(slots: seq<Option<Waiter>>, busy: seq<nat>, h: History) {
    forall k :: 0 <= k < |busy| && busy[k] < |slots| && slots[busy[k]].Some? ==> ServedIfWanted(slots[busy[k]].value, h)
  }

  predicate LatchServed(latch: seq<(nat, Waiter)>, h: History) {
    forall i :: 0 <= i < |latch| ==> ServedIfWanted(latch[i].1, h)
  }

  predicate HandedOver(w: Waiter, h: History) {
    && InBounds(w, |h.held|) && w.a.None? && w.b.None?
    && (w.id !in h.dead ==> w.id in h.sources && Sourced(w, h.sources[w.id], h))
  }

  predicate PortSourced(port: seq<(nat, Waiter)>, h: History) {
    forall i :: 0 <= i < |port| ==> HandedOver(port[i].1, h)
  }

  // A register held for its producer is done exactly when that producer has broadcast, and
  // then holds the result. No instruction produces two registers.
  predicate RegsOk(done: seq<bool>, regs: seq<Val>, h: History) {
    && |done| == |regs| == |h.owner| == |h.held| > 0
    && h.held[0] && h.owner[0] == None && None in h.sent && h.sent[None] == 0
    && (forall p :: 0 <= p < |done| && h.held[p] ==>
          (done[p] <==> h.owner[p] in h.sent) && (done[p] ==> regs[p] == h.sent[h.owner[p]]))
    && (forall p, q :: 0 <= p < q < |done| && h.owner[p].Some? ==> h.owner[p] != h.owner[q])
    && (forall p :: 0 <= p < |done| && h.owner[p].Some? ==> h.owner[p].value < h.next)
    && (forall x :: x in h.sent && x.Some? ==> x.value < h.next)
  }

  // Nothing sits in the latch before its phase. A port may hold an instruction for any number
  // of cycles.
  predicate PhaseOk(st: Station, phase: Phase) {
    && (phase == Forwarding ==> st.budget == st.enqueWidth)
    && (phase == Forwarding || phase == Issue ==> st.latch == [])
    && st.budget <= st.enqueWidth
  }

  predicate Inv(r: Run) {
    var st := r.w.st;
    && RegsOk(r.w.done, r.w.regs, r.h)
    && Partition(st.free, st.busy, |st.slots|)
    && Increasing(r.ages) && SlotsTied(st.slots, st.busy, r.ages)
    && InTransit(st.port + st.latch, st.slots, st.busy, r.ages)
    && SlotsServed(st.slots, st.busy, r.h) && LatchServed(st.latch, r.h) && PortSourced(st.port, r.h)
    && PhaseOk(st, r.w.phase)
  }

  function Init(n: nat, enqueWidth: nat, regCount: nat): Run
    requires regCount > 0
  {
    Run(World(Flush(Station(seq(n, i => None), [], [], [], [], 0, enqueWidth)), seq(regCount, p => p == 0),
          seq(regCount, p => 0), Forwarding), [],
        History(seq(regCount, p => None), seq(regCount, p => p == 0), map[None := 0], map[], {}, 0))
  }

  // ---- each transition keeps it -----------------------------------------------------------------

  lemma WakeServes(w: Waiter, h: History, writer: nat, d: Decoded, p: nat, v: Val)
    requires ServedIfWanted(w, h) && d.Writes() && 0 < p < |h.owner| && h.owner[p] == Some(writer) && Some(writer) !in h.sent
    requires forall q, q' :: 0 <= q < q' < |h.owner| && h.owner[q].Some? ==> h.owner[q] != h.owner[q']
    ensures ServedIfWanted(Wake1(w, d, p, v), h.(sent := h.sent[Some(writer) := v])) && Wake1(w, d, p, v).id == w.id
  {
  }

  lemma BroadcastSlots(st: Station, ages: seq<nat>, h: History, writer: nat, d: Decoded, p: nat, v: Val)
    requires d.Writes() && 0 < p < |h.owner| && h.owner[p] == Some(writer) && Some(writer) !in h.sent
    requires forall q, q' :: 0 <= q < q' < |h.owner| && h.owner[q].Some? ==> h.owner[q] != h.owner[q']
    requires forall k :: 0 <= k < |st.busy| ==> st.busy[k] < |st.slots|
    requires SlotsTied(st.slots, st.busy, ages) && SlotsServed(st.slots, st.busy, h)
    ensures var slots' := Forward(st, d, p, v).slots;
      SlotsTied(slots', st.busy, ages) && SlotsServed(slots', st.busy, h.(sent := h.sent[Some(writer) := v]))
  {
    hide ServedIfWanted, Wake1;
    var slots' := Forward(st, d, p, v).slots;
    forall k | 0 <= k < |st.busy| && slots'[st.busy[k]].Some?
      ensures ServedIfWanted(slots'[st.busy[k]].value, h.(sent := h.sent[Some(writer) := v]))
      ensures slots'[st.busy[k]].value.id == ages[k]
    {
      assert st.busy[k] in st.busy;
      WakeServes(st.slots[st.busy[k]].value, h, writer, d, p, v);
    }
  }

  lemma BroadcastRegs(done: seq<bool>, regs: seq<Val>, h: History, writer: nat, p: nat, v: Val)
    requires RegsOk(done, regs, h) && 0 < p < |done| && h.owner[p] == Some(writer) && Some(writer) !in h.sent
    ensures RegsOk(done[p := true], regs[p := v], h.(sent := h.sent[Some(writer) := v]))
  {
  }

  // A reserved slot stays empty under a broadcast.
  lemma BroadcastTransit(st: Station, ages: seq<nat>, d: Decoded, p: nat, v: Val)
    requires InTransit(st.port + st.latch, st.slots, st.busy, ages)
    ensures InTransit(st.port + st.latch, Forward(st, d, p, v).slots, st.busy, ages)
  {
  }

  lemma BroadcastPort(port: seq<(nat, Waiter)>, h: History, sent: map<Producer, Val>)
    requires PortSourced(port, h)
    ensures PortSourced(port, h.(sent := sent))
  {
  }

  lemma BroadcastInv(r: Run, e: Event)
    requires Inv(r) && Enabled(r, e) && e.Broadcast?
    ensures Inv(Step(r, e))
  {
    hide SlotsTied, SlotsServed, ServedIfWanted, Wake1, Increasing, Sourced;
    BroadcastTransit(r.w.st, r.ages, e.d, e.phyRd, e.v);
    BroadcastPort(r.w.st.port, r.h, r.h.sent[Some(e.writer) := e.v]);
    BroadcastRegs(r.w.done, r.w.regs, r.h, e.writer, e.phyRd, e.v);
    BroadcastSlots(r.w.st, r.ages, r.h, e.writer, e.d, e.phyRd, e.v);
  }

  lemma PartitionHand(free: seq<nat>, busy: seq<nat>, n: nat)
    requires Partition(free, busy, n) && free != []
    ensures Partition(free[1..], busy + [free[0]], n)
  {
    var free', busy' := free[1..], busy + [free[0]];
    forall s: nat | s < n ensures s in free' || s in busy' {
      if s == free[0] {
        assert busy'[|busy|] == s;
      } else if s in free {
        var i :| 0 <= i < |free| && free[i] == s;
        assert free'[i - 1] == s;
      } else {
        var i :| 0 <= i < |busy| && busy[i] == s;
        assert busy'[i] == s;
      }
    }
  }

  lemma PartitionLeave(free: seq<nat>, busy: seq<nat>, n: nat, k: nat)
    requires Partition(free, busy, n) && k < |busy|
    ensures Partition(free + [busy[k]], Without(busy, k), n)
  {
    var free', busy' := free + [busy[k]], Without(busy, k);
    forall s: nat | s < n ensures s in free' || s in busy' {
      if s == busy[k] {
        assert free'[|free|] == s;
      } else if s in free {
        var i :| 0 <= i < |free| && free[i] == s;
        assert free'[i] == s;
      } else {
        var i :| 0 <= i < |busy| && busy[i] == s;
        assert busy'[if i < k then i else i - 1] == s;
      }
    }
  }

  lemma HandTransit(st: Station, ages: seq<nat>, w: Waiter)
    requires st.free != [] && st.budget > 0 && Partition(st.free, st.busy, |st.slots|) && st.latch == []
    requires InTransit(st.port, st.slots, st.busy, ages)
    ensures var st' := AllocateEntry(st).0; InTransit(st.port + [(st.free[0], w)], st'.slots, st'.busy, ages + [w.id])
  {
    var st' := AllocateEntry(st).0;
    assert st'.busy[|st.busy|] == st.free[0];
    assert forall x :: x in st.busy ==> x in st'.busy;
  }

  // A newcomer's number is new, so recording its producers changes nobody else's.
  lemma HandSlots(st: Station, ages: seq<nat>, w: Waiter, src: (Producer, Producer), h: History)
    requires st.free != [] && st.budget > 0 && Partition(st.free, st.busy, |st.slots|)
    requires SlotsTied(st.slots, st.busy, ages) && SlotsServed(st.slots, st.busy, h)
    requires forall k :: 0 <= k < |ages| ==> ages[k] < w.id
    ensures var st' := AllocateEntry(st).0;
      SlotsTied(st'.slots, st'.busy, ages + [w.id])
      && SlotsServed(st'.slots, st'.busy, h.(sources := h.sources[w.id := src]))
  {
    hide ServedIfWanted;
    var st', h' := AllocateEntry(st).0, h.(sources := h.sources[w.id := src]);
    forall k | 0 <= k < |st'.busy| && st'.busy[k] < |st'.slots| && st'.slots[st'.busy[k]].Some?
      ensures ServedIfWanted(st'.slots[st'.busy[k]].value, h')
    {
      assert st'.slots[st'.busy[k]] == st.slots[st.busy[k]] && st.slots[st.busy[k]].value.id == ages[k];
      ServedBesides(st.slots[st.busy[k]].value, w.id, src, h);
    }
  }

  lemma ServedBesides(w: Waiter, id: nat, src: (Producer, Producer), h: History)
    requires ServedIfWanted(w, h) && w.id != id
    ensures ServedIfWanted(w, h.(sources := h.sources[id := src]))
  {
  }

  lemma HandPort(st: Station, ages: seq<nat>, w: Waiter, src: (Producer, Producer), h: History)
    requires st.free != [] && InTransit(st.port, st.slots, st.busy, ages) && PortSourced(st.port, h)
    requires forall k :: 0 <= k < |ages| ==> ages[k] < w.id
    requires InBounds(w, |h.held|) && w.a.None? && w.b.None? && (w.id !in h.dead ==> Sourced(w, src, h))
    ensures PortSourced(st.port + [(st.free[0], w)], h.(sources := h.sources[w.id := src]))
  {
    var h' := h.(sources := h.sources[w.id := src]);
    forall i | 0 <= i < |st.port| ensures HandedOver(st.port[i].1, h') {
      var k :| 0 <= k < |st.busy| && st.busy[k] == st.port[i].0;
      assert st.port[i].1.id == ages[k];
    }
  }

  lemma HandInv(r: Run, e: Event)
    requires Inv(r) && Enabled(r, e) && e.Hand?
    ensures Inv(Step(r, e))
  {
    hide Partition, SlotsTied, SlotsServed, InTransit, ServedIfWanted, PortSourced, RegsOk, Sourced;
    var st, st' := r.w.st, Step(r, e).w.st;
    assert st'.port + st'.latch == st.port + [(st.free[0], e.w)] && st.port + st.latch == st.port;
    PartitionHand(st.free, st.busy, |st.slots|);
    HandTransit(st, r.ages, e.w);
    HandSlots(st, r.ages, e.w, e.src, r.h);
    HandPort(st, r.ages, e.w, e.src, r.h);
    RegsOkSources(r.w.done, r.w.regs, r.h, r.h.sources[e.w.id := e.src]);
  }

  lemma RegsOkSources(done: seq<bool>, regs: seq<Val>, h: History, sources: map<nat, (Producer, Producer)>)
    requires RegsOk(done, regs, h)
    ensures RegsOk(done, regs, h.(sources := sources))
  {
  }

  lemma LeaveTransit(st: Station, ages: seq<nat>, k: nat)
    requires k < |st.busy| == |ages| && Partition(st.free, st.busy, |st.slots|) && st.slots[st.busy[k]].Some?
    requires InTransit(st.port, st.slots, st.busy, ages)
    ensures InTransit(st.port, Leave(st, k).slots, Leave(st, k).busy, Without(ages, k))
  {
    forall i | 0 <= i < |st.port| ensures st.port[i].0 in Leave(st, k).busy {
      var j :| 0 <= j < |st.busy| && st.busy[j] == st.port[i].0;
      assert Leave(st, k).busy[if j < k then j else j - 1] == st.port[i].0;
    }
  }

  lemma LeaveSlots(st: Station, ages: seq<nat>, k: nat, h: History)
    requires k < |st.busy| == |ages| && Partition(st.free, st.busy, |st.slots|)
    requires SlotsTied(st.slots, st.busy, ages) && SlotsServed(st.slots, st.busy, h)
    ensures SlotsTied(Leave(st, k).slots, Leave(st, k).busy, Without(ages, k))
      && SlotsServed(Leave(st, k).slots, Leave(st, k).busy, h)
  {
    hide ServedIfWanted;
  }

  lemma GoInv(r: Run, e: Event)
    requires Inv(r) && Enabled(r, e) && e.Go?
    ensures Inv(Step(r, e))
  {
    hide Partition, SlotsTied, SlotsServed, InTransit, ServedIfWanted, RegsOk, PortSourced;
    var st, st' := r.w.st, Step(r, e).w.st;
    var k := Select(st, e.units, 0).value;
    assert st'.port + st'.latch == st.port && st.port + st.latch == st.port;
    PartitionLeave(st.free, st.busy, |st.slots|, k);
    LeaveTransit(st, r.ages, k);
    LeaveSlots(st, r.ages, k, r.h);
  }

  // A done register holds what its producer broadcast; the producer of any other has not.
  lemma ReadServes(w: Waiter, done: seq<bool>, regs: seq<Val>, h: History)
    requires RegsOk(done, regs, h) && HandedOver(w, h)
    ensures ServedIfWanted(ReadOperands(w, done, regs), h) && ReadOperands(w, done, regs).id == w.id
  {
  }

  lemma ReadInv(r: Run, e: Event)
    requires Inv(r) && Enabled(r, e) && e.Read?
    ensures Inv(Step(r, e))
  {
    hide RegsOk, ServedIfWanted, HandedOver, Partition, SlotsServed, SlotsTied;
    var st, st' := r.w.st, Step(r, e).w.st;
    var (slot, w) := st.port[e.i];
    assert HandedOver(w, r.h);
    RegsSizes(r.w.done, r.w.regs, r.h);
    ReadServes(w, r.w.done, r.w.regs, r.h);
    ReadTransit(st, r.ages, e.i, ReadOperands(w, r.w.done, r.w.regs));
  }

  lemma ReadTransit(st: Station, ages: seq<nat>, i: nat, w: Waiter)
    requires InTransit(st.port + st.latch, st.slots, st.busy, ages) && i < |st.port| && st.port[i].1.id == w.id
    ensures InTransit(Without(st.port, i) + (st.latch + [(st.port[i].0, w)]), st.slots, st.busy, ages)
  {
    var all, all' := st.port + st.latch, Without(st.port, i) + (st.latch + [(st.port[i].0, w)]);
    assert |all'| == |all|;
    assert forall j :: 0 <= j < |all'| - 1 ==> all'[j] == all[if j < i then j else j + 1];
    assert all'[|all'| - 1].0 == all[i].0 && all'[|all'| - 1].1.id == all[i].1.id;
  }

  lemma RegsSizes(done: seq<bool>, regs: seq<Val>, h: History)
    requires RegsOk(done, regs, h)
    ensures |done| == |regs| == |h.owner| == |h.held| > 0
  {
  }

  // Settling changes nothing an instruction still wanted relies on.
  lemma SettleKeeps(st: Station, h: History, h': History)
    requires |h.owner| == |h.held| == |h'.owner| == |h'.held| && h'.sent == h.sent && h'.sources == h.sources && h.dead <= h'.dead
    requires forall p :: 0 <= p < |h.held| && h.held[p] ==>
      (h'.held[p] && h'.owner[p] == h.owner[p]) || Unread(st, h.dead, p)
    requires SlotsServed(st.slots, st.busy, h) && LatchServed(st.latch, h) && PortSourced(st.port, h)
    ensures SlotsServed(st.slots, st.busy, h') && LatchServed(st.latch, h') && PortSourced(st.port, h')
  {
    forall k | 0 <= k < |st.busy| && st.busy[k] < |st.slots| && st.slots[st.busy[k]].Some?
      ensures ServedIfWanted(st.slots[st.busy[k]].value, h')
    {
      assert ServedIfWanted(st.slots[st.busy[k]].value, h);
    }
    forall i | 0 <= i < |st.latch| ensures ServedIfWanted(st.latch[i].1, h') {
      assert ServedIfWanted(st.latch[i].1, h);
    }
    forall i | 0 <= i < |st.port| ensures HandedOver(st.port[i].1, h') {
      assert HandedOver(st.port[i].1, h);
    }
  }

  lemma SettleInv(r: Run, e: Event)
    requires Inv(r) && Enabled(r, e) && (e.Allocate? || e.Release? || e.Squash?)
    ensures Inv(Step(r, e))
  {
    hide Partition, SlotsTied, InTransit, SlotsServed, LatchServed, PortSourced, Increasing, Unread;
    SettleKeeps(r.w.st, r.h, Step(r, e).h);
  }

  lemma {:induction false} EnterAllAt(slots: seq<Option<Waiter>>, latch: seq<(nat, Waiter)>, i: nat)
    requires forall k :: 0 <= k < |latch| ==> latch[k].0 < |slots|
    requires forall j, k :: 0 <= j < k < |latch| ==> latch[j].0 != latch[k].0
    requires i < |slots|
    ensures EnterAll(slots, latch)[i] == slots[i] ||
      exists k :: 0 <= k < |latch| && latch[k].0 == i && EnterAll(slots, latch)[i] == Some(latch[k].1)
    ensures forall k :: 0 <= k < |latch| && latch[k].0 == i ==> EnterAll(slots, latch)[i] == Some(latch[k].1)
    decreases |latch|
  {
    if latch != [] {
      var n := |latch| - 1;
      EnterAllAt(slots, latch[..n], i);
      assert forall k :: 0 <= k < n ==> latch[..n][k] == latch[k];
    }
  }

  lemma FlushEndInv(r: Run)
    requires Inv(r) && Enabled(r, EndCycle(true))
    ensures Inv(Step(r, EndCycle(true)))
  {
    hide RegsOk, ServedIfWanted;
    var st, st' := r.w.st, Step(r, EndCycle(true)).w.st;
    forall s: nat | s < |st.slots| ensures s in st'.free {
      assert st'.free[s] == s;
    }
    assert st'.port + st'.latch == [];
  }

  lemma EnterServed(st: Station, ages: seq<nat>, h: History)
    requires InTransit(st.latch, st.slots, st.busy, ages) && SlotsTied(st.slots, st.busy, ages)
    requires SlotsServed(st.slots, st.busy, h) && LatchServed(st.latch, h)
    ensures var slots' := EnterAll(st.slots, st.latch);
      SlotsTied(slots', st.busy, ages) && SlotsServed(slots', st.busy, h)
  {
    hide ServedIfWanted, EnterAll;
    var slots' := EnterAll(st.slots, st.latch);
    forall k | 0 <= k < |st.busy| && st.busy[k] < |slots'| && slots'[st.busy[k]].Some?
      ensures ServedIfWanted(slots'[st.busy[k]].value, h) && slots'[st.busy[k]].value.id == ages[k]
    {
      EnterAllAt(st.slots, st.latch, st.busy[k]);
    }
  }

  lemma EndCycleInv(r: Run, e: Event)
    requires Inv(r) && Enabled(r, e) && e == EndCycle(false)
    ensures Inv(Step(r, e))
  {
    hide RegsOk, SlotsTied, SlotsServed, LatchServed, Partition, Increasing, InTransit, EnterAll;
    var st, st' := r.w.st, Step(r, e).w.st;
    assert st'.port + st'.latch == st.port;
    LatchTransit(st, r.ages);
    EnterServed(st, r.ages, r.h);
    EnterTransit(st, r.ages);
    assert LatchServed([], r.h) by { NoLatch(r.h); }
  }

  lemma LatchTransit(st: Station, ages: seq<nat>)
    requires InTransit(st.port + st.latch, st.slots, st.busy, ages)
    ensures InTransit(st.latch, st.slots, st.busy, ages)
  {
    var all := st.port + st.latch;
    assert forall i :: 0 <= i < |st.latch| ==> st.latch[i] == all[|st.port| + i];
  }

  // Entering the latch leaves the slots reserved for the ports empty.
  lemma EnterTransit(st: Station, ages: seq<nat>)
    requires InTransit(st.port + st.latch, st.slots, st.busy, ages) && InTransit(st.latch, st.slots, st.busy, ages)
    ensures InTransit(st.port, EnterAll(st.slots, st.latch), st.busy, ages)
  {
    hide EnterAll;
    var all := st.port + st.latch;
    assert forall i :: 0 <= i < |st.port| ==> all[i] == st.port[i];
    forall i | 0 <= i < |st.port| ensures EnterAll(st.slots, st.latch)[st.port[i].0].None? {
      EnterAllAt(st.slots, st.latch, st.port[i].0);
      assert forall k :: 0 <= k < |st.latch| ==> st.latch[k] == all[|st.port| + k];
    }
  }

  lemma NoLatch(h: History)
    ensures LatchServed([], h)
  {
  }

  lemma StepInv(r: Run, e: Event)
    requires Inv(r) && Enabled(r, e)
    ensures Inv(Step(r, e))
  {
    hide RegsOk, ServedIfWanted, InTransit, Partition, SlotsTied, SlotsServed, LatchServed, PortSourced, Unread, Sourced;
    match e
    case Broadcast(_, _, _, _) => BroadcastInv(r, e);
    case Rewrite(_, _) => RewriteSame(r, e);
    case Hand(_, _) => HandInv(r, e);
    case Go(_) => GoInv(r, e);
    case Read(_) => ReadInv(r, e);
    case Allocate(_, _) => SettleInv(r, e);
    case Release(_) => SettleInv(r, e);
    case Squash(_) => SettleInv(r, e);
    case EndCycle(true) => FlushEndInv(r);
    case EndCycle(false) => EndCycleInv(r, e);
    case StartIssue =>
    case StartRead =>
    case StartSettle =>
  }

  // The write-back of a forwarded result writes what is there already.
  lemma RewriteSame(r: Run, e: Event)
    requires Inv(r) && Enabled(r, e) && e.Rewrite?
    ensures Step(r, e).w == r.w && Step(r, e) == r
  {
    hide Partition, SlotsTied, SlotsServed, InTransit, ServedIfWanted, PortSourced;
    assert r.w.done[e.phyRd := true] == r.w.done;
  }

  // ---- runs -------------------------------------------------------------------------------------

  predicate IsRun(rs: seq<Run>, es: seq<Event>, n: nat, enqueWidth: nat, regCount: nat) {
    && regCount > 0 && |rs| == |es| + 1 && rs[0] == Init(n, enqueWidth, regCount)
    && forall i :: 0 <= i < |es| ==> Enabled(rs[i], es[i]) && rs[i + 1] == Step(rs[i], es[i])
  }

  lemma InitInv(n: nat, enqueWidth: nat, regCount: nat)
    requires regCount > 0
    ensures Inv(Init(n, enqueWidth, regCount))
  {
    var r := Init(n, enqueWidth, regCount);
    forall s: nat | s < n ensures s in r.w.st.free {
      assert r.w.st.free[s] == s;
    }
  }

  lemma {:induction false} RunInv(rs: seq<Run>, es: seq<Event>, n: nat, enqueWidth: nat, regCount: nat, i: nat)
    requires IsRun(rs, es, n, enqueWidth, regCount) && i < |rs|
    ensures Inv(rs[i]) && |rs[i].w.done| == regCount
    decreases i
  {
    hide Inv, Enabled, Init, Step;
    if i == 0 {
      InitInv(n, enqueWidth, regCount);
      InitSize(n, enqueWidth, regCount);
    } else {
      RunInv(rs, es, n, enqueWidth, regCount, i - 1);
      StepInv(rs[i - 1], es[i - 1]);
      StepSize(rs[i - 1], es[i - 1]);
    }
  }

  lemma StepSize(r: Run, e: Event)
    requires Enabled(r, e)
    ensures |Step(r, e).w.done| == |r.w.done|
  {
    hide AllocateEntry, Forward, Leave, Advance, Flush, ReadOperands, Select, CanGo, Unread, Sourced;
  }

  lemma InitSize(n: nat, enqueWidth: nat, regCount: nat)
    requires regCount > 0
    ensures |Init(n, enqueWidth, regCount).w.done| == regCount
  {
  }

  // Instruction `writer` has broadcast its result v before point i.
  predicate HasBroadcast(es: seq<Event>, i: nat, writer: nat, v: Val)
    requires i <= |es|
  {
    exists j :: 0 <= j < i && es[j].Broadcast? && es[j].writer == writer && es[j].v == v
  }

  // What a run remembers as sent is what was broadcast.
  lemma {:induction false} SentIsBroadcast(
      rs: seq<Run>, es: seq<Event>, n: nat, enqueWidth: nat, regCount: nat, i: nat, writer: nat, v: Val)
    requires IsRun(rs, es, n, enqueWidth, regCount) && i < |rs|
    ensures (Some(writer) in rs[i].h.sent && rs[i].h.sent[Some(writer)] == v) <==> HasBroadcast(es, i, writer, v)
    decreases i
  {
    hide IsRun, Enabled, Step, Init, HasBroadcast;
    RunStep(rs, es, n, enqueWidth, regCount, i);
    if i > 0 {
      SentIsBroadcast(rs, es, n, enqueWidth, regCount, i - 1, writer, v);
      StepSent(rs[i - 1], es[i - 1]);
      BroadcastNext(es, i - 1, writer, v);
    } else {
      assert !HasBroadcast(es, 0, writer, v) by { BroadcastNone(es, writer, v); }
    }
  }

  lemma RunStep(rs: seq<Run>, es: seq<Event>, n: nat, enqueWidth: nat, regCount: nat, i: nat)
    requires IsRun(rs, es, n, enqueWidth, regCount) && i < |rs|
    ensures regCount > 0 && |rs| == |es| + 1
    ensures if i == 0 then rs[i].h.sent == map[None := 0]
      else Enabled(rs[i - 1], es[i - 1]) && rs[i] == Step(rs[i - 1], es[i - 1])
  {
    hide Enabled, Step;
  }

  lemma BroadcastNone(es: seq<Event>, writer: nat, v: Val)
    ensures !HasBroadcast(es, 0, writer, v)
  {
  }

  lemma BroadcastNext(es: seq<Event>, i: nat, writer: nat, v: Val)
    requires i < |es|
    ensures HasBroadcast(es, i + 1, writer, v) <==>
      HasBroadcast(es, i, writer, v) || (es[i].Broadcast? && es[i].writer == writer && es[i].v == v)
  {
    if HasBroadcast(es, i, writer, v) {
      var j :| 0 <= j < i && es[j].Broadcast? && es[j].writer == writer && es[j].v == v;
      assert HasBroadcast(es, i + 1, writer, v);
    }
  }

  lemma StepSent(r: Run, e: Event)
    requires Enabled(r, e)
    ensures Step(r, e).h.sent == if e.Broadcast? then r.h.sent[Some(e.writer) := e.v] else r.h.sent
    ensures e.Broadcast? ==> Some(e.writer) !in r.h.sent
  {
    hide AllocateEntry, Forward, Leave, Advance, Flush, ReadOperands, Select, CanGo, Unread, Sourced, Busy;
  }

  function Operand(w: Waiter, second: bool): Option<Val> { if second then w.b else w.a }

  predicate HasOperand(w: Waiter, second: bool) { (if second then w.d.rs2Type else w.d.rs1Type) == INT }

  // No wake-up is lost: in every run, an operand of an instruction in the station that is still
  // wanted is missing exactly as long as the instruction that produces it has not broadcast,
  // and is then the result that instruction broadcast. (Register 0 has no producer and is 0.)
  lemma NoLostWakeUp(
      rs: seq<Run>, es: seq<Event>, n: nat, enqueWidth: nat, regCount: nat, i: nat, k: nat, second: bool, v: Val)
    requires IsRun(rs, es, n, enqueWidth, regCount) && i < |rs|
    requires k < |rs[i].w.st.busy| && rs[i].w.st.busy[k] < |rs[i].w.st.slots| && rs[i].w.st.slots[rs[i].w.st.busy[k]].Some?
    requires rs[i].w.st.slots[rs[i].w.st.busy[k]].value.id !in rs[i].h.dead
    requires HasOperand(rs[i].w.st.slots[rs[i].w.st.busy[k]].value, second)
    ensures var w := rs[i].w.st.slots[rs[i].w.st.busy[k]].value;
      && w.id in rs[i].h.sources
      && var src := if second then rs[i].h.sources[w.id].1 else rs[i].h.sources[w.id].0;
         match src
         case Some(writer) => Operand(w, second) == Some(v) <==> HasBroadcast(es, i, writer, v)
         case None => Operand(w, second) == Some(0)
  {
    RunInv(rs, es, n, enqueWidth, regCount, i);
    var w := rs[i].w.st.slots[rs[i].w.st.busy[k]].value;
    assert ServedIfWanted(w, rs[i].h);
    var src := if second then rs[i].h.sources[w.id].1 else rs[i].h.sources[w.id].0;
    if src.Some? {
      SentIsBroadcast(rs, es, n, enqueWidth, regCount, i, src.value, v);
    }
  }

  // The broadcast itself reaches every instruction in the station that awaits the register.
  lemma BroadcastServes(rs: seq<Run>, es: seq<Event>, n: nat, enqueWidth: nat, regCount: nat, i: nat, k: nat)
    requires IsRun(rs, es, n, enqueWidth, regCount) && i < |es| && es[i].Broadcast?
    requires k < |rs[i].w.st.busy| && rs[i].w.st.busy[k] < |rs[i].w.st.slots| && rs[i].w.st.slots[rs[i].w.st.busy[k]].Some?
    ensures var w := rs[i].w.st.slots[rs[i].w.st.busy[k]].value;
      var slot' := rs[i + 1].w.st.slots[rs[i].w.st.busy[k]];
      && slot'.Some? && !slot'.value.Awaits(es[i].phyRd)
      && (w.Awaits(es[i].phyRd) && w.d.rs1Type == INT && w.phyRs1 == es[i].phyRd ==> slot'.value.a == Some(es[i].v))
      && (w.Awaits(es[i].phyRd) && w.d.rs2Type == INT && w.phyRs2 == es[i].phyRd ==> slot'.value.b == Some(es[i].v))
  {
    assert rs[i].w.st.busy[k] in rs[i].w.st.busy;
  }

  // The index lists split the slots, and the busy list is in program order.
  lemma ListsAreAgedPartition(rs: seq<Run>, es: seq<Event>, n: nat, enqueWidth: nat, regCount: nat, i: nat)
    requires IsRun(rs, es, n, enqueWidth, regCount) && i < |rs|
    ensures var st := rs[i].w.st;
      && Partition(st.free, st.busy, |st.slots|)
      && forall j, k :: 0 <= j < k < |st.busy| && st.slots[st.busy[j]].Some? && st.slots[st.busy[k]].Some? ==>
           st.slots[st.busy[j]].value.id < st.slots[st.busy[k]].value.id
  {
    hide ServedIfWanted, InTransit, LatchServed, RegsOk;
    RunInv(rs, es, n, enqueWidth, regCount, i);
  }

  // The instruction issued is the oldest of those that can go.
  lemma OldestGoesFirst(rs: seq<Run>, es: seq<Event>, n: nat, enqueWidth: nat, regCount: nat, i: nat, j: nat)
    requires IsRun(rs, es, n, enqueWidth, regCount) && i < |es| && es[i].Go?
    requires j < |rs[i].w.st.busy| && rs[i].w.st.busy[j] < |rs[i].w.st.slots|
      && CanGo(rs[i].w.st.slots[rs[i].w.st.busy[j]], es[i].units)
    ensures var st := rs[i].w.st;
      var k := Select(st, es[i].units, 0).value;
      && CanGo(st.slots[st.busy[k]], es[i].units) && st.slots[st.busy[k]].value.id <= st.slots[st.busy[j]].value.id
  {
    hide Partition;
    ListsAreAgedPartition(rs, es, n, enqueWidth, regCount, i);
  }

  // What the producer of an operand broadcast is what the operand holds; register 0 holds 0.
  predicate HoldsBroadcast(x: Option<Val>, src: Producer, es: seq<Event>, i: nat)
    requires i <= |es|
  {
    x.Some? && match src
               case Some(writer) => HasBroadcast(es, i, writer, x.value)
               case None => x.value == 0
  }

  // The instruction that leaves has a unit and every operand it reads, with the values its
  // producers broadcast if it is still wanted; and every other instruction in the station with
  // all its operands and a unit is younger. The lists change by that entry alone.
  lemma IssueTakesOldestReady(rs: seq<Run>, es: seq<Event>, n: nat, enqueWidth: nat, regCount: nat, i: nat) returns (k: nat)
    requires IsRun(rs, es, n, enqueWidth, regCount) && i < |es| && es[i].Go?
    ensures var st, st' := rs[i].w.st, rs[i + 1].w.st;
      && k < |st.busy| && st.busy[k] < |st.slots| && st.slots[st.busy[k]].Some?
      && var w := st.slots[st.busy[k]].value;
         && st'.busy == st.busy[..k] + st.busy[k + 1..] && st'.free == st.free + [st.busy[k]]
         && st'.slots == st.slots[st.busy[k] := None] && st'.port == st.port && st'.latch == st.latch
         && w.d.fu in es[i].units
         && (w.d.rs1Type == INT ==> w.a.Some?) && (w.d.rs2Type == INT ==> w.b.Some?)
         && (w.id !in rs[i].h.dead ==>
               && w.id in rs[i].h.sources
               && (w.d.rs1Type == INT ==> HoldsBroadcast(w.a, rs[i].h.sources[w.id].0, es, i))
               && (w.d.rs2Type == INT ==> HoldsBroadcast(w.b, rs[i].h.sources[w.id].1, es, i)))
         && forall j :: 0 <= j < |st.busy| && j != k && st.busy[j] < |st.slots| && st.slots[st.busy[j]].Some? ==>
              var x := st.slots[st.busy[j]].value;
              x.d.fu in es[i].units && (x.d.rs1Type == INT ==> x.a.Some?) && (x.d.rs2Type == INT ==> x.b.Some?) ==> w.id < x.id
  {
    hide Partition, HasBroadcast;
    var st := rs[i].w.st;
    k := Select(st, es[i].units, 0).value;
    var w := st.slots[st.busy[k]].value;
    ListsAreAgedPartition(rs, es, n, enqueWidth, regCount, i);
    if w.id !in rs[i].h.dead {
      SourcesKnown(rs, es, n, enqueWidth, regCount, i, k);
      if w.d.rs1Type == INT {
        NoLostWakeUp(rs, es, n, enqueWidth, regCount, i, k, false, w.a.value);
      }
      if w.d.rs2Type == INT {
        NoLostWakeUp(rs, es, n, enqueWidth, regCount, i, k, true, w.b.value);
      }
    }
  }

  lemma SourcesKnown(rs: seq<Run>, es: seq<Event>, n: nat, enqueWidth: nat, regCount: nat, i: nat, k: nat)
    requires IsRun(rs, es, n, enqueWidth, regCount) && i < |rs|
    requires k < |rs[i].w.st.busy| && rs[i].w.st.busy[k] < |rs[i].w.st.slots| && rs[i].w.st.slots[rs[i].w.st.busy[k]].Some?
    requires rs[i].w.st.slots[rs[i].w.st.busy[k]].value.id !in rs[i].h.dead
    ensures rs[i].w.st.slots[rs[i].w.st.busy[k]].value.id in rs[i].h.sources
  {
    RunInv(rs, es, n, enqueWidth, regCount, i);
    assert ServedIfWanted(rs[i].w.st.slots[rs[i].w.st.busy[k]].value, rs[i].h);
  }

  // A free slot and a unit of budget are all a new instruction needs of the station, and an entry
  // with all its operands and a unit free for it is all an issue needs.
  lemma StationAccepts(r: Run, w: Waiter, src: (Producer, Producer))
    requires Inv(r) && r.w.phase == Issue && r.w.st.free != [] && r.w.st.budget > 0
    requires InBounds(w, |r.w.done|) && w.a.None? && w.b.None? && forall k :: 0 <= k < |r.ages| ==> r.ages[k] < w.id
    requires w.id !in r.h.dead ==> Sourced(w, src, r.h)
    ensures Enabled(r, Hand(w, src))
  {
    hide Sourced, SlotsServed, LatchServed, PortSourced, InTransit;
  }

  lemma StationIssues(r: Run, units: set<FuncType>, k: nat)
    requires Inv(r) && r.w.phase == Issue && k < |r.w.st.busy| && r.w.st.busy[k] < |r.w.st.slots|
    requires r.w.st.slots[r.w.st.busy[k]].Some?
    requires var w := r.w.st.slots[r.w.st.busy[k]].value;
      w.d.fu in units && (w.d.rs1Type == INT ==> w.a.Some?) && (w.d.rs2Type == INT ==> w.b.Some?)
    ensures Enabled(r, Go(units))
  {
    hide SlotsServed, LatchServed, PortSourced, InTransit;
  }

  // What the other events do to the station. A slot is handed out from the front of the free list;
  // at the end of a cycle the instructions read enter the slots reserved for them, or a flush
  // frees every slot in order; the rest leaves the lists and the latch alone.
  lemma StationEffects(r: Run, e: Event)
    requires Inv(r) && Enabled(r, e)
    ensures var st, st' := r.w.st, Step(r, e).w.st;
      |st'.slots| == |st.slots| && st'.enqueWidth == st.enqueWidth &&
      match e
      case Hand(w, _) =>
        && st.free != [] && st.budget > 0 && st'.free == st.free[1..] && st'.busy == st.busy + [st.free[0]]
        && st.free[0] < |st.slots| && st'.slots == st.slots[st.free[0] := None]
        && st'.port == st.port + [(st.free[0], w)] && st'.latch == st.latch && st'.budget == st.budget - 1
      case Read(i) =>
        && st'.free == st.free && st'.busy == st.busy && st'.slots == st.slots && st'.budget == st.budget
        && i < |st.port| && st'.port == st.port[..i] + st.port[i + 1..] && |st'.latch| == |st.latch| + 1
        && st'.latch[..|st.latch|] == st.latch && st'.latch[|st.latch|].0 == st.port[i].0
        && var w, w' := st.port[i].1, st'.latch[|st.latch|].1;
           && w'.id == w.id && w'.d == w.d && w'.phyRs1 == w.phyRs1 && w'.phyRs2 == w.phyRs2
           && w.phyRs1 < |r.w.done| == |r.w.regs| && w.phyRs2 < |r.w.done|
           && w'.a == (if w.d.rs1Type == INT && w.a == None && r.w.done[w.phyRs1] then Some(r.w.regs[w.phyRs1]) else w.a)
           && w'.b == (if w.d.rs2Type == INT && w.b == None && r.w.done[w.phyRs2] then Some(r.w.regs[w.phyRs2]) else w.b)
      case EndCycle(flush) =>
        && st'.budget == st.enqueWidth && st'.latch == []
        && if flush then
             && st'.busy == [] && st'.port == [] && |st'.free| == |st.slots|
             && forall k :: 0 <= k < |st.slots| ==> st'.free[k] == k && st'.slots[k] == None
           else
             && st'.free == st.free && st'.busy == st.busy && st'.port == st.port
             && (forall k :: 0 <= k < |st.latch| ==>
                   st.latch[k].0 < |st.slots| && st'.slots[st.latch[k].0] == Some(st.latch[k].1))
             && forall i :: 0 <= i < |st.slots| && (forall k :: 0 <= k < |st.latch| ==> st.latch[k].0 != i) ==>
                  st'.slots[i] == st.slots[i]
      case Go(_) => st'.port == st.port && st'.latch == st.latch && st'.budget == st.budget
      case Broadcast(_, d, p, v) =>
        && st'.free == st.free && st'.busy == st.busy && st'.port == st.port && st'.latch == st.latch
        && forall i :: 0 <= i < |st.slots| ==>
             if i !in st.busy || st.slots[i] == None then st'.slots[i] == st.slots[i]
             else
               var w := st.slots[i].value;
               st'.slots[i] == Some(w.(a := if d.rdType == w.d.rs1Type && w.phyRs1 == p then Some(v) else w.a,
                                       b := if d.rdType == w.d.rs2Type && w.phyRs2 == p then Some(v) else w.b))
      case _ => st' == st
  {
    hide RegsOk, ServedIfWanted, SlotsTied, SlotsServed, LatchServed, PortSourced, Unread, Sourced;
    if e.EndCycle? && !e.flush {
      var st := r.w.st;
      LatchTransit(st, r.ages);
      forall i | 0 <= i < |st.slots|
        ensures forall k :: 0 <= k < |st.latch| && st.latch[k].0 == i ==> EnterAll(st.slots, st.latch)[i] == Some(st.latch[k].1)
        ensures (forall k :: 0 <= k < |st.latch| ==> st.latch[k].0 != i) ==> EnterAll(st.slots, st.latch)[i] == st.slots[i]
      {
        EnterAllAt(st.slots, st.latch, i);
      }
    }
  }

  // Every cycle starts with a full enqueue budget.
  lemma BudgetIsFullAtForwarding(rs: seq<Run>, es: seq<Event>, n: nat, enqueWidth: nat, regCount: nat, i: nat)
    requires IsRun(rs, es, n, enqueWidth, regCount) && i < |rs| && rs[i].w.phase == Forwarding
    ensures rs[i].w.st.budget == rs[i].w.st.enqueWidth && rs[i].w.st.latch == []
  {
    hide Partition, SlotsTied, SlotsServed, InTransit, ServedIfWanted, RegsOk, PortSourced;
    RunInv(rs, es, n, enqueWidth, regCount, i);
  }

  // The order of the phases matters: were operands read before forwarding in the cycle of the
  // broadcast, the instruction would enter the station awaiting a register already produced.
  lemma ReadingFirstLosesTheWakeUp(st: Station, i: nat, w: Waiter, d: Decoded, p: nat, v: Val, done: seq<bool>, regs: seq<Val>)
    requires |done| == |regs| && InBounds(w, |done|) && p < |done| && !done[p] && w.Awaits(p) && d.Writes() && p != 0
    requires i < |st.slots| && i in st.busy && st.latch == []
    ensures var st1 := st.(latch := [(i, ReadOperands(w, done, regs))]);
      var st2 := Advance(Forward(st1, d, p, v));
      st2.slots[i].Some? && st2.slots[i].value.Awaits(p) && done[p := true][p]
  {
    var x := ReadOperands(w, done, regs);
    var st1 := Forward(st.(latch := [(i, x)]), d, p, v);
    assert st1.latch[..0] == [];
    assert EnterAll(st1.slots, st1.latch) == EnterAll(st1.slots, [])[i := Some(x)];
  }
}
