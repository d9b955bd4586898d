// The dispatch stage's dry run over the schedulers, and the run it stands for
// (src/Processor/Pipeline/Dispatch.cc:84-142).
module DispatchPorts {
  import opened DynInsn

  // What a scheduler offers: free entries, and enqueues left this cycle.
  datatype Sched = Sched(support: set<FuncType>, avail: nat, budget: nat, enqueWidth: nat) {
    predicate Busy() { avail == 0 || budget == 0 }

    function Take(): Sched
      requires !Busy()
    { this.(avail := avail - 1, budget := budget - 1) }
  }

  // First scheduler that supports the kind, is not busy and has a port left in the dry run.
  function FirstPort(ss: seq<Sched>, ports: seq<nat>, fu: FuncType, k: nat): (r: Option<nat>)
    requires |ports| == |ss|
    ensures r.Some? ==> k <= r.value < |ss| && fu in ss[r.value].support && !ss[r.value].Busy() && ports[r.value] > 0
    ensures r.Some? ==> forall j :: k <= j < r.value ==> !(fu in ss[j].support && !ss[j].Busy() && ports[j] > 0)
    ensures r.None? ==> forall j :: k <= j < |ss| ==> !(fu in ss[j].support && !ss[j].Busy() && ports[j] > 0)
    decreases |ss| - k
  {
    if k >= |ss| then None
    else if fu in ss[k].support && !ss[k].Busy() && ports[k] > 0 then Some(k)
    else FirstPort(ss, ports, fu, k + 1)
  }

  // First scheduler that supports the kind and is not busy.
  function FirstFree(ss: seq<Sched>, fu: FuncType, k: nat): (r: Option<nat>)
    ensures r.Some? ==> k <= r.value < |ss| && fu in ss[r.value].support && !ss[r.value].Busy()
    ensures r.Some? ==> forall j :: k <= j < r.value ==> !(fu in ss[j].support && !ss[j].Busy())
    ensures r.None? ==> forall j :: k <= j < |ss| ==> !(fu in ss[j].support && !ss[j].Busy())
    decreases |ss| - k
  {
    if k >= |ss| then None
    else if fu in ss[k].support && !ss[k].Busy() then Some(k)
    else FirstFree(ss, fu, k + 1)
  }

  // TryDispatch from some point of the package on. A fence or an MRET is charged a port.
  function DryRun(ss: seq<Sched>, ports: seq<nat>, ds: seq<Decoded>, checkControlFlow: bool): (n: nat)
    requires |ports| == |ss|
    ensures n <= |ds|
    decreases |ds|
  {
    if ds == [] then 0
    else if ds[0].excp.Some? then 1
    else if ds[0].IsNop() then 1 + DryRun(ss, ports, ds[1..], checkControlFlow)
    else
      var p := FirstPort(ss, ports, ds[0].fu, 0);
      if p.None? then 0
      else if checkControlFlow && ds[0].controlFlow then 1
      else 1 + DryRun(ss, ports[p.value := ports[p.value] - 1], ds[1..], checkControlFlow)
  }

  // One turn of the loop of TryDispatch.
  lemma DryRunTurn(ss: seq<Sched>, ports: seq<nat>, ds: seq<Decoded>, i: nat, checkControlFlow: bool)
    requires |ports| == |ss| && i <= |ds|
    ensures DryRun(ss, ports, ds[i..], checkControlFlow) ==
      if i == |ds| then 0
      else if ds[i].excp.Some? then 1
      else if ds[i].IsNop() then 1 + DryRun(ss, ports, ds[i + 1..], checkControlFlow)
      else
        var p := FirstPort(ss, ports, ds[i].fu, 0);
        if p.None? then 0
        else if checkControlFlow && ds[i].controlFlow then 1
        else 1 + DryRun(ss, ports[p.value := ports[p.value] - 1], ds[i + 1..], checkControlFlow)
  {
    hide FirstPort;
    if i < |ds| {
      assert ds[i..][1..] == ds[i + 1..];
    }
  }

  function StartPorts(ss: seq<Sched>): (ports: seq<nat>)
    ensures |ports| == |ss| && forall k :: 0 <= k < |ss| ==> ports[k] == Min(ss[k].avail, ss[k].enqueWidth)
  { seq(|ss|, k requires 0 <= k < |ss| => Min(ss[k].avail, ss[k].enqueWidth)) }

  // DispatchInsn: nothing is allocated for an instruction that is done at dispatch; None is the
  // failed assertion.
  function Dispatched(ss: seq<Sched>, ds: seq<Decoded>, n: nat): (r: Option<seq<Sched>>)
    requires n <= |ds|
    decreases n
  {
    if n == 0 then Some(ss)
    else if ds[0].DoneAtDispatch() then Dispatched(ss, ds[1..], n - 1)
    else
      var s := FirstFree(ss, ds[0].fu, 0);
      if s.None? then None else Dispatched(ss[s.value := ss[s.value].Take()], ds[1..], n - 1)
  }

  // ---- where the instructions go ----------------------------------------------------------------

  // The instructions no scheduler sees: faulted ones, no-operations, FENCE and MRET.
  predicate Bypasses(d: Decoded) {
    d.excp.Some? || (d.fu == ALU && d.isaRd == 0) || (d.fu == CSR && (d.subOp == CSR_FENCE || d.subOp == CSR_MRET))
  }

  // How many of the instructions placed so far went to scheduler k.
  function Count(at: seq<Option<nat>>, k: nat): nat {
    if at == [] then 0 else Count(at[..|at| - 1], k) + if at[|at| - 1] == Some(k) then 1 else 0
  }

  predicate Takes(s: Sched, fu: FuncType, used: nat) { fu in s.support && used < s.avail && used < s.budget }

  // Where one instruction goes after those placed `before`: nowhere if it bypasses the
  // schedulers, and otherwise to the first that takes its kind and still has room.
  predicate GoesTo(ss: seq<Sched>, d: Decoded, before: seq<Option<nat>>, x: Option<nat>) {
    if Bypasses(d) then x == None
    else
      && x.Some? && x.value < |ss| && Takes(ss[x.value], d.fu, Count(before, x.value))
      && forall j :: 0 <= j < x.value ==> !Takes(ss[j], d.fu, Count(before, j))
  }

  // `at` names the scheduler of each instruction.
  predicate Placed(ss: seq<Sched>, ds: seq<Decoded>, at: seq<Option<nat>>)
    requires |at| <= |ds|
  {
    forall i :: 0 <= i < |at| ==> GoesTo(ss, ds[i], at[..i], at[i])
  }

  // What is left of each scheduler.
  predicate LeftOf(ss: seq<Sched>, ss': seq<Sched>, at: seq<Option<nat>>) {
    && |ss'| == |ss|
    && forall k :: 0 <= k < |ss| ==>
         && Count(at, k) <= ss[k].avail && Count(at, k) <= ss[k].budget
         && ss'[k] == ss[k].(avail := ss[k].avail - Count(at, k), budget := ss[k].budget - Count(at, k))
  }

  lemma PlaceNext(ss: seq<Sched>, ss1: seq<Sched>, ds: seq<Decoded>, at: seq<Option<nat>>)
    requires |at| < |ds| && Placed(ss, ds, at) && LeftOf(ss, ss1, at)
    requires !Bypasses(ds[|at|]) ==> FirstFree(ss1, ds[|at|].fu, 0).Some?
    ensures var x := if Bypasses(ds[|at|]) then None else FirstFree(ss1, ds[|at|].fu, 0);
      && Placed(ss, ds, at + [x])
      && LeftOf(ss, if x.Some? then ss1[x.value := ss1[x.value].Take()] else ss1, at + [x])
  {
    hide FirstFree, Placed, LeftOf, Bypasses;
    var x := if Bypasses(ds[|at|]) then None else FirstFree(ss1, ds[|at|].fu, 0);
    if x.Some? {
      TakesFirst(ss, ss1, at, ds[|at|].fu, x.value);
    }
    PlacedNext(ss, ds, at, x);
    LeftNext(ss, ss1, at, x);
  }

  // Having room now is having room after what was taken before.
  lemma TakesFirst(ss: seq<Sched>, ss1: seq<Sched>, at: seq<Option<nat>>, fu: FuncType, k: nat)
    requires LeftOf(ss, ss1, at) && FirstFree(ss1, fu, 0) == Some(k)
    ensures k < |ss| && Takes(ss[k], fu, Count(at, k)) && forall j :: 0 <= j < k ==> !Takes(ss[j], fu, Count(at, j))
  {
    hide FirstFree, Count;
  }

  lemma PlacedNext(ss: seq<Sched>, ds: seq<Decoded>, at: seq<Option<nat>>, x: Option<nat>)
    requires |at| < |ds| && Placed(ss, ds, at) && GoesTo(ss, ds[|at|], at, x)
    ensures Placed(ss, ds, at + [x])
  {
    hide GoesTo;
    var at1 := at + [x];
    forall i | 0 <= i < |at1| ensures GoesTo(ss, ds[i], at1[..i], at1[i]) {
      assert at1[..i] == at[..i];
    }
    assert at[..|at|] == at;
  }

  lemma LeftNext(ss: seq<Sched>, ss1: seq<Sched>, at: seq<Option<nat>>, x: Option<nat>)
    requires LeftOf(ss, ss1, at) && (x.Some? ==> x.value < |ss1| && !ss1[x.value].Busy())
    ensures LeftOf(ss, if x.Some? then ss1[x.value := ss1[x.value].Take()] else ss1, at + [x])
  {
    forall k | 0 <= k < |ss| ensures Count(at + [x], k) == Count(at, k) + if x == Some(k) then 1 else 0 {
      assert (at + [x])[..|at|] == at;
    }
    hide Count;
  }

  lemma SameSchedulers(ss: seq<Sched>, ss1: seq<Sched>, at: seq<Option<nat>>)
    requires LeftOf(ss, ss1, at)
    ensures |ss1| == |ss|
  {
  }

  // The real run places every instruction of the prefix so, and uses no more room than that.
  lemma DispatchedPlaces(ss: seq<Sched>, ds: seq<Decoded>, n: nat) returns (at: seq<Option<nat>>)
    requires n <= |ds| && Dispatched(ss, ds, n).Some?
    ensures |at| == n && Placed(ss, ds, at) && LeftOf(ss, Dispatched(ss, ds, n).value, at)
  {
    hide FirstFree, Placed, LeftOf, Bypasses, Dispatched;
    at := [];
    var cur := ss;
    NonePlaced(ss, ds);
    assert ds[0..] == ds;
    for i := 0 to n
      invariant |at| == i && Placed(ss, ds, at) && LeftOf(ss, cur, at)
      invariant Dispatched(ss, ds, n) == Dispatched(cur, ds[i..], n - i)
    {
      DispatchedTurn(cur, ds, i, n);
      PlaceNext(ss, cur, ds, at);
      var x := if Bypasses(ds[i]) then None else FirstFree(cur, ds[i].fu, 0);
      at, cur := at + [x], if x.Some? then cur[x.value := cur[x.value].Take()] else cur;
    }
    NonePlaced(cur, ds[n..]);
  }

  function CountAll(at: seq<Option<nat>>, m: nat): nat { if m == 0 then 0 else CountAll(at, m - 1) + Count(at, m - 1) }

  function Scheduled(ds: seq<Decoded>): nat {
    if ds == [] then 0 else Scheduled(ds[..|ds| - 1]) + if Bypasses(ds[|ds| - 1]) then 0 else 1
  }

  lemma {:induction false} CountAllNext(at: seq<Option<nat>>, x: Option<nat>, m: nat)
    ensures CountAll(at + [x], m) == CountAll(at, m) + if x.Some? && x.value < m then 1 else 0
    decreases m
  {
    assert (at + [x])[..|at|] == at;
    if m > 0 {
      CountAllNext(at, x, m - 1);
    }
  }

  // Together the schedulers give up one place for each instruction that does not bypass them.
  lemma {:induction false} RoomUsed(ss: seq<Sched>, ds: seq<Decoded>, at: seq<Option<nat>>)
    requires |at| <= |ds| && Placed(ss, ds, at)
    ensures CountAll(at, |ss|) == Scheduled(ds[..|at|])
    decreases |at|
  {
    hide Bypasses, Takes;
    if at == [] {
      NoneCounted(|ss|);
    } else {
      var at0, x := at[..|at| - 1], at[|at| - 1];
      assert at == at0 + [x] && ds[..|at|][..|at| - 1] == ds[..|at0|];
      assert forall i :: 0 <= i < |at0| ==> at0[i] == at[i] && at0[..i] == at[..i];
      RoomUsed(ss, ds, at0);
      CountAllNext(at0, x, |ss|);
    }
  }

  lemma {:induction false} NoneCounted(m: nat)
    ensures CountAll([], m) == 0
    decreases m
  {
    if m > 0 {
      NoneCounted(m - 1);
    }
  }

  // One turn of the loop of DispatchInsn.
  lemma DispatchedTurn(ss: seq<Sched>, ds: seq<Decoded>, i: nat, n: nat)
    requires i < n <= |ds| && Dispatched(ss, ds[i..], n - i).Some?
    ensures var x := if Bypasses(ds[i]) then None else FirstFree(ss, ds[i].fu, 0);
      && (!Bypasses(ds[i]) ==> x.Some?)
      && Dispatched(ss, ds[i..], n - i)
         == Dispatched(if x.Some? then ss[x.value := ss[x.value].Take()] else ss, ds[i + 1..], n - i - 1)
  {
    hide FirstFree;
    assert ds[i..][0] == ds[i] && ds[i..][1..] == ds[i + 1..];
  }

  lemma NonePlaced(ss: seq<Sched>, ds: seq<Decoded>)
    ensures Placed(ss, ds, []) && LeftOf(ss, ss, []) && Dispatched(ss, ds, 0) == Some(ss)
  {
  }

  // ---- what the dry run counts ------------------------------------------------------------------

  // Where the dry run puts one instruction: a faulted one and a no-operation need no port, a fence
  // or an MRET does.
  predicate Charged(ss: seq<Sched>, ports: seq<nat>, d: Decoded, before: seq<Option<nat>>, x: Option<nat>)
    requires |ports| == |ss|
  {
    if d.excp.Some? || (d.fu == ALU && d.isaRd == 0) then x == None
    else x.Some? && x.value < |ss| && Open(ss, ports, d.fu, before, x.value)
         && forall j :: 0 <= j < x.value ==> !Open(ss, ports, d.fu, before, j)
  }

  // A scheduler that is not busy, supports the kind and has a port left.
  predicate Open(ss: seq<Sched>, ports: seq<nat>, fu: FuncType, before: seq<Option<nat>>, k: nat)
    requires |ports| == |ss| && k < |ss|
  {
    fu in ss[k].support && ss[k].avail > 0 && ss[k].budget > 0 && Count(before, k) < ports[k]
  }

  predicate AllCharged(ss: seq<Sched>, ports: seq<nat>, ds: seq<Decoded>, at: seq<Option<nat>>)
    requires |at| <= |ds| && |ports| == |ss|
  {
    forall i :: 0 <= i < |at| ==> Charged(ss, ports, ds[i], at[..i], at[i])
  }

  // After this instruction nothing more is counted.
  predicate EndsRun(d: Decoded, check: bool) {
    d.excp.Some? || (check && d.controlFlow && !(d.fu == ALU && d.isaRd == 0))
  }

  predicate PortsLeft(ports: seq<nat>, cur: seq<nat>, at: seq<Option<nat>>) {
    |cur| == |ports| && forall k :: 0 <= k < |ports| ==> cur[k] + Count(at, k) == ports[k]
  }

  // The count of the dry run: each instruction counted has its port, the run goes on past every
  // one but the last, and it stops there because it has to, or because the next finds no port.
  lemma DryRunCounts(ss: seq<Sched>, ports: seq<nat>, ds: seq<Decoded>, check: bool) returns (at: seq<Option<nat>>)
    requires |ports| == |ss|
    ensures |at| == DryRun(ss, ports, ds, check) && AllCharged(ss, ports, ds, at)
    ensures forall i :: 0 <= i < |at| - 1 ==> !EndsRun(ds[i], check)
    ensures |at| < |ds| ==>
      || (at != [] && EndsRun(ds[|at| - 1], check))
      || (!(ds[|at|].excp.Some? || (ds[|at|].fu == ALU && ds[|at|].isaRd == 0))
          && forall k :: 0 <= k < |ss| ==> !Open(ss, ports, ds[|at|].fu, at, k))
  {
    hide FirstPort, DryRun, AllCharged, PortsLeft;
    at := [];
    var cur := ports;
    NoneCharged(ss, ports, ds);
    assert ds[0..] == ds;
    while |at| < |ds|
      invariant |at| <= |ds| && |cur| == |ss| && AllCharged(ss, ports, ds, at) && PortsLeft(ports, cur, at)
      invariant DryRun(ss, ports, ds, check) == |at| + DryRun(ss, cur, ds[|at|..], check)
      invariant forall i :: 0 <= i < |at| ==> !EndsRun(ds[i], check)
      decreases |ds| - |at|
    {
      var i := |at|;
      DryRunTurn(ss, cur, ds, i, check);
      ChargeNext(ss, ports, cur, ds, at);
      if ds[i].excp.Some? || ds[i].IsNop() {
        at := at + [None];
        if ds[i].excp.Some? {
          return;
        }
      } else {
        var p := FirstPort(ss, cur, ds[i].fu, 0);
        if p.None? {
          return;
        }
        at := at + [p];
        if check && ds[i].controlFlow {
          return;
        }
        cur := cur[p.value := cur[p.value] - 1];
      }
    }
    DryRunTurn(ss, cur, ds, |ds|, check);
  }

  // In TryDispatch a scheduler's ports are its free entries, but no more than its width.
  lemma StartIsOpen(ss: seq<Sched>, fu: FuncType, before: seq<Option<nat>>, k: nat)
    requires k < |ss|
    ensures Open(ss, StartPorts(ss), fu, before, k) <==>
      && fu in ss[k].support && ss[k].avail > 0 && ss[k].budget > 0
      && Count(before, k) < ss[k].avail && Count(before, k) < ss[k].enqueWidth
  {
  }

  lemma ChargeNext(ss: seq<Sched>, ports: seq<nat>, cur: seq<nat>, ds: seq<Decoded>, at: seq<Option<nat>>)
    requires |ports| == |ss| && |at| < |ds| && AllCharged(ss, ports, ds, at) && PortsLeft(ports, cur, at)
    ensures |cur| == |ss|
    ensures var d, p := ds[|at|], FirstPort(ss, cur, ds[|at|].fu, 0);
      if d.excp.Some? || d.IsNop() then AllCharged(ss, ports, ds, at + [None]) && PortsLeft(ports, cur, at + [None])
      else if p.None? then forall k :: 0 <= k < |ss| ==> !Open(ss, ports, d.fu, at, k)
      else AllCharged(ss, ports, ds, at + [p]) && PortsLeft(ports, cur[p.value := cur[p.value] - 1], at + [p])
  {
    var d := ds[|at|];
    var p := FirstPort(ss, cur, d.fu, 0);
    var x := if d.excp.Some? || d.IsNop() then None else p;
    PortCount(at, x);
    if d.excp.Some? || d.IsNop() || p.Some? {
      hide FirstPort, Count;
      ChargedNext(ss, ports, ds, at, x);
    }
  }

  lemma PortCount(at: seq<Option<nat>>, x: Option<nat>)
    ensures forall k: nat :: Count(at + [x], k) == Count(at, k) + if x == Some(k) then 1 else 0
  {
    assert (at + [x])[..|at|] == at;
  }

  lemma ChargedNext(ss: seq<Sched>, ports: seq<nat>, ds: seq<Decoded>, at: seq<Option<nat>>, x: Option<nat>)
    requires |ports| == |ss| && |at| < |ds| && AllCharged(ss, ports, ds, at) && Charged(ss, ports, ds[|at|], at, x)
    ensures AllCharged(ss, ports, ds, at + [x])
  {
    hide Charged;
    var at1 := at + [x];
    forall i | 0 <= i < |at1| ensures Charged(ss, ports, ds[i], at1[..i], at1[i]) {
      assert at1[..i] == at[..i];
    }
    assert at[..|at|] == at;
  }

  lemma NoneCharged(ss: seq<Sched>, ports: seq<nat>, ds: seq<Decoded>)
    requires |ports| == |ss|
    ensures AllCharged(ss, ports, ds, []) && PortsLeft(ports, ports, [])
  {
  }

  // Every scheduler starts the cycle with its whole enqueue budget.
  predicate FullBudget(ss: seq<Sched>) { forall k :: 0 <= k < |ss| ==> ss[k].budget == ss[k].enqueWidth }

  // The dry run never counts more than is really there: `ss0` is where it looks for busy
  // schedulers, `ss` the schedulers once the same prefix has really been dispatched.
  predicate Dominates(ss: seq<Sched>, ss0: seq<Sched>, ports: seq<nat>) {
    && |ss| == |ss0| == |ports|
    && forall k :: 0 <= k < |ss| ==> ss[k].support == ss0[k].support && ports[k] <= ss[k].avail && ports[k] <= ss[k].budget
  }

  // First-fit keeps the domination: the real choice is no later than the dry one, and where it
  // is earlier the dry run had already used that scheduler up.
  lemma {:induction false} DryRunIsSoundFrom(ss: seq<Sched>, ss0: seq<Sched>, ports: seq<nat>, ds: seq<Decoded>,
      check: bool, n: nat)
    requires Dominates(ss, ss0, ports)
    requires n <= DryRun(ss0, ports, ds, check) && forall k :: 0 <= k < |ss| && ports[k] > 0 ==> !ss0[k].Busy()
    ensures Dispatched(ss, ds, n).Some?
    decreases n
  {
    if n > 0 {
      if ds[0].excp.Some? {
      } else if ds[0].IsNop() {
        DryRunIsSoundFrom(ss, ss0, ports, ds[1..], check, n - 1);
      } else {
        var p := FirstPort(ss0, ports, ds[0].fu, 0).value;
        var ports' := ports[p := ports[p] - 1];
        var s := FirstFree(ss, ds[0].fu, 0);
        assert !ss[p].Busy();
        if n > 1 {
          if ds[0].DoneAtDispatch() {
            DryRunIsSoundFrom(ss, ss0, ports', ds[1..], check, n - 1);
          } else {
            assert s.Some? && s.value <= p;
            DryRunIsSoundFrom(ss[s.value := ss[s.value].Take()], ss0, ports', ds[1..], check, n - 1);
          }
        }
      }
    }
  }

  // With full budgets, whatever prefix the dry run allows can be dispatched.
  lemma DryRunIsSound(ss: seq<Sched>, ds: seq<Decoded>, check: bool, n: nat)
    requires FullBudget(ss) && n <= DryRun(ss, StartPorts(ss), ds, check)
    ensures Dispatched(ss, ds, n).Some?
  {
    DryRunIsSoundFrom(ss, ss, StartPorts(ss), ds, check, n);
  }

  // Without the full budget it is not: one enqueue left of two, and two instructions.
  lemma BudgetMatters()
    ensures var ss := [Sched({ALU}, 2, 1, 2)];
      var d := Decoded(0, ALU, 0, false, 0, 0, 1, NONE, NONE, INT, 0, None);
      DryRun(ss, StartPorts(ss), [d, d], true) == 2 && Dispatched(ss, [d, d], 2).None?
  {
  }

  // With the control-flow check, nothing but the last instruction counted stops dispatch.
  lemma {:induction false} DryRunStops(ss: seq<Sched>, ports: seq<nat>, ds: seq<Decoded>, i: nat)
    requires |ports| == |ss| && (forall k :: 0 <= k < |ds| ==> ds[k].WellDecoded())
    requires i + 1 < DryRun(ss, ports, ds, true)
    ensures ds[i].excp.None? && !ds[i].controlFlow
    decreases |ds|
  {
    if i > 0 {
      if ds[0].IsNop() {
        DryRunStops(ss, ports, ds[1..], i - 1);
      } else {
        var p := FirstPort(ss, ports, ds[0].fu, 0).value;
        DryRunStops(ss, ports[p := ports[p] - 1], ds[1..], i - 1);
      }
    }
  }
}
