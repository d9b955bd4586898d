// The load/store functional unit (src/Processor/Component/FuncUnit/Func_LSU.hh): address and data
// generation, and what a memory response does to the queues and the instruction.
module FuncLsu {
  import opened DynInsn
  import opened LoopQueue
  import L = LsqSpec
  import R = RcuSpec
  import M = MemAccess
  import opened LsqUnit
  import opened RcuUnit

  // Operand1 + imm in 64-bit arithmetic.
  function Wrap(x: int): nat { x % M.WORD }

  // The 64-bit word that differs from x by a multiple of 2^64, so x itself if that fits, and
  // 2^64 more for what a negative displacement takes below zero.
  lemma WrapIsModular(x: int)
    ensures 0 <= Wrap(x) < 0x1_0000_0000_0000_0000 && (x - Wrap(x)) % 0x1_0000_0000_0000_0000 == 0
    ensures 0 <= x < 0x1_0000_0000_0000_0000 ==> Wrap(x) == x
    ensures -0x1_0000_0000_0000_0000 <= x < 0 ==> Wrap(x) == x + 0x1_0000_0000_0000_0000
    ensures 0x1_0000_0000_0000_0000 <= x < 0x2_0000_0000_0000_0000 ==> Wrap(x) == x - 0x1_0000_0000_0000_0000
  {
  }

  // The alignment the switch of AddrGen checks: that of LH, LW, LD, LWU, SH, SW and SD, and four
  // bytes for LHU, which falls through to the next case.
  function Checked(d: Decoded): (n: nat)
    ensures n > 0
  {
    match d.fu
    case LDU => (match d.subOp case 1 => 2 case 2 => 4 case 3 => 8 case 5 => 4 case 6 => 4 case _ => 1)
    case STU => (match d.subOp case 1 => 2 case 2 => 4 case 3 => 8 case _ => 1)
    case _ => 1
  }

  // The accesses it takes for misaligned.
  predicate Flagged(d: Decoded, addr: nat) { addr % Checked(d) != 0 }

  class Lsu {
    const rcu: Rcu

    constructor (rcu: Rcu)
      ensures this.rcu == rcu
    { this.rcu := rcu; }

    // A misaligned address raises nothing: the exception the switch writes is marked invalid, so
    // it even erases one. The unsigned halfword load falls through to the word's check.
    method AddrGen(insn: Insn)
      modifies insn`aguAddr, insn`excp
      ensures insn.aguAddr == Wrap(insn.operand1 + insn.d.imm)
      ensures insn.aguAddr < 0x1_0000_0000_0000_0000
      ensures (insn.operand1 + insn.d.imm - insn.aguAddr) % 0x1_0000_0000_0000_0000 == 0
      ensures 0 <= insn.operand1 + insn.d.imm < 0x1_0000_0000_0000_0000 ==> insn.aguAddr == insn.operand1 + insn.d.imm
      ensures insn.excp == if Flagged(insn.d, Wrap(insn.operand1 + insn.d.imm)) then None else old(insn.excp)
    {
      insn.aguAddr := Wrap(insn.operand1 + insn.d.imm);
      WrapIsModular(insn.operand1 + insn.d.imm);
      if insn.d.fu == LDU {
        if insn.d.subOp == M.LDU_LH {
          if insn.aguAddr % 2 != 0 { insn.excp := None; }
        } else if insn.d.subOp == M.LDU_LW {
          if insn.aguAddr % 4 != 0 { insn.excp := None; }
        } else if insn.d.subOp == M.LDU_LD {
          if insn.aguAddr % 8 != 0 { insn.excp := None; }
        } else if insn.d.subOp == M.LDU_LHU {
          if insn.aguAddr % 2 != 0 { insn.excp := None; }
          if insn.aguAddr % 4 != 0 { insn.excp := None; }
        } else if insn.d.subOp == M.LDU_LWU {
          if insn.aguAddr % 4 != 0 { insn.excp := None; }
        }
      } else if insn.d.fu == STU {
        if insn.d.subOp == M.STU_SH {
          if insn.aguAddr % 2 != 0 { insn.excp := None; }
        } else if insn.d.subOp == M.STU_SW {
          if insn.aguAddr % 4 != 0 { insn.excp := None; }
        } else if insn.d.subOp == M.STU_SD {
          if insn.aguAddr % 8 != 0 { insn.excp := None; }
        }
      }
    }

    method DataGen(insn: Insn)
      modifies insn`aguData
      ensures insn.aguData == insn.operand2
    {
      insn.aguData := insn.operand2;
    }

    // A load or store leaving the calculation pipe.
    method Generate(insn: Insn)
      requires rcu.Valid() && insn.robTag < rcu.Regs().rob.size
      requires insn.d.fu == LDU ==> insn.lsqTag < rcu.lsq.View().ldq.size
      requires insn.d.fu == STU ==> insn.lsqTag < rcu.lsq.View().stq.size
      modifies rcu, rcu.rob.dataVec, rcu.lsq.loadQueue.dataVec, rcu.lsq.storeQueue.dataVec, insn`aguAddr, insn`excp, insn`aguData
      ensures rcu.Valid()
      ensures rcu.Regs() == R.AguRaise(old(rcu.Regs()), insn.d, insn.robTag,
        if Flagged(insn.d, Wrap(insn.operand1 + insn.d.imm)) then None else old(insn.excp))
      ensures rcu.lsq.View() == L.WriteBack(old(rcu.lsq.View()), insn.d, insn.lsqTag, Wrap(insn.operand1 + insn.d.imm),
        insn.operand2)
      ensures insn.excp == if Flagged(insn.d, Wrap(insn.operand1 + insn.d.imm)) then None else old(insn.excp)
    {
      hide LoopQueue.View, LoopQueue.Valid, Lsq.View, Lsq.Valid, Rcu.Separate, Rcu.Regs, R.Core.Valid, R.Rcu.Valid,
        L.WriteBack, R.AguRaise, Wrap, Flagged;
      ghost var l := rcu.lsq.View();
      Prepare(insn);
      rcu.AGUFastDetect(insn);
      rcu.WriteBackLsq(insn);
      LoadsIgnoreData(l, insn.d, insn.lsqTag, insn.aguAddr, insn.aguData, insn.operand2);
    }

    method Prepare(insn: Insn)
      requires rcu.Valid()
      modifies insn`aguAddr, insn`excp, insn`aguData
      ensures rcu.Valid() && rcu.View() == old(rcu.View())
      ensures insn.aguAddr == Wrap(insn.operand1 + insn.d.imm) && (insn.d.fu == STU ==> insn.aguData == insn.operand2)
      ensures insn.excp == if Flagged(insn.d, Wrap(insn.operand1 + insn.d.imm)) then None else old(insn.excp)
    {
      hide LoopQueue.View, R.Core.Valid, R.Rcu.Valid, Wrap, Flagged;
      AddrGen(insn);
      if insn.d.fu == STU {
        DataGen(insn);
      }
    }

    // A load's response: a killed load only changes state, any other receives its data and goes to
    // the first write-back port that is free.
    method ReceiveLoad(transId: nat, block: seq<M.Byte>, fault: Option<Fault>, insn: Insn, wbPorts: array<Option<Insn>>)
      requires rcu.lsq.Valid() && rcu.lsq.View().ldq.Live(transId)
      requires |block| == M.ALIGN && rcu.lsq.View().ldq.At(transId).d.subOp <= M.LDU_LWU
      requires M.Within(rcu.lsq.View().ldq.At(transId).address, M.LoadSize(rcu.lsq.View().ldq.At(transId).d.subOp))
      requires rcu.lsq.View().ldq.At(transId).id == insn.id
      requires exists k :: 0 <= k < wbPorts.Length && wbPorts[k].None?
      modifies rcu.lsq.loadQueue.dataVec, insn`excp, insn`rdResult, wbPorts
      ensures rcu.lsq.Valid() && rcu.lsq.View() == L.SetLoadState(old(rcu.lsq.View()), transId, L.LoadExecuted)
      ensures var e := old(rcu.lsq.View()).ldq.At(transId);
        if e.killed then insn.rdResult == old(insn.rdResult) && insn.excp == old(insn.excp) && wbPorts[..] == old(wbPorts[..])
        else
          && insn.excp == fault && insn.rdResult == (if fault.None? then M.Extract(block, e.d.subOp, e.address)
            else old(insn.rdResult))
          && (fault.None? ==> M.Widens(e.d.subOp, M.NumberAt(block, e.d.subOp, e.address % 8), insn.rdResult))
          && exists k :: 0 <= k < wbPorts.Length && old(wbPorts[k]).None? && wbPorts[..] == old(wbPorts[..])[k := Some(insn)]
    {
      hide LoopQueue.View, M.Extract;
      var e := rcu.lsq.loadQueue.Get(transId);
      M.ExtractIsItsBytes(block, e.d.subOp, e.address);
      rcu.lsq.loadQueue.Set(transId, e.(state := L.LoadExecuted));
      if !e.killed {
        insn.excp := fault;
        if fault.None? {
          insn.rdResult := M.Extract(block, e.d.subOp, e.address);
        }
        var k := 0;
        while wbPorts[k].Some?
          invariant k < wbPorts.Length && forall j :: 0 <= j < k ==> wbPorts[j].Some?
          invariant wbPorts[..] == old(wbPorts[..])
          decreases wbPorts.Length - k
        {
          k := k + 1;
        }
        wbPorts[k] := Some(insn);
        assert wbPorts[..] == old(wbPorts[..])[k := Some(insn)];
      }
    }

    method ReceiveStore(transId: nat)
      requires rcu.lsq.Valid() && rcu.lsq.View().stq.Live(transId)
      modifies rcu.lsq.storeQueue.dataVec
      ensures rcu.lsq.Valid() && rcu.lsq.View() == L.SetStoreState(old(rcu.lsq.View()), transId, L.StoreExecuted)
    {
      hide LoopQueue.View;
      var e := rcu.lsq.storeQueue.Get(transId);
      rcu.lsq.storeQueue.Set(transId, e.(state := L.StoreExecuted));
    }
  }

  lemma LoadsIgnoreData(l: L.Lsq, d: Decoded, lsqTag: nat, addr: nat, data: Val, data2: Val)
    requires l.Valid() && (d.fu == LDU ==> lsqTag < l.ldq.size) && (d.fu == STU ==> lsqTag < l.stq.size && data == data2)
    ensures L.WriteBack(l, d, lsqTag, addr, data) == L.WriteBack(l, d, lsqTag, addr, data2)
  {
  }
}
