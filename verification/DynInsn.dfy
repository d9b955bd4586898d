// The decoded instruction and the small enumerations shared by every component
// (src/Processor/DynInsn.hh, src/Processor/Pipeline/Pipe_data.hh).
module DynInsn {
  datatype Option<+T> = None | Some(value: T)

  function Min(a: nat, b: nat): nat { if a <= b then a else b }

  // A list with its p-th element left out.
  function Without<T>(q: seq<T>, p: nat): (r: seq<T>)
    requires p < |q|
    ensures |r| == |q| - 1 && forall j :: 0 <= j < |r| ==> r[j] == q[if j < p then j else j + 1]
  { q[..p] + q[p + 1..] }

  datatype FuncType = ALU | MUL | DIV | BRU | CSR | LDU | STU | FPU

  datatype RegType = NONE | INT

  // Register values are 64-bit words; nothing in the bookkeeping core depends on the width.
  type Val = nat

  datatype Fault = Fault(cause: nat, tval: nat)

  const CSR_MRET := 7
  const CSR_FENCE := 9
  const ISA_REGS := 32

  // What the decoder leaves in an instruction before it reaches the dispatch stage.
  datatype Decoded = Decoded(
    pc: nat, fu: FuncType, subOp: nat, controlFlow: bool,
    isaRs1: nat, isaRs2: nat, isaRd: nat,
    rs1Type: RegType, rs2Type: RegType, rdType: RegType,
    imm: int, excp: Option<Fault>)
  {
    predicate Writes() { rdType == INT && isaRd != 0 }

    predicate IsNop() { fu == ALU && isaRd == 0 }

    predicate IsFence() { fu == CSR && subOp == CSR_FENCE }

    predicate IsMret() { fu == CSR && subOp == CSR_MRET }

    // Entries created already done: they never visit a scheduler.
    predicate DoneAtDispatch() { IsNop() || excp.Some? || IsFence() || IsMret() }

    // The decoder's contract (src/RISCV/Decoder.hh:614-621 and its opcode cases).
    predicate WellDecoded() {
      && isaRs1 < ISA_REGS && isaRs2 < ISA_REGS && isaRd < ISA_REGS
      && (rs1Type == NONE ==> isaRs1 == 0)
      && (rs2Type == NONE ==> isaRs2 == 0)
      && (rdType == INT <==> isaRd != 0)
      && (controlFlow ==> fu == BRU || fu == CSR)
      && (fu == STU || IsFence() || IsMret() ==> rdType == NONE)
    }
  }

  // The instruction object the stages pass around: what decoding fixed, and the fields later
  // stages fill in.
  class Insn {
    const id: nat
    const d: Decoded
    var lsqTag: nat
    var robTag: nat
    var phyRs1: nat
    var phyRs2: nat
    var phyRd: nat
    var lphyRd: nat
    var operand1: Val
    var operand2: Val
    var operand1Ready: bool
    var operand2Ready: bool
    var rdResult: Val
    var excp: Option<Fault>
    var bruMisPred: bool
    var aguAddr: nat
    var aguData: Val

    constructor (id: nat, d: Decoded)
      ensures this.id == id && this.d == d && excp == d.excp
      ensures lsqTag == 0 && robTag == 0 && phyRs1 == 0 && phyRs2 == 0 && phyRd == 0 && lphyRd == 0
      ensures !operand1Ready && !operand2Ready && rdResult == 0 && !bruMisPred
    {
      this.id, this.d, excp := id, d, d.excp;
      lsqTag, robTag, phyRs1, phyRs2, phyRd, lphyRd := 0, 0, 0, 0, 0, 0;
      operand1, operand2, rdResult, aguAddr, aguData := 0, 0, 0, 0, 0;
      operand1Ready, operand2Ready, bruMisPred := false, false, false;
    }
  }

  // No instruction object occurs twice in a package.
  ghost predicate Distinct(pkg: seq<Insn>) { forall i, j :: 0 <= i < j < |pkg| ==> pkg[i] != pkg[j] }

  // The instruction objects of a package.
  ghost function Insns(pkg: seq<Insn>): (s: set<Insn>)
    ensures forall i :: 0 <= i < |pkg| ==> pkg[i] in s
  {
    if pkg == [] then {} else Insns(pkg[..|pkg| - 1]) + {pkg[|pkg| - 1]}
  }
}
