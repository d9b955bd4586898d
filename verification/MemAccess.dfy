// Byte-level memory access: the masked store request of Lsq::TryIssueStore, the masked
// write and block read of BaseDRAM, and the extraction in Func_LSU::ReceiveResponse.
module MemAccess {
  import opened DynInsn

  type Byte = x: nat | x < 256

  const ALIGN := 8                 // dCacheAlignByte, and the length of every request
  const WORD := 0x1_0000_0000_0000_0000

  const LDU_LB := 0
  const LDU_LH := 1
  const LDU_LW := 2
  const LDU_LD := 3
  const LDU_LBU := 4
  const LDU_LHU := 5
  const LDU_LWU := 6

  const STU_SB := 0
  const STU_SH := 1
  const STU_SW := 2
  const STU_SD := 3

  // ---- numbers and bytes -----------------------------------------------------------------------

  function Pow2(n: nat): (p: nat)
    ensures p > 0
  { if n == 0 then 1 else 2 * Pow2(n - 1) }

  // v << n
  function Shl(v: nat, n: nat): nat { if n == 0 then v else 2 * Shl(v, n - 1) }

  // (v >> 8k) & 0xff
  function ByteOf(v: nat, k: nat): Byte { if k == 0 then v % 256 else ByteOf(v / 256, k - 1) }

  // The number of values of an n-byte word.
  function Range(n: nat): (p: nat)
    ensures p > 0 && (n > 0 ==> p >= 256)
  { if n == 0 then 1 else 256 * Range(n - 1) }

  // Reading a little-endian word.
  function ValueOf(bs: seq<Byte>): nat { if bs == [] then 0 else bs[0] + 256 * ValueOf(bs[1..]) }

  // A narrow read widened to 64 bits, as the casts through intN_t and uintN_t do.
  function Extend(v: nat, size: nat, signed: bool): nat
    requires size in {1, 2, 4, 8}
  {
    if signed && v >= 128 * Range(size - 1) then v + (WORD - Range(size)) else v
  }

  function StoreSize(op: nat): (n: nat)
    requires op <= STU_SD
    ensures n in {1, 2, 4, 8}
  { if op == STU_SB then 1 else if op == STU_SH then 2 else if op == STU_SW then 4 else 8 }

  function LoadSize(op: nat): (n: nat)
    requires op <= LDU_LWU
    ensures n in {1, 2, 4, 8}
  {
    if op == LDU_LB || op == LDU_LBU then 1
    else if op == LDU_LH || op == LDU_LHU then 2
    else if op == LDU_LW || op == LDU_LWU then 4
    else 8
  }

  predicate SignedLoad(op: nat) { op <= LDU_LD }

  // ---- the store request ------------------------------------------------------------------------

  datatype StoreReq = StoreReq(address: nat, data: seq<Byte>, mask: nat)

  // (mask >> i) & 1
  predicate MaskBit(mask: nat, i: nat) { if i == 0 then mask % 2 == 1 else MaskBit(mask / 2, i - 1) }

  function BlockOf(addr: nat): nat { addr - addr % ALIGN }

  // Bytes below the offset are never written; they are shown as zero.
  function StoreByte(data: nat, offset: nat, it: nat): Byte { if it < offset then 0 else ByteOf(data, it - offset) }

  function StoreBytes(data: nat, offset: nat): (bs: seq<Byte>)
    ensures |bs| == ALIGN
    ensures forall it :: offset <= it < ALIGN ==> bs[it] == ByteOf(data, it - offset)
  { seq(ALIGN, it requires 0 <= it => StoreByte(data, offset, it)) }

  function MakeStore(op: nat, addr: nat, data: nat): StoreReq
    requires op <= STU_SD
  {
    StoreReq(BlockOf(addr), StoreBytes(data, addr % ALIGN), Shl(2 * Pow2(StoreSize(op) - 1) - 1, addr % ALIGN))
  }

  // The data-filling loop of TryIssueStore.
  method FillStore(op: nat, addr: nat, data: nat, buffer: array<Byte>) returns (req: StoreReq)
    requires op <= STU_SD && buffer.Length == ALIGN
    modifies buffer
    ensures req.address == MakeStore(op, addr, data).address && req.mask == MakeStore(op, addr, data).mask
    ensures req.data == buffer[..]
    ensures forall it :: addr % ALIGN <= it < ALIGN ==> req.data[it] == MakeStore(op, addr, data).data[it]
    ensures forall it :: 0 <= it < addr % ALIGN ==> req.data[it] == old(buffer[it])
  {
    var offset := addr % ALIGN;
    var it := offset;
    while it < ALIGN
      invariant offset <= it <= ALIGN
      invariant forall j :: offset <= j < it ==> buffer[j] == ByteOf(data, j - offset)
      invariant forall j :: 0 <= j < offset ==> buffer[j] == old(buffer[j])
    {
      buffer[it] := ByteOf(data, it - offset);
      it := it + 1;
    }
    req := StoreReq(addr - offset, buffer[..], Shl(2 * Pow2(StoreSize(op) - 1) - 1, offset));
  }

  // ---- memory -----------------------------------------------------------------------------------

  // The bytes of a store request whose mask bit is set replace those of the block.
  function Masked(ram: seq<Byte>, at: nat, data: seq<Byte>, mask: nat): (ram': seq<Byte>)
    requires at + |data| <= |ram|
    ensures |ram'| == |ram|
    ensures forall i :: 0 <= i < |ram| ==>
              ram'[i] == if at <= i < at + |data| && MaskBit(mask, i - at) then data[i - at] else ram[i]
  {
    seq(|ram|, i requires 0 <= i < |ram| => if at <= i < at + |data| && MaskBit(mask, i - at) then data[i - at] else ram[i])
  }

  class BaseDRAM {
    const base: nat
    const ram: array<Byte>

    constructor (base: nat, length: nat)
      ensures this.base == base && fresh(ram) && ram.Length == length && forall i :: 0 <= i < length ==> ram[i] == 0
    {
      this.base := base;
      ram := new Byte[length](_ => 0);
    }

    predicate InRange(address: nat, len: nat) { base <= address && address + len <= base + ram.Length }

    // The masked write, byte by byte.
    method Write(address: nat, data: seq<Byte>, mask: nat)
      requires InRange(address, |data|)
      modifies ram
      ensures ram[..] == Masked(old(ram[..]), address - base, data, mask)
    {
      var i := 0;
      while i < |data|
        invariant i <= |data|
        invariant forall j :: 0 <= j < ram.Length ==>
          ram[j] == if address - base <= j < address - base + i && MaskBit(mask, j - (address - base))
            then data[j - (address - base)] else old(ram[j])
      {
        if MaskBit(mask, i) {
          ram[address - base + i] := data[i];
        }
        i := i + 1;
      }
    }

    method Read(address: nat, len: nat) returns (data: seq<Byte>)
      requires InRange(address, len)
      ensures data == ram[address - base..address - base + len]
    {
      data := ram[address - base..address - base + len];
    }
  }

  // What a store leaves in memory: request and masked write together.
  function Store(ram: seq<Byte>, op: nat, addr: nat, data: nat): (ram': seq<Byte>)
    requires op <= STU_SD && BlockOf(addr) + ALIGN <= |ram|
    ensures |ram'| == |ram|
  {
    var req := MakeStore(op, addr, data);
    Masked(ram, req.address, req.data, req.mask)
  }

  // What a load returns: the aligned block is read, the bytes at the offset extracted and widened.
  function Load(ram: seq<Byte>, op: nat, addr: nat): nat
    requires op <= LDU_LWU && BlockOf(addr) + ALIGN <= |ram| && Within(addr, LoadSize(op))
  {
    Extract(ram[BlockOf(addr)..BlockOf(addr) + ALIGN], op, addr)
  }

  // The bytes a response's block holds at the offset, widened.
  function Extract(block: seq<Byte>, op: nat, addr: nat): nat
    requires op <= LDU_LWU && |block| == ALIGN && Within(addr, LoadSize(op))
  {
    Extend(ValueOf(block[addr % ALIGN..addr % ALIGN + LoadSize(op)]), LoadSize(op), SignedLoad(op))
  }

  // The access stays inside one block; naturally aligned accesses always do.
  predicate Within(addr: nat, size: nat) { addr % ALIGN + size <= ALIGN }

  lemma AlignedIsWithin(addr: nat, size: nat)
    requires size == 1 || (size == 2 && addr % 2 == 0) || (size == 4 && addr % 4 == 0) || (size == 8 && addr % 8 == 0)
    ensures Within(addr, size)
  {
  }

  // ---- arithmetic -------------------------------------------------------------------------------

  function Ones(n: nat): (m: nat)
    ensures m == Pow2(n) - 1
  { if n == 0 then 0 else 1 + 2 * Ones(n - 1) }

  lemma {:induction false} OnesBit(n: nat, i: nat)
    ensures MaskBit(Ones(n), i) <==> i < n
    decreases i
  {
    hide Pow2;
    if i > 0 {
      var n' := if n > 0 then n - 1 else 0;
      assert Ones(n) / 2 == Ones(n');
      OnesBit(n', i - 1);
    }
  }

  // Bit i of a mask shifted up by o.
  lemma {:induction false} ShiftedBit(m: nat, o: nat, i: nat)
    ensures MaskBit(Shl(m, o), i) <==> o <= i && MaskBit(m, i - o)
    decreases o
  {
    if o > 0 {
      assert 2 * Shl(m, o - 1) / 2 == Shl(m, o - 1);
      if i > 0 { ShiftedBit(m, o - 1, i - 1); }
    }
  }

  // A store request writes exactly the bytes of its access that lie in the block.
  lemma StoreMask(op: nat, addr: nat, i: nat)
    requires op <= STU_SD && i < ALIGN
    ensures MaskBit(MakeStore(op, addr, 0).mask, i) <==> addr % ALIGN <= i < addr % ALIGN + StoreSize(op)
  {
    var n, o := StoreSize(op), addr % ALIGN;
    assert 2 * Pow2(n - 1) - 1 == Ones(n);
    ShiftedBit(Ones(n), o, i);
    if o <= i { OnesBit(n, i - o); }
  }

  lemma {:induction false} ValueOfBytes(bs: seq<Byte>, v: nat) returns (high: nat)
    requires forall k :: 0 <= k < |bs| ==> bs[k] == ByteOf(v, k)
    ensures ValueOf(bs) < Range(|bs|) && v == Range(|bs|) * high + ValueOf(bs)
    decreases |bs|
  {
    if bs == [] {
      high := v;
    } else {
      forall k | 0 <= k < |bs| - 1 ensures bs[1..][k] == ByteOf(v / 256, k) {
        assert bs[1 + k] == ByteOf(v, 1 + k);
      }
      high := ValueOfBytes(bs[1..], v / 256);
      Associate(256, Range(|bs| - 1), high);
    }
  }

  lemma Associate(a: nat, b: nat, c: nat)
    ensures a * (b * c) == a * b * c
  {
  }

  lemma MulMono(d: nat, a: nat, b: nat)
    requires a <= b
    ensures d * a <= d * b
  {
  }

  lemma DivUnique(x: nat, d: nat, q: nat, r: nat)
    requires d > 0 && x == d * q + r && r < d
    ensures x % d == r
  {
    var q' := x / d;
    if q' > q {
      MulMono(d, q + 1, q');
      assert false;
    } else if q' < q {
      MulMono(d, q' + 1, q);
      assert false;
    }
  }

  // ---- the round trip ---------------------------------------------------------------------------

  // Byte i after a store: the access bytes that lie in the block change, nothing else does.
  lemma StoredByte(ram: seq<Byte>, op: nat, addr: nat, data: nat, i: nat)
    requires op <= STU_SD && BlockOf(addr) + ALIGN <= |ram| && i < |ram|
    ensures Store(ram, op, addr, data)[i] ==
            if addr <= i < addr + StoreSize(op) && i < BlockOf(addr) + ALIGN then ByteOf(data, i - addr) else ram[i]
  {
    if BlockOf(addr) <= i < BlockOf(addr) + ALIGN {
      StoreMask(op, addr, i - BlockOf(addr));
    }
  }

  // Storing then loading the same bytes returns the low bytes of the data, widened; the
  // load may be signed or unsigned.
  lemma StoreThenLoad(ram: seq<Byte>, st: nat, ld: nat, addr: nat, data: nat)
    requires st <= STU_SD && ld <= LDU_LWU && StoreSize(st) == LoadSize(ld)
    requires BlockOf(addr) + ALIGN <= |ram| && Within(addr, StoreSize(st))
    ensures Load(Store(ram, st, addr, data), ld, addr) == Extend(data % Range(StoreSize(st)), StoreSize(st), SignedLoad(ld))
  {
    var ram' := Store(ram, st, addr, data);
    var block := ram'[BlockOf(addr)..BlockOf(addr) + ALIGN];
    var bs := block[addr % ALIGN..addr % ALIGN + StoreSize(st)];
    forall k | 0 <= k < |bs| ensures bs[k] == ByteOf(data, k) {
      StoredByte(ram, st, addr, data, addr + k);
    }
    var high := ValueOfBytes(bs, data);
    DivUnique(data, Range(|bs|), high, ValueOf(bs));
  }

  // ---- the accesses in plain numbers ------------------------------------------------------------

  function Two(bs: seq<Byte>, i: nat): nat
    requires i + 2 <= |bs|
  { bs[i] as nat + 0x100 * bs[i + 1] as nat }

  function Four(bs: seq<Byte>, i: nat): nat
    requires i + 4 <= |bs|
  { Two(bs, i) + 0x1_0000 * Two(bs, i + 2) }

  function Eight(bs: seq<Byte>, i: nat): nat
    requires i + 8 <= |bs|
  { Four(bs, i) + 0x1_0000_0000 * Four(bs, i + 4) }

  // Reading a little-endian word, two bytes at a time.
  lemma ValueOfTwo(bs: seq<Byte>, n: nat)
    requires n + 2 <= |bs|
    ensures ValueOf(bs[n..]) == Two(bs, n) + 0x1_0000 * ValueOf(bs[n + 2..])
  {
    assert bs[n..][1..] == bs[n + 1..] && bs[n + 1..][1..] == bs[n + 2..];
  }

  lemma ValueOfShort(bs: seq<Byte>)
    ensures |bs| == 1 ==> ValueOf(bs) == bs[0]
    ensures |bs| == 2 ==> ValueOf(bs) == Two(bs, 0)
    ensures |bs| == 4 ==> ValueOf(bs) == Four(bs, 0)
    ensures |bs| == 8 ==> ValueOf(bs) == Eight(bs, 0)
  {
    assert bs[0..] == bs;
    if |bs| == 1 {
      assert bs[1..] == [];
    } else if |bs| == 2 || |bs| == 4 || |bs| == 8 {
      hide ValueOf;
      ValueOfNone(bs[|bs|..]);
      ValueOfTwo(bs, 0);
      if |bs| > 2 {
        ValueOfTwo(bs, 2);
      }
      if |bs| > 4 {
        ValueOfTwo(bs, 4);
        ValueOfTwo(bs, 6);
      }
    }
  }

  lemma ValueOfNone(bs: seq<Byte>)
    requires bs == []
    ensures ValueOf(bs) == 0
  {
  }

  // What a narrow value becomes in a 64-bit register: LB, LH and LW copy the sign, LBU, LHU and
  // LWU do not, and LD has nothing to widen.
  predicate Widens(op: nat, v: nat, r: nat) {
    match op
    case 0 => r == if v < 0x80 then v else v + 0xFFFF_FFFF_FFFF_FF00
    case 1 => r == if v < 0x8000 then v else v + 0xFFFF_FFFF_FFFF_0000
    case 2 => r == if v < 0x8000_0000 then v else v + 0xFFFF_FFFF_0000_0000
    case _ => r == v
  }

  lemma ExtendWidens(op: nat, v: nat)
    requires op <= LDU_LWU
    ensures Widens(op, v, Extend(v, LoadSize(op), SignedLoad(op)))
  {
    assert Range(0) == 1 && Range(1) == 0x100 && Range(2) == 0x1_0000 && Range(3) == 0x100_0000;
    assert Range(4) == 0x1_0000_0000;
    assert Range(7) == 0x100_0000_0000_0000 && Range(8) == 0x1_0000_0000_0000_0000;
  }

  // The bytes an opcode reads: 0 to 3 are LB, LH, LW and LD, 4 to 6 LBU, LHU and LWU.
  function Width(op: nat): nat
    requires op <= 6
  { match op case 0 => 1 case 1 => 2 case 2 => 4 case 3 => 8 case 4 => 1 case 5 => 2 case _ => 4 }

  // The little-endian number they hold from place i on.
  function NumberAt(bs: seq<Byte>, op: nat, i: nat): nat
    requires op <= 6 && i + Width(op) <= |bs|
  {
    match op
    case 0 => bs[i] case 1 => Two(bs, i) case 2 => Four(bs, i) case 3 => Eight(bs, i)
    case 4 => bs[i] case 5 => Two(bs, i) case _ => Four(bs, i)
  }

  // What is extracted from a response's block, and what a load returns, is the number of the
  // bytes the opcode names, widened as the opcode says.
  lemma ExtractIsItsBytes(block: seq<Byte>, op: nat, addr: nat)
    requires op <= 6 && |block| == 8 && Within(addr, LoadSize(op))
    ensures addr % 8 + Width(op) <= 8 && Widens(op, NumberAt(block, op, addr % 8), Extract(block, op, addr))
  {
    hide Extend, Widens, Range, ValueOf;
    var o := addr % 8;
    var bs := block[o..o + LoadSize(op)];
    ValueOfShort(bs);
    ExtendWidens(op, ValueOf(bs));
  }

  lemma NumberInBlock(ram: seq<Byte>, op: nat, lo: nat, o: nat)
    requires op <= 6 && lo + 8 <= |ram| && o + Width(op) <= 8
    ensures NumberAt(ram[lo..lo + 8], op, o) == NumberAt(ram, op, lo + o)
  {
    var block := ram[lo..lo + 8];
    assert forall i :: 0 <= i < 8 ==> block[i] == ram[lo + i];
  }

  lemma LoadIsItsBytes(ram: seq<Byte>, op: nat, addr: nat)
    requires op <= 6 && BlockOf(addr) + ALIGN <= |ram| && Within(addr, LoadSize(op))
    ensures addr + Width(op) <= |ram| && Widens(op, NumberAt(ram, op, addr), Load(ram, op, addr))
  {
    hide Widens, Extract, NumberAt, Width;
    ExtractIsItsBytes(ram[BlockOf(addr)..BlockOf(addr) + ALIGN], op, addr);
    NumberInBlock(ram, op, BlockOf(addr), addr % ALIGN);
  }

  // A store leaves the low one, two, four or eight bytes of its data, low byte first, and no
  // other byte changes: 0 to 3 are SB, SH, SW and SD.
  lemma StoreIsItsBytes(ram: seq<Byte>, op: nat, addr: nat, data: nat)
    requires op <= 3 && BlockOf(addr) + ALIGN <= |ram| && Within(addr, StoreSize(op))
    ensures var ram' := Store(ram, op, addr, data);
      var n := match op case 0 => 1 case 1 => 2 case 2 => 4 case _ => 8;
      && addr + n <= |ram'| == |ram| && (forall i :: 0 <= i < |ram| && !(addr <= i < addr + n) ==> ram'[i] == ram[i])
      && match op
         case 0 => ram'[addr] == data % 0x100
         case 1 => Two(ram', addr) == data % 0x1_0000
         case 2 => Four(ram', addr) == data % 0x1_0000_0000
         case _ => Eight(ram', addr) == data % 0x1_0000_0000_0000_0000
  {
    hide Store, Load, Extend, ValueOf;
    var ld := if op == 3 then 3 else op + 4;
    StoreThenLoad(ram, op, ld, addr, data);
    LoadIsItsBytes(Store(ram, op, addr, data), ld, addr);
    RangeOfStore(op);
    ExtendWidens(ld, data % Range(StoreSize(op)));
    forall i | 0 <= i < |ram| && !(addr <= i < addr + StoreSize(op)) ensures Store(ram, op, addr, data)[i] == ram[i] {
      StoredByte(ram, op, addr, data, i);
    }
  }

  lemma RangeOfStore(op: nat)
    requires op <= 3
    ensures Range(StoreSize(op)) == match op
      case 0 => 0x100 case 1 => 0x1_0000 case 2 => 0x1_0000_0000 case _ => 0x1_0000_0000_0000_0000
  {
    assert Range(1) == 0x100 && Range(2) == 0x1_0000 && Range(4) == 0x1_0000_0000;
    assert Range(8) == 0x1_0000_0000_0000_0000;
  }

  // The round trip by opcode: what comes back is the low part of the data, widened.
  lemma StoreThenLoadWidens(ram: seq<Byte>, st: nat, ld: nat, addr: nat, data: nat)
    requires st <= 3 && ld <= 6 && (ld == st || (st < 3 && ld == st + 4))
    requires BlockOf(addr) + ALIGN <= |ram| && Within(addr, StoreSize(st))
    ensures var v := data % match st
      case 0 => 0x100 case 1 => 0x1_0000 case 2 => 0x1_0000_0000 case _ => 0x1_0000_0000_0000_0000;
      Widens(ld, v, Load(Store(ram, st, addr, data), ld, addr))
  {
    hide Store, Load, Extend, Range, Widens;
    StoreThenLoad(ram, st, ld, addr, data);
    RangeOfStore(st);
    ExtendWidens(ld, data % Range(StoreSize(st)));
  }

  lemma SliceOfSlice(ram: seq<Byte>, lo: nat, hi: nat, o: nat, n: nat)
    requires lo <= hi <= |ram| && o + n <= hi - lo
    ensures ram[lo..hi][o..o + n] == ram[lo + o..lo + o + n]
  {
    var a, b := ram[lo..hi][o..o + n], ram[lo + o..lo + o + n];
    assert forall k :: 0 <= k < n ==> a[k] == b[k];
  }

  // A load depends only on the bytes it names.
  lemma LoadReadsItsBytes(ram: seq<Byte>, ram': seq<Byte>, ld: nat, addr: nat)
    requires ld <= LDU_LWU && |ram'| == |ram| && BlockOf(addr) + ALIGN <= |ram| && Within(addr, LoadSize(ld))
    requires forall i :: addr <= i < addr + LoadSize(ld) ==> ram'[i] == ram[i]
    ensures Load(ram', ld, addr) == Load(ram, ld, addr)
  {
    var o, n := addr % ALIGN, LoadSize(ld);
    SliceOfSlice(ram, BlockOf(addr), BlockOf(addr) + ALIGN, o, n);
    SliceOfSlice(ram', BlockOf(addr), BlockOf(addr) + ALIGN, o, n);
    assert ram'[addr..addr + n] == ram[addr..addr + n];
  }

  // A load of other bytes is unaffected.
  lemma StoreElsewhere(ram: seq<Byte>, st: nat, ld: nat, addr: nat, data: nat, addr2: nat)
    requires st <= STU_SD && ld <= LDU_LWU
    requires BlockOf(addr) + ALIGN <= |ram| && BlockOf(addr2) + ALIGN <= |ram| && Within(addr2, LoadSize(ld))
    requires addr2 + LoadSize(ld) <= addr || addr + StoreSize(st) <= addr2
    ensures Load(Store(ram, st, addr, data), ld, addr2) == Load(ram, ld, addr2)
  {
    var ram' := Store(ram, st, addr, data);
    forall i | addr2 <= i < addr2 + LoadSize(ld) ensures ram'[i] == ram[i] {
      StoredByte(ram, st, addr, data, i);
    }
    LoadReadsItsBytes(ram, ram', ld, addr2);
  }

  // The sequential meaning of an n-byte store.
  predicate StoresExactly(ram: seq<Byte>, ram': seq<Byte>, addr: nat, size: nat, data: nat) {
    && |ram'| == |ram|
    && forall i :: 0 <= i < |ram| ==> ram'[i] == if addr <= i < addr + size then ByteOf(data, i - addr) else ram[i]
  }

  // A misaligned access raises no exception: a store that leaves its block silently loses the
  // bytes beyond it. The request stores what it should, whatever was there, if and only if
  // the access stays within its block.
  lemma StoreIsExactIffWithin(op: nat, addr: nat, data: nat)
    requires op <= STU_SD
    ensures Within(addr, StoreSize(op)) <==>
      forall ram: seq<Byte> | |ram| >= BlockOf(addr) + 2 * ALIGN :: StoresExactly(ram, Store(ram, op, addr, data),
        addr, StoreSize(op), data)
  {
    if Within(addr, StoreSize(op)) {
      forall ram: seq<Byte> | |ram| >= BlockOf(addr) + 2 * ALIGN
        ensures StoresExactly(ram, Store(ram, op, addr, data), addr, StoreSize(op), data)
      {
        forall i | 0 <= i < |ram| ensures Store(ram, op, addr, data)[i] == if addr <= i < addr + StoreSize(op)
          then ByteOf(data, i - addr) else ram[i] {
          StoredByte(ram, op, addr, data, i);
        }
      }
    } else {
      var lost := BlockOf(addr) + ALIGN;
      var other: Byte := if ByteOf(data, lost - addr) == 0 then 1 else 0;
      var ram: seq<Byte> := seq(lost + ALIGN, _ => other);
      StoredByte(ram, op, addr, data, lost);
      assert ram[lost] == other;
      assert !StoresExactly(ram, Store(ram, op, addr, data), addr, StoreSize(op), data);
    }
  }

  // ---- request and write in place -----------------------------------------------------------------

  // The bytes below the offset, whatever they are, are not written.
  lemma FilledIsStore(ram: seq<Byte>, op: nat, addr: nat, data: nat, bs: seq<Byte>)
    requires op <= STU_SD && BlockOf(addr) + ALIGN <= |ram| && |bs| == ALIGN
    requires forall it :: addr % ALIGN <= it < ALIGN ==> bs[it] == MakeStore(op, addr, data).data[it]
    ensures Masked(ram, BlockOf(addr), bs, MakeStore(op, addr, data).mask) == Store(ram, op, addr, data)
  {
    hide MaskBit, Shl, Pow2, ByteOf, StoreSize;
    var req := MakeStore(op, addr, data);
    forall i | BlockOf(addr) <= i < BlockOf(addr) + ALIGN
      ensures Masked(ram, BlockOf(addr), bs, req.mask)[i] == Store(ram, op, addr, data)[i]
    {
      StoreMask(op, addr, i - BlockOf(addr));
    }
  }

  // Memory addresses count from the base, which is aligned.
  lemma BlockFromBase(addr: nat, base: nat)
    requires base % ALIGN == 0 && base <= addr
    ensures (addr - base) % ALIGN == addr % ALIGN && BlockOf(addr) >= base && BlockOf(addr) - base == BlockOf(addr - base)
  {
  }

  // A store as it happens: the buffer is filled, the block written under the mask.
  method StoreInPlace(dram: BaseDRAM, op: nat, addr: nat, data: nat, buffer: array<Byte>)
    requires op <= STU_SD && buffer.Length == ALIGN && buffer != dram.ram
    requires dram.base % ALIGN == 0 && dram.base <= addr && dram.InRange(BlockOf(addr), ALIGN)
    modifies buffer, dram.ram
    ensures BlockOf(addr - dram.base) + ALIGN <= dram.ram.Length
    ensures dram.ram[..] == Store(old(dram.ram[..]), op, addr - dram.base, data)
  {
    BlockFromBase(addr, dram.base);
    var req := FillStore(op, addr, data, buffer);
    FilledIsStore(dram.ram[..], op, addr - dram.base, data, req.data);
    dram.Write(req.address, req.data, req.mask);
  }

  // A load as it happens: the aligned block is read and the value extracted.
  method LoadInPlace(dram: BaseDRAM, op: nat, addr: nat) returns (v: nat)
    requires op <= LDU_LWU && Within(addr, LoadSize(op))
    requires dram.base % ALIGN == 0 && dram.base <= addr && dram.InRange(BlockOf(addr), ALIGN)
    ensures Within(addr - dram.base, LoadSize(op)) && BlockOf(addr - dram.base) + ALIGN <= dram.ram.Length
    ensures v == Load(dram.ram[..], op, addr - dram.base)
  {
    BlockFromBase(addr, dram.base);
    var block := dram.Read(BlockOf(addr), ALIGN);
    ghost var at := BlockOf(addr - dram.base);
    assert block == dram.ram[..][at..at + ALIGN];
    v := Extract(block, op, addr);
  }
}
