// The streaming instruction splitter of the first fetch stage (src/Processor/Pipeline/Fetch1.cc).
// Instruction lengths follow section 1.5 of The RISC-V Instruction Set Manual, Volume I
// (20191213): a low-order 11 marks a 32-bit instruction, anything else a 16-bit one.
module Predecode {
  import opened DynInsn
  import opened MemAccess

  datatype Fetched = Fetched(pc: nat, word: nat, isRvc: bool)

  // What is left of a byte stream once everything complete has been split off. `cut` says a
  // redirect ended the output early.
  datatype Parsed = Parsed(out: seq<Fetched>, rest: seq<Byte>, cut: bool)

  function Half(b: seq<Byte>, i: nat): nat
    requires i + 2 <= |b|
  { (b[i] as nat) + 256 * (b[i + 1] as nat) }

  function Word(b: seq<Byte>, i: nat): nat
    requires i + 4 <= |b|
  { Half(b, i) + 65536 * Half(b, i + 2) }

  // With predictions always invalid only JAL and C.J redirect.
  predicate Redirects(word: nat) { word % 128 == 0x6f || (word % 4 == 1 && word / 8192 % 8 == 5) }

  // The low two bits mark a 32-bit instruction.
  predicate Long(x: nat) { x % 4 == 3 }

  // ---- the one-shot parse -------------------------------------------------------------------

  // The first instruction of a stream, if it is complete.
  function First(b: seq<Byte>, pc: nat): (r: Option<Fetched>)
    ensures r.Some? ==> |b| >= if r.value.isRvc then 2 else 4
    ensures r.None? ==> |b| < 4
  {
    if |b| < 2 then None
    else if !Long(b[0]) then Some(Fetched(pc, Half(b, 0), true))
    else if |b| < 4 then None
    else Some(Fetched(pc, Word(b, 0), false))
  }

  function Size(f: Fetched): nat { if f.isRvc then 2 else 4 }

  function Parse(b: seq<Byte>, pc: nat): (p: Parsed)
    ensures !p.cut ==> |p.rest| < 4 && |p.rest| <= |b|
    decreases |b|
  {
    var f := First(b, pc);
    if f.None? then Parsed([], b, false)
    else if Redirects(f.value.word) then Parsed([f.value], b[Size(f.value)..], true)
    else
      var p := Parse(b[Size(f.value)..], pc + Size(f.value));
      Parsed([f.value] + p.out, p.rest, p.cut)
  }

  // An even stream leaves nothing or one half.
  lemma {:induction false} EvenRest(b: seq<Byte>, pc: nat)
    requires |b| % 2 == 0 && !Parse(b, pc).cut
    ensures |Parse(b, pc).rest| == 0 || (|Parse(b, pc).rest| == 2 && Long(Parse(b, pc).rest[0]))
    ensures |Parse(b, pc).rest| <= |b| && Parse(b, pc).rest == b[|b| - |Parse(b, pc).rest|..]
    decreases |b|
  {
    hide Parse, Redirects;
    Unfold(b, pc);
    var f := First(b, pc);
    if f.Some? {
      var n := Size(f.value);
      EvenRest(b[n..], pc + n);
      assert b[n..][|b| - n - |Parse(b, pc).rest|..] == b[|b| - |Parse(b, pc).rest|..];
    }
  }

  // Parsing a stream in two parts, carrying what the first leaves, is parsing it at once.
  lemma {:induction false} ParseAppend(a: seq<Byte>, b: seq<Byte>, pc: nat)
    requires !Parse(a, pc).cut
    ensures var p := Parse(a, pc);
      |p.rest| <= |a| &&
      var q := Parse(p.rest + b, pc + |a| - |p.rest|);
      var whole := Parse(a + b, pc);
      whole.out == p.out + q.out && whole.cut == q.cut && whole.rest == q.rest
    decreases |a|
  {
    hide Parse, First, Redirects;
    Unfold(a, pc);
    var f := First(a, pc);
    if f.Some? {
      var n := Size(f.value);
      FirstOfMore(a, b, pc);
      Unfold(a + b, pc);
      assert (a + b)[n..] == a[n..] + b;
      ParseAppend(a[n..], b, pc + n);
    }
  }

  lemma Unfold(b: seq<Byte>, pc: nat)
    ensures var f := First(b, pc);
      if f.None? then Parse(b, pc) == Parsed([], b, false)
      else if Redirects(f.value.word) then Size(f.value) <= |b| && Parse(b, pc) == Parsed([f.value], b[Size(f.value)..], true)
      else
        && Size(f.value) <= |b|
        && var p := Parse(b[Size(f.value)..], pc + Size(f.value));
           Parse(b, pc) == Parsed([f.value] + p.out, p.rest, p.cut)
  {
  }

  lemma FirstOfMore(a: seq<Byte>, b: seq<Byte>, pc: nat)
    requires First(a, pc).Some?
    ensures First(a + b, pc) == First(a, pc)
  {
    assert forall i :: 0 <= i < |a| ==> (a + b)[i] == a[i];
  }

  // ---- what the parse means ---------------------------------------------------------------------

  // The bytes an instruction was read from, low byte first.
  function Encoded(f: Fetched): seq<Byte> {
    var low := [f.word % 256, f.word / 256 % 256];
    if f.isRvc then low else low + [f.word / 256 / 256 % 256, f.word / 256 / 256 / 256 % 256]
  }

  function Joined(out: seq<Fetched>): seq<Byte> { if out == [] then [] else Encoded(out[0]) + Joined(out[1..]) }

  // JAL, whose opcode is 0b1101111, or C.J, with low bits 01 and high bits 101.
  predicate Jumps(word: nat) { word % 128 == 111 || (word % 4 == 1 && word / 8192 % 8 == 5) }

  // The low two bits are 11 exactly in a 32-bit instruction.
  predicate LengthOk(f: Fetched) {
    (f.isRvc <==> f.word % 4 != 3) && f.word < if f.isRvc then 0x1_0000 else 0x1_0000_0000
  }

  // The instructions follow one another from `pc` on, each as long as its low two bits say, and
  // none but the last of a stream that was cut is a jump.
  predicate Consecutive(out: seq<Fetched>, pc: nat, cut: bool) {
    && (forall k :: 0 <= k < |out| ==> LengthOk(out[k]))
    && (forall k :: 0 <= k < |out| ==>
          out[k].pc == if k == 0 then pc else out[k - 1].pc + if out[k - 1].isRvc then 2 else 4)
    && (forall k :: 0 <= k < |out| ==> (Jumps(out[k].word) <==> cut && k == |out| - 1))
    && (cut ==> out != [])
  }

  lemma ConsecutiveCons(f: Fetched, out: seq<Fetched>, pc: nat, cut: bool)
    requires f.pc == pc && LengthOk(f)
    requires Consecutive(out, pc + if f.isRvc then 2 else 4, cut) && !Jumps(f.word)
    ensures Consecutive([f] + out, pc, cut)
  {
    hide Jumps, LengthOk;
    var all := [f] + out;
    forall k | 0 <= k < |all|
      ensures LengthOk(all[k]) && (Jumps(all[k].word) <==> cut && k == |all| - 1)
      ensures all[k].pc == if k == 0 then pc else all[k - 1].pc + if all[k - 1].isRvc then 2 else 4
    {
      assert k > 0 ==> all[k] == out[k - 1];
      assert k > 1 ==> all[k - 1] == out[k - 2];
    }
  }

  lemma Digit(lo: Byte, hi: nat)
    ensures (lo + 256 * hi) % 256 == lo && (lo + 256 * hi) / 256 == hi && (lo + 256 * hi) % 4 == lo % 4
  {
    var x: nat, q: nat := lo + 256 * hi, lo / 4;
    DivUnique(x, 256, hi, lo);
    assert x == 256 * (x / 256) + x % 256;
    DivUnique(x, 4, 64 * hi + q, lo % 4);
  }

  lemma Digits(b0: Byte, b1: Byte, b2: Byte, b3: Byte)
    ensures var w: nat := (b0 as nat + 256 * b1) + 65536 * (b2 as nat + 256 * b3);
      && w < 0x1_0000_0000 && w % 4 == b0 % 4 && w % 256 == b0 && w / 256 % 256 == b1
      && w / 256 / 256 % 256 == b2 && w / 256 / 256 / 256 % 256 == b3
  {
    var x2: nat := b2 as nat + 256 * b3;
    var x1: nat := b1 as nat + 256 * x2;
    Digit(b2, b3);
    Digit(b1, x2);
    Digit(b0, x1);
    assert (b0 as nat + 256 * b1) + 65536 * x2 == b0 as nat + 256 * x1;
  }

  lemma FirstIsEncoded(b: seq<Byte>, pc: nat)
    requires First(b, pc).Some?
    ensures var f := First(b, pc).value;
      && f.pc == pc && LengthOk(f)
      && Size(f) <= |b| && Encoded(f) == b[..Size(f)]
  {
    var f := First(b, pc).value;
    if f.isRvc {
      Digit(b[0], b[1]);
    } else {
      Digits(b[0], b[1], b[2], b[3]);
    }
  }

  // The parse is the split of the stream by instruction length: the bytes of its output and its
  // rest are the stream, and an even stream leaves at most the first half of a long instruction.
  lemma {:induction false} ParseIsTheSplit(b: seq<Byte>, pc: nat)
    ensures var p := Parse(b, pc);
      && Joined(p.out) + p.rest == b && Consecutive(p.out, pc, p.cut)
      && (!p.cut && |b| % 2 == 0 ==> p.rest == [] || (|p.rest| == 2 && p.rest[0] % 4 == 3))
    decreases |b|
  {
    hide Parse, First, Redirects, Consecutive, LengthOk, Encoded, Jumps, Joined;
    Unfold(b, pc);
    var f := First(b, pc);
    if f.None? {
      NoneLeft(b, pc);
      assert [] + b == b;
    } else {
      var n := Size(f.value);
      FirstIsEncoded(b, pc);
      assert b[..n] + b[n..] == b;
      JumpsRedirect(f.value.word);
      if Redirects(f.value.word) {
        OneJump(f.value, pc);
        JoinCons(f.value, [], b[n..]);
        assert [f.value] + [] == [f.value] && [] + b[n..] == b[n..];
      } else {
        ParseIsTheSplit(b[n..], pc + n);
        var p := Parse(b[n..], pc + n);
        ConsecutiveCons(f.value, p.out, pc, p.cut);
        JoinCons(f.value, p.out, p.rest);
      }
    }
  }

  lemma JoinCons(f: Fetched, out: seq<Fetched>, rest: seq<Byte>)
    ensures Joined([f] + out) + rest == Encoded(f) + (Joined(out) + rest) && Joined([]) == []
  {
    assert ([f] + out)[1..] == out;
  }

  lemma JumpsRedirect(word: nat)
    ensures Jumps(word) <==> Redirects(word)
  {
  }

  lemma OneJump(f: Fetched, pc: nat)
    requires f.pc == pc && LengthOk(f)
    requires Jumps(f.word)
    ensures Consecutive([f], pc, true)
  {
  }

  lemma NoneLeft(b: seq<Byte>, pc: nat)
    requires First(b, pc).None?
    ensures Joined([]) == [] && Consecutive([], pc, false) && (|b| % 2 == 0 ==> b == [] || (|b| == 2 && b[0] % 4 == 3))
  {
  }

  // A cut stays where it is, whatever follows.
  lemma {:induction false} CutStays(a: seq<Byte>, b: seq<Byte>, pc: nat)
    requires Parse(a, pc).cut
    ensures Parse(a + b, pc).cut && Parse(a + b, pc).out == Parse(a, pc).out
    decreases |a|
  {
    var f := First(a, pc);
    var n := Size(f.value);
    FirstOfMore(a, b, pc);
    assert (a + b)[n..] == a[n..] + b;
    if !Redirects(f.value.word) {
      CutStays(a[n..], b, pc + n);
    }
  }

  // ---- the stage --------------------------------------------------------------------------------

  // The half carried from one fetch block to the next.
  function Carry(valid: bool, half: nat): (c: seq<Byte>)
    requires half < 65536
    ensures |c| == if valid then 2 else 0
  { if valid then [half % 256, half / 256] else [] }

  // The first `done` bytes of the stream have been split into `out`.
  predicate Progress(b: seq<Byte>, pc: nat, out: seq<Fetched>, done: nat) {
    && done <= |b|
    && Parse(b, pc).out == out + Parse(b[done..], pc + done).out
    && Parse(b, pc).cut == Parse(b[done..], pc + done).cut && Parse(b, pc).rest == Parse(b[done..], pc + done).rest
  }

  lemma ProgressStart(b: seq<Byte>, pc: nat)
    ensures Progress(b, pc, [], 0)
  {
    assert b[0..] == b;
  }

  lemma ProgressStep(b: seq<Byte>, pc: nat, out: seq<Fetched>, done: nat, f: Fetched)
    requires Progress(b, pc, out, done) && done <= |b| && First(b[done..], pc + done) == Some(f)
    ensures if Redirects(f.word) then Parse(b, pc).out == out + [f] && Parse(b, pc).cut
      else Progress(b, pc, out + [f], done + Size(f))
  {
    hide Parse, First, Redirects;
    Unfold(b[done..], pc + done);
    assert b[done..][Size(f)..] == b[done + Size(f)..];
    assert pc + done + Size(f) == pc + (done + Size(f));
    var rest := Parse(b[done + Size(f)..], pc + done + Size(f)).out;
    assert out + ([f] + rest) == out + [f] + rest;
    assert out + [f] == out + [f] + [];
  }

  lemma ProgressEnd(b: seq<Byte>, pc: nat, out: seq<Fetched>, done: nat)
    requires Progress(b, pc, out, done) && (done == |b| || (done + 2 == |b| && Long(b[done])))
    ensures Parse(b, pc) == Parsed(out, b[done..], false)
  {
  }

  // The word assembled from the block, or from the carried half and the block, is the next one
  // of the stream.
  lemma FirstIs(b: seq<Byte>, done: nat, pc: nat, isRvc: bool, word: nat, block: seq<Byte>, at: nat, carried: bool)
    requires done + 2 <= |b| && at + 2 <= |block| && isRvc == (!carried && !Long(block[at])) && (isRvc || done + 4 <= |b|)
    requires Aligned(b, done, block, at, carried, if carried then Half(b, done) else 0)
    requires if carried then word == Half(block, at) * 65536 + Half(b, done)
             else if isRvc then word == Half(block, at) else at + 4 <= |block| && word == Word(block, at)
    ensures First(b[done..], pc) == Some(Fetched(pc, word, isRvc))
  {
    if carried {
      assert b[done + 2] == block[at] && b[done + 3] == block[at + 1];
    } else {
      assert b[done] == block[at] && b[done + 1] == block[at + 1];
      if !isRvc {
        assert b[done + 2] == block[at + 2] && b[done + 3] == block[at + 3];
      }
    }
  }

  // The rest of the stream lies in the block from dataPtr on, after the carried half if that is
  // still to come.
  predicate Aligned(b: seq<Byte>, done: nat, block: seq<Byte>, dataPtr: nat, carried: bool, half: nat) {
    && done <= |b| && dataPtr <= |block|
    && |block| - dataPtr + (if carried then 2 else 0) == |b| - done
    && (carried ==> |block| - dataPtr >= 2 && Half(b, done) == half && Long(b[done]))
    && forall i :: done + (if carried then 2 else 0) <= i < |b| ==> b[i] == block[i + |block| - |b|]
  }

  lemma AlignedStart(block: seq<Byte>, offset: nat, carried: bool, half: nat)
    requires offset < |block| && half < 65536 && (carried ==> Long(half) && |block| - offset >= 2)
    ensures Aligned(Carry(carried, half) + block[offset..], 0, block, offset, carried, half)
  {
    if carried {
      var b := Carry(carried, half) + block[offset..];
      HalfBytes(b[0], b[1]);
    }
  }

  lemma AlignedFacts(b: seq<Byte>, done: nat, block: seq<Byte>, dataPtr: nat, carried: bool, half: nat)
    requires Aligned(b, done, block, dataPtr, carried, half)
    ensures |block| - dataPtr + (if carried then 2 else 0) == |b| - done
    ensures carried ==> done + 4 <= |b| && dataPtr + 2 <= |block|
    ensures !carried && done + 2 <= |b| ==> dataPtr + 2 <= |block| && b[done] == block[dataPtr]
    ensures !carried && done + 2 == |b| ==>
      Half(block, dataPtr) < 65536 && Long(Half(block, dataPtr)) == Long(b[done])
        && Carry(true, Half(block, dataPtr)) == b[done..]
  {
    if !carried && done + 2 == |b| {
      assert b[done + 1] == block[dataPtr + 1];
      HalfBytes(b[done], b[done + 1]);
    }
  }

  lemma AlignedStep(b: seq<Byte>, done: nat, block: seq<Byte>, dataPtr: nat, carried: bool, half: nat, size: nat)
    requires Aligned(b, done, block, dataPtr, carried, half) && done + size <= |b| && (carried ==> size == 4)
    ensures Aligned(b, done + size, block, dataPtr + if carried then 2 else size, false, half)
  {
  }

  // The offset of an address in its fetch block.
  function OffsetIn(address: nat, width: nat): (offset: nat)
    requires width > 0
    ensures offset < width
  { address % width }

  class Fetch1 {
    const fetchByteWidth: nat      // equal to the instruction cache's alignment
    var misalignValid: bool
    var misalignHalf: nat
    var waitForResume: bool

    constructor (fetchByteWidth: nat)
      requires fetchByteWidth > 0 && fetchByteWidth % 2 == 0
      ensures this.fetchByteWidth == fetchByteWidth && Valid() && !misalignValid
    {
      this.fetchByteWidth, misalignValid, misalignHalf, waitForResume := fetchByteWidth, false, 0, false;
    }

    predicate Valid()
      reads this
    {
      fetchByteWidth > 0 && fetchByteWidth % 2 == 0 && HalfOk()
    }

    predicate HalfOk()
      reads this
    { misalignHalf < 65536 && (misalignValid ==> Long(misalignHalf)) }

    function Carried(): seq<Byte>
      reads this
      requires HalfOk()
    { Carry(misalignValid, misalignHalf) }

    method FlushAction()
      requires Valid()
      modifies this
      ensures Valid() && Carried() == [] && !waitForResume
    {
      misalignValid, misalignHalf, waitForResume := false, 0, false;
    }

    // The front entry of the in-flight queue. A block that could not be fetched becomes one
    // faulting instruction at its address, and the stage waits.
    method Predecode(address: nat, insnByte: seq<Byte>, excp: Option<Fault>)
        returns (insnPkg: seq<Fetched>, faulting: Option<(nat, Fault)>, needRedirect: bool)
      requires Valid()
      requires excp.None? ==> |insnByte| == fetchByteWidth && address % 2 == 0
      requires excp.None? && misalignValid ==> OffsetIn(address, fetchByteWidth) == 0 && address >= 2
      modifies this
      ensures Valid() && waitForResume == (excp.Some? || old(waitForResume))
      ensures excp.Some? ==> faulting == Some((address, excp.value)) && insnPkg == [] && !needRedirect
      ensures excp.Some? ==> Carried() == old(Carried())
      ensures excp.None? ==>
        var b := old(Carried()) + insnByte[OffsetIn(address, fetchByteWidth)..];
        var p := Parse(b, address - |old(Carried())|);
        faulting == None && insnPkg == p.out && needRedirect == p.cut && (!needRedirect ==> Carried() == p.rest)
    {
      hide Parse, OffsetIn, Carry;
      if excp.Some? {
        waitForResume := true;
        return [], Some((address, excp.value)), false;
      }
      insnPkg, needRedirect := PredecodeBlock(address, insnByte);
      faulting := None;
    }

    // Splits one fetched block, from the offset of its address on. Without a redirect the
    // instructions are those of the carried half followed by the block, and what they leave is
    // carried on; numByte never runs below zero.
    method PredecodeBlock(address: nat, insnByte: seq<Byte>) returns (insnPkg: seq<Fetched>, needRedirect: bool)
      requires Valid() && |insnByte| == fetchByteWidth && address % 2 == 0
      requires misalignValid ==> OffsetIn(address, fetchByteWidth) == 0 && address >= 2
      modifies this`misalignValid, this`misalignHalf
      ensures Valid()
      ensures var b := old(Carried()) + insnByte[OffsetIn(address, fetchByteWidth)..];
        var p := Parse(b, address - |old(Carried())|);
        insnPkg == p.out && needRedirect == p.cut && (!needRedirect ==> Carried() == p.rest)
    {
      hide OffsetIn, Parse, Aligned, Carry;
      var offset := OffsetIn(address, fetchByteWidth);
      EvenOffset(address, fetchByteWidth);
      AlignedStart(insnByte, offset, misalignValid, misalignHalf);
      ghost var b := Carried() + insnByte[offset..];
      insnPkg, needRedirect := Split(address, offset, insnByte, b, |b| / 2);
    }

    // One complete instruction at dataPtr.
    method TakeInsn(insnByte: seq<Byte>, dataPtr: nat, npc: nat, ghost b: seq<Byte>, ghost done: nat) returns (f: Fetched)
      requires HalfOk() && Aligned(b, done, insnByte, dataPtr, misalignValid, misalignHalf)
      requires done + 2 <= |b| && (misalignValid || !Long(b[done]) || done + 4 <= |b|)
      ensures First(b[done..], npc) == Some(f) && (misalignValid ==> !f.isRvc) && (f.isRvc || done + 4 <= |b|)
    {
      hide First, Long, Word;
      AlignedFacts(b, done, insnByte, dataPtr, misalignValid, misalignHalf);
      var isRvc := if misalignValid then false else !Long(insnByte[dataPtr]);
      var word := if misalignValid then Half(insnByte, dataPtr) * 65536 + misalignHalf
                  else if isRvc then Half(insnByte, dataPtr) else Word(insnByte, dataPtr);
      f := Fetched(npc, word, isRvc);
      FirstIs(b, done, npc, isRvc, word, insnByte, dataPtr, misalignValid);
    }

    // The loop of Predecode over the stream b.
    method Split(address: nat, offset: nat, insnByte: seq<Byte>, ghost b: seq<Byte>, ghost count: nat)
        returns (insnPkg: seq<Fetched>, needRedirect: bool)
      requires HalfOk() && offset < |insnByte| && |b| == 2 * count && (misalignValid ==> address >= 2)
      requires Aligned(b, 0, insnByte, offset, misalignValid, misalignHalf)
      modifies this`misalignValid, this`misalignHalf
      ensures HalfOk()
      ensures var p := Parse(b, address - if old(misalignValid) then 2 else 0);
        insnPkg == p.out && needRedirect == p.cut && (!needRedirect ==> Carried() == p.rest)
    {
      hide Parse, First, Redirects, Progress, Half, Carry, Long, Aligned, Word;
      AlignedFacts(b, 0, insnByte, offset, misalignValid, misalignHalf);
      insnPkg, needRedirect := [], false;
      var dataPtr: nat := offset;
      var numByte: nat := |insnByte| - offset + if misalignValid then 2 else 0;
      var npc := address - if misalignValid then 2 else 0;
      ghost var pc, done: nat, halves: nat := npc, 0, count;
      ProgressStart(b, pc);
      while numByte != 0
        invariant !needRedirect && HalfOk() && numByte == 2 * halves && numByte + done == |b| && npc == pc + done
        invariant Progress(b, pc, insnPkg, done) && Aligned(b, done, insnByte, dataPtr, misalignValid, misalignHalf)
        decreases numByte
      {
        AlignedFacts(b, done, insnByte, dataPtr, misalignValid, misalignHalf);
        if numByte == 2 && Long(insnByte[dataPtr]) {
          misalignValid := true;
          misalignHalf := Half(insnByte, dataPtr);
          ProgressEnd(b, pc, insnPkg, done);
          return;
        }
        var f := TakeInsn(insnByte, dataPtr, npc, b, done);
        needRedirect := Redirects(f.word);
        ProgressStep(b, pc, insnPkg, done, f);
        insnPkg := insnPkg + [f];
        if needRedirect {
          return;
        }
        AlignedStep(b, done, insnByte, dataPtr, misalignValid, misalignHalf, Size(f));
        done, halves := done + Size(f), halves - if f.isRvc then 1 else 2;
        numByte := numByte - Size(f);
        dataPtr := dataPtr + if misalignValid then 2 else Size(f);
        npc := npc + Size(f);
        misalignValid := false;
      }
      ProgressEnd(b, pc, insnPkg, done);
      AlignedFacts(b, done, insnByte, dataPtr, misalignValid, misalignHalf);
      assert Carried() == b[done..];
    }

    // The rule of GenNextFetchAddress: on to the next block.
    function NextAddress(address: nat): nat
      requires fetchByteWidth > 0
    { Next(address, fetchByteWidth) }

    // Fetch after fetch without a redirect from outside: what the stage sends on is the stream.
    method FetchBlocks(mem: nat -> Byte, bootAddress: nat, k: nat) returns (insnPkg: seq<Fetched>, needRedirect: bool)
      requires Valid() && !misalignValid && bootAddress % 2 == 0
      modifies this
      ensures Valid()
      ensures var s := Blocks(mem, fetchByteWidth, bootAddress, k);
        insnPkg == s.out && needRedirect == s.cut && (!needRedirect ==> Carried() == s.carry)
    {
      hide Parse, OffsetIn, Next, Bytes, NextBlock;
      insnPkg, needRedirect := [], false;
      var address := bootAddress;
      for i := 0 to k
        invariant Valid() && address % 2 == 0
        invariant var s := Blocks(mem, fetchByteWidth, bootAddress, i);
          && insnPkg == s.out && needRedirect == s.cut && (!needRedirect ==> Carried() == s.carry && address == s.address)
      {
        ghost var s := Blocks(mem, fetchByteWidth, bootAddress, i);
        NextStream(mem, fetchByteWidth, s);
        if !needRedirect {
          var offset, next := OffsetIn(address, fetchByteWidth), NextAddress(address);
          CarryMeetsAWholeBlock(mem, fetchByteWidth, bootAddress, i);
          BlockTail(mem, address, fetchByteWidth);
          EvenOffset(address, fetchByteWidth);
          var block := Bytes(mem, address - offset, address - offset + fetchByteWidth);
          var insns;
          insns, needRedirect := PredecodeBlock(address, block);
          insnPkg := insnPkg + insns;
          address := next;
        }
      }
    }
  }

  // ---- any number of blocks --------------------------------------------------------------------

  function Next(address: nat, width: nat): (next: nat)
    requires width > 0
    ensures next > address
  { address - OffsetIn(address, width) + width }

  function Bytes(mem: nat -> Byte, lo: nat, hi: nat): (b: seq<Byte>)
    requires lo <= hi
    ensures |b| == hi - lo && forall i :: 0 <= i < |b| ==> b[i] == mem(lo + i)
  { seq(hi - lo, i requires 0 <= i => mem(lo + i)) }

  datatype Stream = Stream(address: nat, carry: seq<Byte>, out: seq<Fetched>, cut: bool)

  // One more block.
  function NextBlock(mem: nat -> Byte, width: nat, s: Stream): (s': Stream)
    requires width > 0 && |s.carry| <= s.address
    ensures s.address <= s'.address && |s'.carry| <= |s.carry| + s'.address - s.address
  {
    if s.cut then s
    else
      var next := Next(s.address, width);
      var p := Parse(s.carry + Bytes(mem, s.address, next), s.address - |s.carry|);
      Stream(next, if p.cut then [] else p.rest, s.out + p.out, p.cut)
  }

  // Fetching and splitting k contiguous blocks from address a0 on, stopping at a redirect.
  // Fetch1.FetchBlocks does this with Fetch1.PredecodeBlock.
  function Blocks(mem: nat -> Byte, width: nat, a0: nat, k: nat): (s: Stream)
    requires width > 0
    ensures s.address >= a0 && |s.carry| <= s.address - a0
  {
    if k == 0 then Stream(a0, [], [], false) else NextBlock(mem, width, Blocks(mem, width, a0, k - 1))
  }

  lemma NextStream(mem: nat -> Byte, width: nat, s: Stream)
    requires width > 0 && |s.carry| <= s.address
    ensures var next := Next(s.address, width);
      var p := Parse(s.carry + Bytes(mem, s.address, next), s.address - |s.carry|);
      NextBlock(mem, width, s) == if s.cut then s else Stream(next, if p.cut then [] else p.rest, s.out + p.out, p.cut)
  {
  }

  // What a fetch request returns, from the offset of the address on.
  lemma BlockTail(mem: nat -> Byte, address: nat, width: nat)
    requires width > 0
    ensures var offset, next := OffsetIn(address, width), Next(address, width);
      && offset <= address && next == address - offset + width
      && Bytes(mem, address - offset, address - offset + width)[offset..] == Bytes(mem, address, next)
  {
    var offset, next := OffsetIn(address, width), Next(address, width);
    OffsetBelow(address, width);
    hide OffsetIn;
    TailOfBytes(mem, address - offset, next, offset);
  }

  lemma OffsetBelow(address: nat, width: nat)
    requires width > 0
    ensures OffsetIn(address, width) <= address && Next(address, width) == address - OffsetIn(address, width) + width
  {
  }

  lemma TailOfBytes(mem: nat -> Byte, lo: nat, hi: nat, offset: nat)
    requires lo + offset <= hi
    ensures Bytes(mem, lo, hi)[offset..] == Bytes(mem, lo + offset, hi)
  {
  }

  lemma BytesJoin(mem: nat -> Byte, lo: nat, mid: nat, hi: nat)
    requires lo <= mid <= hi
    ensures Bytes(mem, lo, hi) == Bytes(mem, lo, mid) + Bytes(mem, mid, hi)
  {
  }

  // The stream so far is the parse of the bytes so far.
  predicate IsParse(s: Stream, bytes: seq<Byte>, a0: nat) {
    var p := Parse(bytes, a0);
    s.out == p.out && s.cut == p.cut && (!s.cut ==> s.carry == p.rest)
  }

  lemma NextBlockIsParse(mem: nat -> Byte, width: nat, a0: nat, s: Stream)
    requires width > 0 && a0 <= s.address && |s.carry| <= s.address - a0 && !s.cut
    requires IsParse(s, Bytes(mem, a0, s.address), a0)
    ensures IsParse(NextBlock(mem, width, s), Bytes(mem, a0, NextBlock(mem, width, s).address), a0)
  {
    hide Parse, Next, OffsetIn;
    var s' := NextBlock(mem, width, s);
    BytesJoin(mem, a0, s.address, s'.address);
    ParseAppend(Bytes(mem, a0, s.address), Bytes(mem, s.address, s'.address), a0);
  }

  // For any number of blocks the output is that of parsing the joined bytes at once, and,
  // without a redirect, what is carried is exactly what that parse leaves.
  lemma {:induction false} StreamIsOneShotParse(mem: nat -> Byte, width: nat, a0: nat, k: nat)
    requires width > 0
    ensures var s := Blocks(mem, width, a0, k); IsParse(s, Bytes(mem, a0, s.address), a0)
    decreases k
  {
    if k == 0 {
      assert Bytes(mem, a0, a0) == [];
    } else {
      hide Parse, IsParse, Next, OffsetIn;
      StreamIsOneShotParse(mem, width, a0, k - 1);
      var s := Blocks(mem, width, a0, k - 1);
      if !s.cut {
        NextBlockIsParse(mem, width, a0, s);
      }
    }
  }

  // So the output of any number of blocks is the split of their bytes: joined, the instructions
  // and what is carried are the bytes fetched so far.
  lemma StreamIsTheSplit(mem: nat -> Byte, width: nat, a0: nat, k: nat)
    requires width > 0 && width % 2 == 0 && a0 % 2 == 0
    ensures var s := Blocks(mem, width, a0, k);
      && Consecutive(s.out, a0, s.cut)
      && (!s.cut ==> Joined(s.out) + s.carry == Bytes(mem, a0, s.address)
                     && (s.carry == [] || (|s.carry| == 2 && s.carry[0] % 4 == 3)))
      && (s.cut ==> Joined(s.out) <= Bytes(mem, a0, s.address))
  {
    hide Parse, Blocks, Consecutive, Joined;
    StreamIsOneShotParse(mem, width, a0, k);
    EvenAddress(mem, width, a0, k);
    ParseIsTheSplit(Bytes(mem, a0, Blocks(mem, width, a0, k).address), a0);
  }

  lemma {:induction false} EvenAddress(mem: nat -> Byte, width: nat, a0: nat, k: nat)
    requires width > 0 && width % 2 == 0 && a0 % 2 == 0
    ensures Blocks(mem, width, a0, k).address % 2 == 0
    decreases k
  {
    hide Parse, OffsetIn;
    if k > 0 {
      var s := Blocks(mem, width, a0, k - 1);
      hide Blocks;
      EvenAddress(mem, width, a0, k - 1);
      EvenOffset(s.address, width);
    }
  }

  // A carried half always meets a block fetched from its start, as the stage asserts.
  lemma {:induction false} CarryMeetsAWholeBlock(mem: nat -> Byte, width: nat, a0: nat, k: nat)
    requires width > 0
    ensures var s := Blocks(mem, width, a0, k); s.carry != [] ==> OffsetIn(s.address, width) == 0
    decreases k
  {
    if k > 0 {
      hide Parse, IsParse;
      CarryMeetsAWholeBlock(mem, width, a0, k - 1);
      NextIsAligned(Blocks(mem, width, a0, k - 1).address, width);
    }
  }

  lemma NextIsAligned(address: nat, width: nat)
    requires width > 0
    ensures OffsetIn(Next(address, width), width) == 0
  {
    var q := address / width;
    assert Next(address, width) == width * q + width == width * (q + 1);
    DivUnique(width * (q + 1), width, q + 1, 0);
  }

  // After a redirect nothing that follows in memory changes the output.
  lemma RedirectCutsTheStream(mem: nat -> Byte, width: nat, a0: nat, k: nat, hi: nat)
    requires width > 0 && Blocks(mem, width, a0, k).cut && hi >= Blocks(mem, width, a0, k).address
    ensures Parse(Bytes(mem, a0, hi), a0).out == Blocks(mem, width, a0, k).out
  {
    hide Parse, Blocks;
    StreamIsOneShotParse(mem, width, a0, k);
    var mid := Blocks(mem, width, a0, k).address;
    BytesJoin(mem, a0, mid, hi);
    CutStays(Bytes(mem, a0, mid), Bytes(mem, mid, hi), a0);
  }

  // A block starts at a multiple of its width, and the next one is the first after the address.
  lemma BlocksAreAligned(address: nat, width: nat)
    requires width > 0
    ensures OffsetIn(address, width) < width && OffsetIn(address, width) <= address
    ensures (address - OffsetIn(address, width)) % width == 0
    ensures Next(address, width) % width == 0 && address < Next(address, width) <= address + width
  {
    NextIsAligned(address, width);
    var q := address / width;
    assert address - OffsetIn(address, width) == width * q;
    DivUnique(width * q, width, q, 0);
  }

  lemma EvenOffset(address: nat, width: nat)
    requires width > 0 && width % 2 == 0 && address % 2 == 0
    ensures OffsetIn(address, width) % 2 == 0
  {
    var q := address / width;
    assert address == width * q + address % width;
    assert width * q == 2 * (width / 2 * q);
  }

  lemma HalfBytes(lo: Byte, hi: Byte)
    ensures (lo + 256 * hi) % 256 == lo && (lo + 256 * hi) / 256 == hi
    ensures (lo + 256 * hi) % 4 == lo % 4 && lo + 256 * hi < 65536
  {
  }
}
