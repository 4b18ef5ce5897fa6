/** The system-register hook of xnu-kvm-lkm/xnu-kvm.c over the accessors of xnu-kvm.h. Words
    are unsigned integers; shifts and masks are divisions and remainders by powers of two. */
module SysRegs {

  import opened Common

  const SLOTS: nat := 12
  const GUEST_REGS: nat := 31
  const SPSR_SS: nat := 0x20_0000

  // ----- Decoding the syndrome -----

  /** "ISS encoding for an exception from MSR, MRS, or System instruction execution in
      AArch64 state" (Arm ARM, DDI 0487): Op0 [21:20], Op2 [19:17], Op1 [16:14], CRn [13:10],
      Rt [9:5], CRm [4:1], and direction [0], which is 1 for a read. */
  datatype Iss = Iss(op0: nat, op1: nat, crn: nat, crm: nat, op2: nat, rt: nat, isWrite: bool)

  predicate ValidIss(i: Iss) {
    i.op0 < 4 && i.op1 < 8 && i.crn < 16 && i.crm < 16 && i.op2 < 8 && i.rt < 32
  }

  /** The fields as the hook extracts them. */
  function Decode(esr: u32): (i: Iss)
    ensures ValidIss(i)
  {
    Iss(esr / 0x10_0000 % 4, esr / 0x4000 % 8, esr / 0x400 % 16, esr / 2 % 16,
        esr / 0x2_0000 % 8, esr / 0x20 % 32, esr % 2 == 0)
  }

  /** The syndrome with the given fields; `upper` are bits 31 to 22. */
  function Encode(upper: nat, i: Iss): (esr: u32)
    requires upper < 0x400 && ValidIss(i)
  {
    ((((((upper * 4 + i.op0) * 8 + i.op2) * 8 + i.op1) * 16 + i.crn) * 32 + i.rt) * 16 + i.crm) * 2
    + (if i.isWrite then 0 else 1)
  }

  /** The hook reads every field where the architecture puts it. */
  lemma {:induction false} DecodeInvertsEncode(upper: nat, i: Iss)
    requires upper < 0x400 && ValidIss(i)
    ensures Decode(Encode(upper, i)) == i
    ensures Encode(upper, i) == upper * 0x40_0000 + i.op0 * 0x10_0000 + i.op2 * 0x2_0000 + i.op1 * 0x4000
                                + i.crn * 0x400 + i.rt * 0x20 + i.crm * 2 + (if i.isWrite then 0 else 1)
  {
    var esr := Encode(upper, i);
    var dir := if i.isWrite then 0 else 1;
    var low1 := i.crm * 2 + dir;
    var low2 := i.rt * 0x20 + low1;
    var low3 := i.crn * 0x400 + low2;
    var low4 := i.op1 * 0x4000 + low3;
    var low5 := i.op2 * 0x2_0000 + low4;
    var top1 := upper * 4 + i.op0;
    var top2 := top1 * 8 + i.op2;
    var top3 := top2 * 8 + i.op1;
    var top4 := top3 * 16 + i.crn;
    var top5 := top4 * 32 + i.rt;
    Unpack(esr, upper, i.op0, 4, low5, 0x10_0000);
    Unpack(esr, top1, i.op2, 8, low4, 0x2_0000);
    Unpack(esr, top2, i.op1, 8, low3, 0x4000);
    Unpack(esr, top3, i.crn, 16, low2, 0x400);
    Unpack(esr, top4, i.rt, 32, low1, 0x20);
    Unpack(esr, top5, i.crm, 16, dir, 2);
    Unpack(esr, top5 * 16 + i.crm, dir, 2, 0, 1);
  }

  // ----- The bank -----

  /** A register is named by Op1 and CRm. */
  type Key = (nat, nat)

  /** The slot of custom_cpregs for a register; none for registers left to KVM. */
  function Slot(k: Key): (s: Option<nat>)
    ensures s.Some? ==> s.value < SLOTS
  {
    match k.0
    case 0 =>
      if k.1 == 3 then Some(0)
      else if k.1 == 4 then Some(1)
      else if k.1 == 5 then Some(2)
      else if k.1 == 7 then Some(3)
      else if k.1 == 8 then Some(4)
      else if k.1 == 13 then Some(5)
      else None
    case 1 =>
      if k.1 == 0 then Some(6)
      else if k.1 == 1 then Some(7)
      else if k.1 == 13 then Some(8)
      else None
    case 2 =>
      if k.1 == 0 then Some(9)
      else if k.1 == 1 then Some(10)
      else None
    case 3 => if k.1 == 0 then Some(11) else None
    case _ => None
  }

  /** The twelve registers, in the order of their slots. */
  const SERVED: seq<Key> :=
    [(0, 3), (0, 4), (0, 5), (0, 7), (0, 8), (0, 13), (1, 0), (1, 1), (1, 13), (2, 0), (2, 1), (3, 0)]

  /** Registers and slots correspond one to one. */
  lemma SlotsAreABijection(k: Key, s: nat)
    requires s < SLOTS
    ensures Slot(k) == Some(s) <==> k == SERVED[s]
  {
  }

  lemma ServedHaveSlots(k: Key)
    ensures Slot(k).Some? <==> k in SERVED
    ensures Slot(k).Some? <==>
            || (k.0 == 0 && (k.1 == 3 || k.1 == 4 || k.1 == 5 || k.1 == 7 || k.1 == 8 || k.1 == 13))
            || (k.0 == 1 && (k.1 == 0 || k.1 == 1 || k.1 == 13))
            || (k.0 == 2 && (k.1 == 0 || k.1 == 1))
            || (k.0 == 3 && k.1 == 0)
  {
    if Slot(k).Some? {
      SlotsAreABijection(k, Slot(k).value);
      assert SERVED[Slot(k).value] == k;
    }
    if s :| 0 <= s < SLOTS && SERVED[s] == k {
      SlotsAreABijection(k, s);
    }
  }

  /** The register of a trapped access that the hook serves itself. */
  function Served(esr: u32): Option<Key> {
    var i := Decode(esr);
    if i.op0 == 3 && i.crn == 15 && Slot((i.op1, i.crm)).Some? then Some((i.op1, i.crm)) else None
  }

  // ----- What one trap does, on values -----

  datatype Cpu = Cpu(regs: seq<u64>, pc: u64, pstate: u64, bank: seq<u64>)

  predicate ValidCpu(c: Cpu) {
    |c.regs| == GUEST_REGS && |c.bank| == SLOTS
  }

  /** Register 31 reads as zero. */
  function ReadReg(regs: seq<u64>, r: nat): u64
    requires |regs| == GUEST_REGS && r < 32
  {
    if r == 31 then 0 else regs[r]
  }

  /** Register 31 discards writes. */
  function WriteReg(regs: seq<u64>, r: nat, v: u64): (regs': seq<u64>)
    requires |regs| == GUEST_REGS && r < 32
    ensures |regs'| == GUEST_REGS
  {
    if r == 31 then regs else regs[r := v]
  }

  /** What a register reads as after a write: the value in the register written, 0 in
      register 31 whatever is written there, and what it read as before in all others. */
  lemma ReadAfterWrite(regs: seq<u64>, w: nat, v: u64, r: nat)
    requires |regs| == GUEST_REGS && w < 32 && r < 32
    ensures r == w != 31 ==> ReadReg(WriteReg(regs, w, v), r) == v
    ensures r == 31 ==> ReadReg(WriteReg(regs, w, v), r) == 0
    ensures r != w ==> ReadReg(WriteReg(regs, w, v), r) == ReadReg(regs, r)
  {
  }

  function ClearStep(pstate: u64): (p: u64)
    ensures p / SPSR_SS % 2 == 0
    ensures p % SPSR_SS == pstate % SPSR_SS && p / (2 * SPSR_SS) == pstate / (2 * SPSR_SS)
  {
    pstate - pstate / SPSR_SS % 2 * SPSR_SS
  }

  function Advance(c: Cpu): Cpu {
    c.(pc := (c.pc + 4) % U64, pstate := ClearStep(c.pstate))
  }

  /** The state after a trap; an access that is not served leaves it to the original handler. */
  function Trap(c: Cpu, esr: u32): (r: Cpu)
    requires ValidCpu(c)
    ensures ValidCpu(r)
  {
    match Served(esr)
    case None => c
    case Some(key) =>
      var i := Decode(esr);
      var slot := Slot(key).value;
      if i.isWrite then Advance(c.(bank := c.bank[slot := ReadReg(c.regs, i.rt)]))
      else Advance(c.(regs := WriteReg(c.regs, i.rt, c.bank[slot])))
  }

  /** A trap is served when it is an access to S3_op1_C15_Cm_op2 for one of the twelve. */
  lemma ServedExactly(esr: u32, slot: nat)
    requires slot < 12
    ensures Served(esr) == Some(SERVED[slot]) && Slot(SERVED[slot]) == Some(slot) <==>
            esr / 0x10_0000 % 4 == 3 && esr / 0x400 % 16 == 15 && (esr / 0x4000 % 8, esr / 2 % 16) == SERVED[slot]
    ensures Served(esr).Some? ==> Served(esr).value == (esr / 0x4000 % 8, esr / 2 % 16)
    ensures var op1, crm := esr / 0x4000 % 8, esr / 2 % 16;
            Served(esr).Some? <==>
            && esr / 0x10_0000 % 4 == 3 && esr / 0x400 % 16 == 15
            && (|| (op1 == 0 && (crm == 3 || crm == 4 || crm == 5 || crm == 7 || crm == 8 || crm == 13))
                || (op1 == 1 && (crm == 0 || crm == 1 || crm == 13))
                || (op1 == 2 && (crm == 0 || crm == 1))
                || (op1 == 3 && crm == 0))
  {
    var key := (esr / 0x4000 % 8, esr / 2 % 16);
    SlotsAreABijection(key, slot);
    SlotsAreABijection(SERVED[slot], slot);
    ServedHaveSlots(key);
    hide Slot, SERVED;
  }

  // ----- The hook itself -----

  class Vcpu {
    const regs: array<u64>
    var pc: u64
    var pstate: u64
    var esr: u32

    constructor (esr: u32)
      ensures regs.Length == GUEST_REGS && fresh(regs) && this.esr == esr
    {
      regs := new u64[GUEST_REGS](_ => 0);
      pc, pstate, this.esr := 0, 0, esr;
    }

    method GetReg(r: nat) returns (v: u64)
      requires r < 32 && regs.Length == GUEST_REGS
      ensures v == ReadReg(regs[..], r)
    {
      v := if r == 31 then 0 else regs[r];
    }

    method SetReg(r: nat, v: u64)
      requires r < 32 && regs.Length == GUEST_REGS
      modifies regs
      ensures regs[..] == WriteReg(old(regs[..]), r, v)
    {
      if r != 31 {
        regs[r] := v;
      }
    }
  }

  class Hook {
    const customCpregs: array<u64>

    constructor ()
      ensures customCpregs.Length == SLOTS && fresh(customCpregs)
      ensures customCpregs[..] == seq(SLOTS, _ => 0)
    {
      customCpregs := new u64[SLOTS](_ => 0);
    }

    /** The value of the hook's and the guest's state. */
    function State(vcpu: Vcpu): Cpu
      reads this, customCpregs, vcpu, vcpu.regs
    {
      Cpu(vcpu.regs[..], vcpu.pc, vcpu.pstate, customCpregs[..])
    }

    /** `handled` is the return value 1; otherwise the original handler is called. */
    method HandleSysReg(vcpu: Vcpu) returns (handled: bool)
      requires ValidCpu(State(vcpu)) && vcpu.regs != customCpregs
      modifies vcpu`pc, vcpu`pstate, vcpu.regs, customCpregs
      ensures State(vcpu) == Trap(old(State(vcpu)), vcpu.esr)
      ensures var op1, crm := vcpu.esr / 0x4000 % 8, vcpu.esr / 2 % 16;
              handled <==>
              && vcpu.esr / 0x10_0000 % 4 == 3 && vcpu.esr / 0x400 % 16 == 15
              && (|| (op1 == 0 && (crm == 3 || crm == 4 || crm == 5 || crm == 7 || crm == 8 || crm == 13))
                  || (op1 == 1 && (crm == 0 || crm == 1 || crm == 13))
                  || (op1 == 2 && (crm == 0 || crm == 1))
                  || (op1 == 3 && crm == 0))
      ensures !handled ==> State(vcpu) == old(State(vcpu))
      ensures handled ==> vcpu.pc == (old(vcpu.pc) + 4) % 0x1_0000_0000_0000_0000
      ensures handled ==> && vcpu.pstate / 0x20_0000 % 2 == 0
                          && vcpu.pstate % 0x20_0000 == old(vcpu.pstate) % 0x20_0000
                          && vcpu.pstate / 0x40_0000 == old(vcpu.pstate) / 0x40_0000
      ensures handled && vcpu.esr % 2 == 0 ==> vcpu.regs[..] == old(vcpu.regs[..])
      ensures handled && vcpu.esr % 2 == 1 ==> customCpregs[..] == old(customCpregs[..])
      ensures forall slot :: 0 <= slot < 12 && handled && SERVED[slot] == (vcpu.esr / 0x4000 % 8, vcpu.esr / 2 % 16) ==>
                var rt := vcpu.esr / 0x20 % 32;
                && (vcpu.esr % 2 == 0 ==>
                      customCpregs[..] == old(customCpregs[..])[slot := if rt == 31 then 0 else old(vcpu.regs[..])[rt]])
                && (vcpu.esr % 2 == 1 ==>
                      vcpu.regs[..] == if rt == 31 then old(vcpu.regs[..])
                                       else old(vcpu.regs[..])[rt := old(customCpregs[..])[slot]])
    {
      forall slot: nat | slot < 12
        ensures Slot(SERVED[slot]) == Some(slot)
      {
        SlotsAreABijection(SERVED[slot], slot);
      }
      ServedExactly(vcpu.esr, 0);
      hide Slot, SERVED;
      var params := Decode(vcpu.esr);
      var regval := vcpu.GetReg(params.rt);
      if params.op0 != 3 || params.crn != 15 {
        return false;
      }
      var storage := Slot((params.op1, params.crm));
      if storage.None? {
        return false;
      }
      if !params.isWrite {
        vcpu.SetReg(params.rt, customCpregs[storage.value]);
      } else {
        customCpregs[storage.value] := regval;
      }
      vcpu.pc := (vcpu.pc + 4) % U64;
      vcpu.pstate := ClearStep(vcpu.pstate);
      handled := true;
    }
  }

  // ----- Any sequence of traps -----

  /** Between traps the guest runs: its registers change as they like, the bank does not. */
  datatype Event = Trapped(esr: u32) | GuestRan(regs: seq<u64>, pc: u64, pstate: u64)

  predicate ValidEvents(es: seq<Event>) {
    forall k :: 0 <= k < |es| && es[k].GuestRan? ==> |es[k].regs| == GUEST_REGS
  }

  function Run(start: Cpu, es: seq<Event>): (c: Cpu)
    requires ValidCpu(start) && ValidEvents(es)
    ensures ValidCpu(c)
    decreases |es|
  {
    if es == [] then start
    else
      var c := Run(start, es[..|es| - 1]);
      match es[|es| - 1]
      case Trapped(esr) => Trap(c, esr)
      case GuestRan(regs, pc, pstate) => Cpu(regs, pc, pstate, c.bank)
  }

  /** The value that the last trapped write to a register carried, 0 before the first. It
      speaks of the guest's registers only, not of the bank. */
  function LastWritten(start: Cpu, es: seq<Event>, key: Key): u64
    requires ValidCpu(start) && ValidEvents(es)
    decreases |es|
  {
    if es == [] then 0
    else
      var before := es[..|es| - 1];
      match es[|es| - 1]
      case Trapped(esr) =>
        if Served(esr) == Some(key) && Decode(esr).isWrite
        then ReadReg(Run(start, before).regs, Decode(esr).rt)
        else LastWritten(start, before, key)
      case GuestRan(_, _, _) => LastWritten(start, before, key)
  }

  lemma OtherSlots(a: Key, b: Key)
    requires Slot(a).Some? && Slot(b).Some? && a != b
    ensures Slot(a).value != Slot(b).value
  {
    SlotsAreABijection(a, Slot(a).value);
    SlotsAreABijection(b, Slot(a).value);
  }

  /** The bank is a map from registers to the last values written. */
  lemma {:induction false} BankHoldsLastWritten(start: Cpu, es: seq<Event>, key: Key)
    requires ValidCpu(start) && start.bank == seq(SLOTS, _ => 0) && ValidEvents(es)
    requires Slot(key).Some?
    ensures Run(start, es).bank[Slot(key).value] == LastWritten(start, es, key)
    decreases |es|
  {
    hide Decode, Slot;
    if es != [] {
      BankHoldsLastWritten(start, es[..|es| - 1], key);
      var e := es[|es| - 1];
      if e.Trapped? && Served(e.esr).Some? && Served(e.esr).value != key {
        OtherSlots(Served(e.esr).value, key);
      }
    }
  }

  /** A served read delivers the last value written to its register, whatever happened in
      between; into register 31 it delivers nothing. */
  lemma {:induction false} ReadReturnsLastWritten(start: Cpu, es: seq<Event>, esr: u32)
    requires ValidCpu(start) && start.bank == seq(SLOTS, _ => 0) && ValidEvents(es)
    requires Served(esr).Some? && !Decode(esr).isWrite
    ensures var c, c' := Run(start, es), Trap(Run(start, es), esr);
            && (Decode(esr).rt != 31 ==>
                  c'.regs == c.regs[Decode(esr).rt := LastWritten(start, es, Served(esr).value)])
            && (Decode(esr).rt == 31 ==> c'.regs == c.regs)
            && c'.bank == c.bank && c'.pc == (c.pc + 4) % U64
            && c'.pstate / SPSR_SS % 2 == 0
            && c'.pstate % SPSR_SS == c.pstate % SPSR_SS
            && c'.pstate / (2 * SPSR_SS) == c.pstate / (2 * SPSR_SS)
  {
    BankHoldsLastWritten(start, es, Served(esr).value);
  }

  /** Op2 takes no part: registers that differ only in Op2 share a slot. */
  lemma {:induction false} Op2IsIgnored(c: Cpu, upper: nat, i: Iss, op2: nat)
    requires ValidCpu(c) && upper < 0x400 && ValidIss(i) && op2 < 8
    ensures Trap(c, Encode(upper, i)) == Trap(c, Encode(upper, i.(op2 := op2)))
  {
    DecodeInvertsEncode(upper, i);
    DecodeInvertsEncode(upper, i.(op2 := op2));
    hide Decode, Encode, Slot;
  }
}
