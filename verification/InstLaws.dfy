/** What each instruction does, in terms of program counters, register values and
    memory bytes (nub-exec `interp.rs`), and that the operands the gas model
    tracks are the ones the interpreter uses (`gas_cost.rs`). */
module InstLaws {
  import opened Prelude
  import opened Encoding
  import opened LittleEndian
  import opened Isa
  import opened GasCost
  import opened Predecode
  import opened Interp
  import FM = FlatMemory

  // ---- Registers ------------------------------------------------------------

  /** The register file: `x0` and `x16..x31` read as zero and drop what is
      written; the others hold the last value written, each on its own. */
  lemma RegistersHold(g: Gpr, x: nat, v: u64, y: nat)
    requires x < 32 && y < 32
    ensures RegRead(RegWrite(g, x, v), y) == if 1 <= x == y <= 15 then v else RegRead(g, y)
    ensures !(1 <= y <= 15) ==> RegRead(g, y) == 0
  {
    if Slot(x) == Slot(y) < 15 {
      SlotInjective(x, y);
    }
  }

  /** Every place of the register file is one register. */
  lemma RegistersCover(g: Gpr, h: Gpr)
    requires forall x :: 1 <= x <= 15 ==> RegRead(g, x) == RegRead(h, x)
    ensures g == h
  {
    assert forall x :: 1 <= x <= 2 ==> RegRead(g, x) == g[x - 1] && RegRead(h, x) == h[x - 1];
    assert forall x :: 3 <= x <= 4 ==> RegRead(g, x) == g[x + 10] && RegRead(h, x) == h[x + 10];
    assert forall x :: 5 <= x <= 15 ==> RegRead(g, x) == g[x - 3] && RegRead(h, x) == h[x - 3];
    forall s | 0 <= s < 15 ensures g[s] == h[s] {
      var x := if s < 2 then s + 1 else if s < 13 then s + 3 else s - 10;
      assert RegRead(g, x) == RegRead(h, x);
    }
  }

  /** `h` is `g` with `v` in register `x`. */
  predicate Wrote(g: Gpr, h: Gpr, x: nat, v: u64) {
    forall y :: 1 <= y <= 15 ==> RegRead(h, y) == if y == x % 32 then v else RegRead(g, y)
  }

  lemma RegisterField(g: Gpr, x: nat, v: u64)
    ensures RegWrite(g, x, v) == RegWrite(g, x % 32, v)
  {
  }

  lemma WriteWrote(g: Gpr, x: nat, v: u64)
    ensures Wrote(g, RegWrite(g, x, v), x, v)
  {
    hide RegRead, RegWrite;
    RegisterField(g, x, v);
    forall y | 1 <= y <= 15 ensures RegRead(RegWrite(g, x, v), y) == if y == x % 32 then v else RegRead(g, y) {
      RegistersHold(g, x % 32, v, y);
    }
  }

  /** The registers an instruction leaves. */
  function GprAfter<H>(e: Effect<H>): Gpr {
    match e
    case Go(_, g, _, _, _) => g
    case Done(_, regs, _, _, _) => regs.gpr
  }

  // ---- Control flow ---------------------------------------------------------

  predicate BlockStart(insts: seq<Entry>, pc: nat) {
    exists j :: 0 <= j < |insts| && insts[j].pc == pc && insts[j].start
  }

  /** Control arrives at `target` with `g` if a block starts there, and panics at
      the jump otherwise. */
  ghost predicate Arrives<H>(m: Machine<H>, idx: nat, e: Effect<H>, target: u32, g: Gpr, mem: GoodMem, host: H)
    requires idx < |m.p.insts|
  {
    if BlockStart(m.p.insts, target) then
      && e.Go? && e == Go(e.idx, g, mem, host, 0)
      && e.idx < |m.p.insts| && m.p.insts[e.idx].pc == target && m.p.insts[e.idx].start
    else e == Done(Panic, Regs(g, m.p.insts[idx].pc), mem, host, 0)
  }

  lemma JumpArrives<H>(m: Machine<H>, idx: nat, target: u32, g: Gpr, mem: GoodMem, host: H)
    requires Contiguous(m.p.insts) && idx < |m.p.insts|
    ensures Arrives(m, idx, Jump(m, idx, target, g, mem, host), target, g, mem, host)
  {
    hide Contiguous, Find;
    var insts := m.p.insts;
    if BlockStart(insts, target) {
      var j :| 0 <= j < |insts| && insts[j].pc == target && insts[j].start;
      FindUnique(insts, j);
    }
  }

  /** Control goes on at the instruction after, or panics past the last one. */
  ghost predicate GoesOn<H>(m: Machine<H>, idx: nat, e: Effect<H>, g: Gpr, mem: GoodMem, host: H, charge: nat)
    requires idx < |m.p.insts|
  {
    && (idx < |m.p.insts| - 1 ==> e == Go(idx + 1, g, mem, host, charge))
    && (idx == |m.p.insts| - 1 ==> e == Done(Panic, Regs(g, m.p.insts[idx].next), mem, host, charge))
  }

  /** Two's-complement value of a register. */
  function Int64(v: u64): int {
    if v < 0x8000_0000_0000_0000 then v else v - 0x1_0000_0000_0000_0000
  }

  /** The six branches: a condition that holds leads to pc plus the immediate, one
      that does not leads on; nothing else changes. */
  lemma BranchDoes<H>(m: Machine<H>, idx: nat, g: Gpr, mem: GoodMem, host: H)
    requires Contiguous(m.p.insts) && idx < |m.p.insts| && m.p.insts[idx].inst.Branch?
    ensures
      var here, i, e := m.p.insts[idx].pc, m.p.insts[idx].inst, Body(m, idx, g, mem, host);
      var a, b := RegRead(g, i.rs1), RegRead(g, i.rs2);
      if || (i.cond.Eq? && a == b)
         || (i.cond.Ne? && a != b)
         || (i.cond.Lt? && Int64(a) < Int64(b))
         || (i.cond.Ge? && Int64(a) >= Int64(b))
         || (i.cond.Ltu? && a < b)
         || (i.cond.Geu? && a >= b)
      then Arrives(m, idx, e, U32(here + i.imm), g, mem, host)
      else GoesOn(m, idx, e, g, mem, host, 0)
  {
    hide Contiguous, Find, RegRead, U32;
    JumpArrives(m, idx, U32(m.p.insts[idx].pc + m.p.insts[idx].inst.imm), g, mem, host);
  }

  /** `jal` goes to pc plus the immediate and links the address after it. */
  lemma JalDoes<H>(m: Machine<H>, idx: nat, g: Gpr, mem: GoodMem, host: H)
    requires Contiguous(m.p.insts) && idx < |m.p.insts| && m.p.insts[idx].inst.Jal?
    ensures
      var here, i, e := m.p.insts[idx], m.p.insts[idx].inst, Body(m, idx, g, mem, host);
      && Wrote(g, GprAfter(e), i.rd, U32(m.codeBase + here.next))
      && Arrives(m, idx, e, U32(here.pc + i.imm), GprAfter(e), mem, host)
  {
    hide Contiguous, Find, RegRead, RegWrite, U32, Wrote;
    var here := m.p.insts[idx];
    var link := U32(m.codeBase + here.next);
    WriteWrote(g, here.inst.rd, link);
    JumpArrives(m, idx, U32(here.pc + here.inst.imm), RegWrite(g, here.inst.rd, link), mem, host);
  }

  /** `jalr` goes to the code offset of the address in `rs1` plus the immediate,
      read before the link is written. */
  lemma JalrDoes<H>(m: Machine<H>, idx: nat, g: Gpr, mem: GoodMem, host: H)
    requires Contiguous(m.p.insts) && idx < |m.p.insts| && m.p.insts[idx].inst.Jalr?
    ensures
      var here, i, e := m.p.insts[idx], m.p.insts[idx].inst, Body(m, idx, g, mem, host);
      && Wrote(g, GprAfter(e), i.rd, U32(m.codeBase + here.next))
      && Arrives(m, idx, e, U32(RegRead(g, i.rs1) + i.imm - m.codeBase), GprAfter(e), mem, host)
  {
    hide Contiguous, Find, RegRead, RegWrite, U32, Wrote;
    var here := m.p.insts[idx];
    var base: int, link := m.codeBase, U32(m.codeBase + here.next);
    U32Add(RegRead(g, here.inst.rs1) + here.inst.imm, -base);
    WriteWrote(g, here.inst.rd, link);
    var target := U32(RegRead(g, here.inst.rs1) + here.inst.imm - base);
    JumpArrives(m, idx, target, RegWrite(g, here.inst.rd, link), mem, host);
  }

  /** An ecall hands the handler the kind, the registers and the address after it;
      a continued run goes on there with what the handler left. */
  lemma EcallDoes<H>(m: Machine<H>, idx: nat, g: Gpr, mem: GoodMem, host: H)
    requires Contiguous(m.p.insts) && idx < |m.p.insts| && IsEcall(m.p.insts[idx].inst)
    ensures
      var here, e := m.p.insts[idx], Body(m, idx, g, mem, host);
      var kind := if here.inst.Ecalli? then KindEcalli(here.inst.imm % 0x1_0000_0000) else KindEcall;
      var h := m.handler(host, kind, Regs(g, here.next), mem);
      && (h.result.ExitWith? ==> e == Done(h.result.exit, h.regs, h.mem, h.host, 0))
      && (h.result.Continue? && idx < |m.p.insts| - 1 ==> e == Go(idx + 1, h.regs.gpr, h.mem, h.host, 0))
      && (h.result.Continue? && idx == |m.p.insts| - 1 ==> e == Done(Panic, h.regs, h.mem, h.host, 0))
  {
    hide Contiguous, Find;
    NextInst(m.p.insts, idx);
  }

  // ---- Values and memory ----------------------------------------------------

  /** A 32-bit value sign-extended to a register. */
  function Extended(v: int): u64 {
    if v % 0x1_0000_0000 < 0x8000_0000 then v % 0x1_0000_0000
    else v % 0x1_0000_0000 + 0x1_0000_0000_0000_0000 - 0x1_0000_0000
  }

  /** What the arithmetic and upper-immediate instructions compute. */
  function ValueOf<H>(m: Machine<H>, here: Entry, g: Gpr): u64
    requires here.inst.Unary? || here.inst.Binary? || here.inst.Lui? || here.inst.Auipc?
  {
    match here.inst
    case Unary(_, _, rs1, _) => m.alu(here.inst, [RegRead(g, rs1)])
    case Binary(_, _, rs1, rs2, _) => m.alu(here.inst, [RegRead(g, rs1), RegRead(g, rs2)])
    case Lui(_, imm) => Extended(imm)
    case Auipc(_, imm) => Extended(m.codeBase + here.pc + imm)
  }

  /** Arithmetic writes its destination and leaves the rest. */
  lemma ComputeDoes<H>(m: Machine<H>, idx: nat, g: Gpr, mem: GoodMem, host: H)
    requires idx < |m.p.insts|
    requires var i := m.p.insts[idx].inst; i.Unary? || i.Binary? || i.Lui? || i.Auipc?
    ensures
      var here, e := m.p.insts[idx], Body(m, idx, g, mem, host);
      Wrote(g, GprAfter(e), here.inst.rd, ValueOf(m, here, g)) && GoesOn(m, idx, e, GprAfter(e), mem, host, 0)
  {
    hide RegRead, RegWrite, Wrote;
    var here := m.p.insts[idx];
    WriteWrote(g, here.inst.rd, ValueOf(m, here, g));
  }

  /** A load takes the bytes at `rs1` plus the immediate, little-endian and widened
      as it says, or faults on the page of that address. */
  lemma LoadDoes<H>(m: Machine<H>, idx: nat, g: Gpr, mem: GoodMem, host: H)
    requires idx < |m.p.insts| && m.p.insts[idx].inst.Load?
    ensures
      var here, i, e := m.p.insts[idx], m.p.insts[idx].inst, Body(m, idx, g, mem, host);
      var addr := U32(RegRead(g, i.rs1) + i.imm);
      var a := FM.Load(mem, m.code, m.codeBase, addr, i.width);
      if a.bytes.None? then e == Done(PageFault(addr - addr % 4096), Regs(g, here.pc), a.mem, host, a.charge)
      else
        && Wrote(g, GprAfter(e), i.rd, Widen(FromLe(a.bytes.value), i.width, i.signed))
        && GoesOn(m, idx, e, GprAfter(e), a.mem, host, a.charge)
  {
    hide RegRead, RegWrite, Wrote, FM.Load, Widen, FromLe, Limit;
    var i := m.p.insts[idx].inst;
    var a := FM.Load(mem, m.code, m.codeBase, Addr(g, i.rs1, i.imm), i.width);
    if a.bytes.Some? {
      WriteWrote(g, i.rd, Extend(a.bytes.value, i.signed));
    }
  }

  /** A store puts the low bytes of `rs2` at `rs1` plus the immediate, or faults. */
  lemma StoreDoes<H>(m: Machine<H>, idx: nat, g: Gpr, mem: GoodMem, host: H)
    requires idx < |m.p.insts| && m.p.insts[idx].inst.Store?
    ensures
      var here, i, e := m.p.insts[idx], m.p.insts[idx].inst, Body(m, idx, g, mem, host);
      var addr := U32(RegRead(g, i.rs1) + i.imm);
      var a := FM.Store(mem, addr, ToLe(RegRead(g, i.rs2), i.width));
      if a.bytes.None? then e == Done(PageFault(addr - addr % 4096), Regs(g, here.pc), a.mem, host, a.charge)
      else GoesOn(m, idx, e, g, a.mem, host, a.charge)
  {
    hide RegRead, FM.Store, ToLe;
  }

  /** The rest: fences and fallthroughs do nothing, a trap and a reserved encoding
      stop where they are. */
  lemma PlainDoes<H>(m: Machine<H>, idx: nat, g: Gpr, mem: GoodMem, host: H)
    requires idx < |m.p.insts|
    ensures
      var here, e := m.p.insts[idx], Body(m, idx, g, mem, host);
      && (here.inst.Fence? || here.inst.Fallthrough? ==> GoesOn(m, idx, e, g, mem, host, 0))
      && (here.inst.Trap? ==> e == Done(Trapped, Regs(g, here.pc), mem, host, 0))
      && (here.inst.Reserved? ==> e == Done(Panic, Regs(g, here.pc), mem, host, 0))
  {
    hide Find, FM.Load, FM.Store, RegRead, RegWrite, ToLe, Extend;
  }

  // ---- Tracked operands -----------------------------------------------------

  /** A register slot the gas model names, or none. */
  predicate Same(g: Gpr, h: Gpr, slot: nat) {
    slot < 15 ==> g[slot] == h[slot]
  }

  lemma WriteOne(g: Gpr, h: Gpr, x: nat, v: u64)
    ensures forall s :: 0 <= s < 15 && s != Slot(x) ==> RegWrite(g, x, v)[s] == g[s]
    ensures Same(RegWrite(g, x, v), RegWrite(h, x, v), Slot(x))
  {
  }

  lemma ReadSame(g: Gpr, h: Gpr, x: nat)
    requires Same(g, h, Slot(x))
    ensures RegRead(g, x) == RegRead(h, x)
  {
  }

  lemma NoneSame(g: Gpr, h: Gpr)
    ensures Same(g, h, 255)
  {
  }

  /** The tracked destination is the only register an instruction changes; `jalr`
      and the ecalls end their block, so theirs is not tracked. */
  lemma ChangesOnlyDst<H>(m: Machine<H>, idx: nat, g: Gpr, mem: GoodMem, host: H, slot: nat)
    requires idx < |m.p.insts| && !IsEcall(m.p.insts[idx].inst) && !m.p.insts[idx].inst.Jalr?
    requires slot < 15 && slot != MetaOf(m.p.insts[idx].inst).dst
    ensures GprAfter(Body(m, idx, g, mem, host))[slot] == g[slot]
  {
    hide Slot, RegRead, RegWrite, MetaOf, Find, FM.Load, FM.Store, ToLe, Extend, Addr, Taken, SignExtend32, U32;
    var i := m.p.insts[idx].inst;
    NamedOperands(i);
    if i.Load? || i.Unary? || i.Binary? || i.Lui? || i.Auipc? || i.Jal? {
      forall v: u64 ensures RegWrite(g, i.rd, v)[slot] == g[slot] {
        WriteOne(g, g, i.rd, v);
      }
    }
  }

  /** The tracked sources decide where control goes, the access, and the value of
      the destination. */
  lemma SourcesDecide<H>(m: Machine<H>, idx: nat, g: Gpr, h: Gpr, mem: GoodMem, host: H)
    requires idx < |m.p.insts| && !IsEcall(m.p.insts[idx].inst)
    requires var t := MetaOf(m.p.insts[idx].inst); Same(g, h, t.src1) && Same(g, h, t.src2)
    ensures
      var a, b := Body(m, idx, g, mem, host), Body(m, idx, h, mem, host);
      && (a.Go? <==> b.Go?) && (a.Go? ==> a.idx == b.idx) && (a.Done? ==> a.exit == b.exit && a.regs.pc == b.regs.pc)
      && a.mem == b.mem && a.host == b.host && a.charge == b.charge
      && (a.Go? ==> Same(GprAfter(a), GprAfter(b), MetaOf(m.p.insts[idx].inst).dst))
  {
    hide Slot, RegRead, RegWrite, MetaOf, Find, FM.Load, FM.Store, ToLe, Extend, Taken, SignExtend32, U32, Same;
    var i := m.p.insts[idx].inst;
    NamedOperands(i);
    if i.Load? || i.Unary? || i.Binary? || i.Store? || i.Branch? || i.Jalr? {
      ReadSame(g, h, i.rs1);
    }
    if i.Binary? || i.Store? || i.Branch? {
      ReadSame(g, h, i.rs2);
    }
    if i.Load? || i.Unary? || i.Binary? || i.Lui? || i.Auipc? || i.Jal? {
      forall v: u64 ensures Same(RegWrite(g, i.rd, v), RegWrite(h, i.rd, v), Slot(i.rd)) {
        WriteOne(g, h, i.rd, v);
      }
    } else {
      NoneSame(GprAfter(Body(m, idx, g, mem, host)), GprAfter(Body(m, idx, h, mem, host)));
    }
  }

  // ---- The gate -------------------------------------------------------------

  /** One iteration spends nothing and stops with everything as it was when a block
      start cannot be paid with its reserve, or an ecall of its own block with the
      floor; otherwise it pays the price, then the instruction's own debit. */
  lemma StepDoes<H>(m: Machine<H>, c: Cfg<H>)
    requires Ok(m, c)
    ensures
      var here, p := m.p.insts[c.idx], m.p;
      var price := if here.start then p.costs[c.idx] else 0;
      var floor := if IsEcall(here.inst) then 100 else 0;
      var refused := (price > 0 && c.gas < price + p.reserves[c.idx]) || c.gas - price < floor;
      var e := Body(m, c.idx, c.gpr, c.mem, c.host);
      && (refused ==> Step(m, c) == Stop(Final(OutOfGas, Regs(c.gpr, here.pc), c.mem, c.gas, c.host)))
      && (!refused && c.gas - price - floor >= e.charge ==>
            Step(m, c) == if e.Go? then Next(Cfg(e.idx, e.gpr, e.mem, c.gas - price - floor - e.charge, e.host))
                          else Stop(Final(e.exit, e.regs, e.mem, c.gas - price - floor - e.charge, e.host)))
  {
    hide Body, Step;
    StepShape(m, c);
  }

  /** A run starts where the entry pc names a block start, with all it was given,
      and panics untouched otherwise. */
  lemma EnterDoes<H>(m: Machine<H>, regs: Regs, mem: GoodMem, gas: nat, host: H)
    requires Priced(m.p)
    ensures !BlockStart(m.p.insts, U32(regs.pc)) ==>
      Enter(m, regs, mem, gas, host) == Some(Final(Panic, regs, mem, gas, host))
    ensures forall j :: 0 <= j < |m.p.insts| && m.p.insts[j].pc == U32(regs.pc) && m.p.insts[j].start ==>
      Enter(m, regs, mem, gas, host) == Run(m, Cfg(j, regs.gpr, mem, gas, host))
  {
    hide Priced, Contiguous, Find, Run;
    var insts := m.p.insts;
    forall j | 0 <= j < |insts| && insts[j].pc == U32(regs.pc) && insts[j].start
      ensures Find(insts, U32(regs.pc)) == Some(j)
    {
      PricedStart(m.p, j);
      FindUnique(insts, j);
    }
  }
}
