/** The metered interpreter loop (nub-exec `interp.rs`).

    `Step` is one iteration: the block gate, the ecall floor, then the
    instruction. What an instruction does (`Body`) never looks at gas; it only
    says how much first-write gas it debits. `Crash` stands for the debit's
    `.expect` firing. */
module Interp {
  import opened Prelude
  import opened Encoding
  import opened LittleEndian
  import opened Isa
  import opened GasCost
  import opened Predecode
  import FM = FlatMemory
  import Mat

  type Gpr = g: seq<u64> | |g| == 15 witness [0, 0, 0, 0, 0, 0, 0, 0, 0, 0, 0, 0, 0, 0, 0]

  type GoodMem = m: FM.Mem | FM.Valid(m) witness FM.Mem(0, [], [], [], 0, 0)

  datatype Regs = Regs(gpr: Gpr, pc: nat)

  datatype Exit = Halt | Trapped | Panic | OutOfGas | PageFault(addr: u32) | HostCall(n: u32) | EcallExit

  datatype EcallKind = KindEcall | KindEcalli(imm: u32)

  datatype EcallResult = Continue | ExitWith(exit: Exit)

  datatype Handled<H> = Handled(host: H, regs: Regs, mem: GoodMem, result: EcallResult)

  /** A loaded program, the arithmetic it runs on and its ecall handler: any
      function of its own state, the kind, the registers and memory. */
  datatype Machine<!H> = Machine(
    p: Predecoded,
    code: seq<byte>,
    codeBase: u32,
    alu: (Inst, seq<u64>) -> u64,
    handler: (H, EcallKind, Regs, GoodMem) -> Handled<H>)

  const ECALL_FLOOR: nat := 100

  // ---- Registers and values -------------------------------------------------

  function RegRead(g: Gpr, x: nat): u64 {
    if Slot(x) < 15 then g[Slot(x)] else 0
  }

  function RegWrite(g: Gpr, x: nat, v: u64): Gpr {
    if Slot(x) < 15 then g[Slot(x) := v] else g
  }

  /** A `width`-byte value in a 64-bit register. A signed one keeps its signed
      value. */
  function Widen(v: nat, width: Width, signed: bool): (r: u64)
    requires v < Limit(width)
    ensures !signed ==> r == v
    ensures signed ==> Signed(r, 0x8000_0000_0000_0000) == Signed(v, Limit(width) / 2)
  {
    if signed && v >= Limit(width) / 2 then v + 0x1_0000_0000_0000_0000 - Limit(width) else v
  }

  function Extend(b: seq<byte>, signed: bool): u64
    requires |b| in {1, 2, 4, 8}
  {
    Widen(FromLe(b), |b|, signed)
  }

  /** The low bytes of a register. */
  function LowBytes(v: u64, width: Width): (r: nat)
    ensures r < Limit(width)
  {
    v % Limit(width)
  }

  function SignExtend32(v: u32): u64 {
    if v >= 0x8000_0000 then v + 0xFFFF_FFFF_0000_0000 else v
  }

  function Addr(g: Gpr, rs1: nat, imm: int): u32 {
    U32(RegRead(g, rs1) + imm)
  }

  predicate Taken(cond: Cond, a: u64, b: u64) {
    match cond
    case Eq => a == b
    case Ne => a != b
    case Lt => Signed(a, 0x8000_0000_0000_0000) < Signed(b, 0x8000_0000_0000_0000)
    case Ge => Signed(a, 0x8000_0000_0000_0000) >= Signed(b, 0x8000_0000_0000_0000)
    case Ltu => a < b
    case Geu => a >= b
  }

  /** `find_idx_for_pc`. */
  function Find(insts: seq<Entry>, pc: nat): (r: Option<nat>)
    ensures r.Some? ==> r.value < |insts| && insts[r.value].pc == pc
    ensures r.None? ==> forall i :: 0 <= i < |insts| ==> insts[i].pc != pc
  {
    var k := |insts| - 1;
    if k < 0 then None
    else if insts[k].pc == pc then Some(k)
    else Find(insts[..k], pc)
  }

  lemma FindUnique(insts: seq<Entry>, i: nat)
    requires Contiguous(insts) && i < |insts|
    ensures Find(insts, insts[i].pc) == Some(i)
  {
    hide Find;
    var r := Find(insts, insts[i].pc);
    assert r.Some?;
    if r.value < i {
      PcsIncrease(insts, r.value, i);
    } else if i < r.value {
      PcsIncrease(insts, i, r.value);
    }
  }

  // ---- One instruction ------------------------------------------------------

  datatype Effect<H> =
    | Go(idx: nat, gpr: Gpr, mem: GoodMem, host: H, charge: nat)
    | Done(exit: Exit, regs: Regs, mem: GoodMem, host: H, charge: nat)

  /** The next instruction in order; running off the end panics. */
  function Advance<H>(m: Machine<H>, idx: nat, g: Gpr, mem: GoodMem, host: H, charge: nat): Effect<H>
    requires idx < |m.p.insts|
  {
    if idx + 1 < |m.p.insts| then Go(idx + 1, g, mem, host, charge)
    else Done(Panic, Regs(g, m.p.insts[idx].next), mem, host, charge)
  }

  /** A jump must land on a block start, else it panics where it stands. */
  function Jump<H>(m: Machine<H>, idx: nat, target: u32, g: Gpr, mem: GoodMem, host: H): Effect<H>
    requires idx < |m.p.insts|
  {
    var t := Find(m.p.insts, target);
    if t.Some? && m.p.insts[t.value].start then Go(t.value, g, mem, host, 0)
    else Done(Panic, Regs(g, m.p.insts[idx].pc), mem, host, 0)
  }

  function EcallKindOf(i: Inst): EcallKind
    requires IsEcall(i)
  {
    if i.EcallJar? then KindEcall else KindEcalli(U32(i.imm))
  }

  /** The handler runs with the pc already past the ecall. */
  function Ecall<H>(m: Machine<H>, idx: nat, g: Gpr, mem: GoodMem, host: H): Effect<H>
    requires idx < |m.p.insts| && IsEcall(m.p.insts[idx].inst)
  {
    var e := m.p.insts[idx];
    var h := m.handler(host, EcallKindOf(e.inst), Regs(g, e.next), mem);
    match h.result
    case ExitWith(x) => Done(x, h.regs, h.mem, h.host, 0)
    case Continue =>
      match Find(m.p.insts, e.next)
      case Some(i) => Go(i, h.regs.gpr, h.mem, h.host, 0)
      case None => Done(Panic, h.regs, h.mem, h.host, 0)
  }

  function Fault<H>(m: Machine<H>, idx: nat, addr: u32, g: Gpr, mem: GoodMem, host: H, charge: nat): Effect<H>
    requires idx < |m.p.insts|
  {
    Done(PageFault(addr / 4096 * 4096), Regs(g, m.p.insts[idx].pc), mem, host, charge)
  }

  function Body<H>(m: Machine<H>, idx: nat, g: Gpr, mem: GoodMem, host: H): Effect<H>
    requires idx < |m.p.insts|
  {
    var e := m.p.insts[idx];
    match e.inst
    case Load(rd, rs1, imm, width, signed) =>
      var addr := Addr(g, rs1, imm);
      var a := FM.Load(mem, m.code, m.codeBase, addr, width);
      if a.bytes.None? then Fault(m, idx, addr, g, a.mem, host, a.charge)
      else Advance(m, idx, RegWrite(g, rd, Extend(a.bytes.value, signed)), a.mem, host, a.charge)
    case Store(rs1, rs2, imm, width) =>
      var addr := Addr(g, rs1, imm);
      var a := FM.Store(mem, addr, ToLe(RegRead(g, rs2), width));
      if a.bytes.None? then Fault(m, idx, addr, g, a.mem, host, a.charge)
      else Advance(m, idx, g, a.mem, host, a.charge)
    case Unary(_, rd, rs1, _) => Advance(m, idx, RegWrite(g, rd, m.alu(e.inst, [RegRead(g, rs1)])), mem, host, 0)
    case Binary(_, rd, rs1, rs2, _) =>
      Advance(m, idx, RegWrite(g, rd, m.alu(e.inst, [RegRead(g, rs1), RegRead(g, rs2)])), mem, host, 0)
    case Lui(rd, imm) => Advance(m, idx, RegWrite(g, rd, SignExtend32(U32(imm))), mem, host, 0)
    case Auipc(rd, imm) =>
      Advance(m, idx, RegWrite(g, rd, SignExtend32(U32(m.codeBase + e.pc + imm))), mem, host, 0)
    case Jal(rd, imm) =>
      Jump(m, idx, U32(e.pc + imm), RegWrite(g, rd, U32(m.codeBase + e.next)), mem, host)
    case Jalr(rd, rs1, imm) =>
      Jump(m, idx, U32(Addr(g, rs1, imm) - m.codeBase), RegWrite(g, rd, U32(m.codeBase + e.next)), mem, host)
    case Branch(cond, rs1, rs2, imm) =>
      if Taken(cond, RegRead(g, rs1), RegRead(g, rs2)) then Jump(m, idx, U32(e.pc + imm), g, mem, host)
      else Advance(m, idx, g, mem, host, 0)
    case Fence => Advance(m, idx, g, mem, host, 0)
    case Fallthrough => Advance(m, idx, g, mem, host, 0)
    case Trap => Done(Trapped, Regs(g, e.pc), mem, host, 0)
    case Reserved => Done(Panic, Regs(g, e.pc), mem, host, 0)
    case EcallJar => Ecall(m, idx, g, mem, host)
    case Ecalli(_) => Ecall(m, idx, g, mem, host)
  }

  // ---- One iteration --------------------------------------------------------

  datatype Cfg<H> = Cfg(idx: nat, gpr: Gpr, mem: GoodMem, gas: nat, host: H)

  datatype Final<H> = Final(exit: Exit, regs: Regs, mem: GoodMem, gas: nat, host: H)

  datatype Outcome<H> = Next(cfg: Cfg<H>) | Stop(final: Final<H>) | Crash

  predicate Ok<H>(m: Machine<H>, c: Cfg<H>) {
    Priced(m.p) && c.idx < |m.p.insts|
  }

  /** Leaving the instruction with `gas` still to pay its first-write debit. */
  function Settle<H>(e: Effect<H>, gas: nat): Outcome<H> {
    if gas < e.charge then Crash
    else
      match e
      case Go(idx, g, mem, host, charge) => Next(Cfg(idx, g, mem, gas - charge, host))
      case Done(exit, regs, mem, host, charge) => Stop(Final(exit, regs, mem, gas - charge, host))
  }

  function Oog<H>(m: Machine<H>, c: Cfg<H>, gas: nat): Outcome<H>
    requires Ok(m, c)
  {
    Stop(Final(OutOfGas, Regs(c.gpr, m.p.insts[c.idx].pc), c.mem, gas, c.host))
  }

  function Step<H>(m: Machine<H>, c: Cfg<H>): Outcome<H>
    requires Ok(m, c)
  {
    var e := m.p.insts[c.idx];
    var cost := if e.start then m.p.costs[c.idx] else 0;
    if cost != 0 && c.gas < cost + m.p.reserves[c.idx] then Oog(m, c, c.gas)
    else
      var gas := c.gas - cost;
      if IsEcall(e.inst) then
        if gas < ECALL_FLOOR then Oog(m, c, gas)
        else Settle(Body(m, c.idx, c.gpr, c.mem, c.host), gas - ECALL_FLOOR)
      else Settle(Body(m, c.idx, c.gpr, c.mem, c.host), gas)
  }

  /** Gas an instruction boundary asks for and what it then charges. */
  function Need<H>(m: Machine<H>, idx: nat): nat
    requires Priced(m.p) && idx < |m.p.insts|
  {
    if Gated(m.p.insts, idx) then m.p.costs[idx] + m.p.reserves[idx]
    else if IsEcall(m.p.insts[idx].inst) then ECALL_FLOOR
    else 0
  }

  function Fee<H>(m: Machine<H>, idx: nat): (fee: nat)
    requires Priced(m.p) && idx < |m.p.insts|
    ensures fee <= Need(m, idx)
    ensures m.p.insts[idx].start ==> fee >= 1
    ensures !m.p.insts[idx].start ==> fee == Need(m, idx) == 0
  {
    if Gated(m.p.insts, idx) then m.p.costs[idx]
    else if IsEcall(m.p.insts[idx].inst) then ECALL_FLOOR
    else 0
  }

  lemma StepShape<H>(m: Machine<H>, c: Cfg<H>)
    requires Ok(m, c)
    ensures Step(m, c) == if c.gas < Need(m, c.idx) then Oog(m, c, c.gas)
                          else Settle(Body(m, c.idx, c.gpr, c.mem, c.host), c.gas - Fee(m, c.idx))
    ensures m.p.insts[c.idx].start || Need(m, c.idx) == 0
  {
    hide Body, ReserveAt;
    assert StartAt(m.p.insts, c.idx) <==> m.p.insts[c.idx].start;
  }

  // ---- What an instruction can do -------------------------------------------

  /** Control stays inside the program; off block starts it only moves on by one. */
  predicate Lands<H>(m: Machine<H>, idx: nat, e: Effect<H>) {
    e.Go? ==> e.idx < |m.p.insts| && (!m.p.insts[e.idx].start ==> e.idx == idx + 1)
  }

  /** The debit is within the reserve and pays for the pages turned writable. */
  predicate Pays<H>(inst: Inst, mem: GoodMem, e: Effect<H>) {
    && e.charge <= ReserveOf(inst)
    && (!IsEcall(inst) ==>
          && FM.Grows(mem.mat, e.mem.mat)
          && e.charge == Mat.COW_COST * |FM.Written(mem.mat, e.mem.mat)|)
  }

  lemma PricedStart(p: Predecoded, i: nat)
    requires Priced(p) && i < |p.insts|
    ensures Contiguous(p.insts) && p.insts[i].next < 0x1_0000_0000
    ensures p.insts[i].start <==> StartAt(p.insts, i)
  {
    hide Contiguous, Gated, ReserveAt;
  }

  /** The address after an instruction is the next instruction or none. */
  lemma NextInst(insts: seq<Entry>, idx: nat)
    requires Contiguous(insts) && idx < |insts|
    ensures Find(insts, insts[idx].next) == if idx + 1 < |insts| then Some(idx + 1) else None
  {
    hide Find;
    if idx + 1 < |insts| {
      FindUnique(insts, idx + 1);
    } else {
      var t := Find(insts, insts[idx].next);
      if t.Some? && t.value < idx {
        PcsIncrease(insts, t.value, idx);
      }
    }
  }

  lemma EcallLands<H>(m: Machine<H>, idx: nat, g: Gpr, mem: GoodMem, host: H)
    requires Priced(m.p) && idx < |m.p.insts| && IsEcall(m.p.insts[idx].inst)
    ensures Lands(m, idx, Ecall(m, idx, g, mem, host))
  {
    hide Find, Priced, Contiguous;
    var insts := m.p.insts;
    PricedStart(m.p, idx);
    NextInst(insts, idx);
    if idx + 1 < |insts| {
      PricedStart(m.p, idx + 1);
    }
  }

  lemma BodyLands<H>(m: Machine<H>, idx: nat, g: Gpr, mem: GoodMem, host: H)
    requires Priced(m.p) && idx < |m.p.insts|
    ensures Lands(m, idx, Body(m, idx, g, mem, host))
  {
    hide Priced, Find, FM.Load, FM.Store, RegWrite, RegRead, Extend, ToLe, Addr, Taken, SignExtend32;
    if IsEcall(m.p.insts[idx].inst) {
      EcallLands(m, idx, g, mem, host);
    }
  }

  lemma NoneWritten(mat: seq<Mat.PageState>)
    ensures FM.Grows(mat, mat) && FM.Written(mat, mat) == {}
  {
  }

  lemma LoadWrites(mem: GoodMem, code: seq<byte>, codeBase: nat, addr: u32, width: nat)
    requires 1 <= width <= 8
    ensures
      var a := FM.Load(mem, code, codeBase, addr, width);
      FM.Grows(mem.mat, a.mem.mat) && |FM.Written(mem.mat, a.mem.mat)| == 0
  {
    hide FM.Touch, FM.NotRw;
    if FM.Touch(mem, addr, width, false).Some? {
      FM.TouchCharge(mem, addr, width, false);
    } else {
      NoneWritten(mem.mat);
    }
  }

  lemma BodyPays<H>(m: Machine<H>, idx: nat, g: Gpr, mem: GoodMem, host: H)
    requires idx < |m.p.insts|
    ensures Pays(m.p.insts[idx].inst, mem, Body(m, idx, g, mem, host))
  {
    hide Find, FM.Load, FM.Store, FM.Written, FM.Grows, FM.NotRw, RegWrite, RegRead, Extend, ToLe, Addr, Taken, SignExtend32,
         ReserveOf;
    var inst := m.p.insts[idx].inst;
    if inst.Store? {
      FM.StoreCharge(mem, Addr(g, inst.rs1, inst.imm), ToLe(RegRead(g, inst.rs2), inst.width));
    } else if inst.Load? {
      LoadWrites(mem, m.code, m.codeBase, Addr(g, inst.rs1, inst.imm), inst.width);
    } else {
      NoneWritten(mem.mat);
    }
  }

  // ---- Calls and branches ---------------------------------------------------

  /** Opposite conditions: exactly one of each pair is taken. */
  lemma OppositeBranches(a: u64, b: u64)
    ensures Taken(Eq, a, b) != Taken(Ne, a, b) && Taken(Lt, a, b) != Taken(Ge, a, b) && Taken(Ltu, a, b) != Taken(Geu, a, b)
    ensures Taken(Lt, a, b) || Taken(Lt, b, a) || Taken(Eq, a, b)
    ensures Taken(Ltu, a, b) || Taken(Ltu, b, a) || Taken(Eq, a, b)
  {
  }

  /** A store and then a load of the same address and width: the loaded register
      holds the low bytes of the stored one. */
  lemma StoredValueLoads<H>(m: Machine<H>, i: nat, j: nat, g: Gpr, mem: GoodMem, host: H, g': Gpr, host': H)
    requires i < |m.p.insts| && j + 1 < |m.p.insts| && m.p.insts[i].inst.Store? && m.p.insts[j].inst.Load?
    requires
      var st, ld := m.p.insts[i].inst, m.p.insts[j].inst;
      ld.width == st.width && Slot(ld.rd) < 15 && Addr(g', ld.rs1, ld.imm) == Addr(g, st.rs1, st.imm)
    requires Body(m, i, g, mem, host).Go?
    ensures
      var st, ld := m.p.insts[i].inst, m.p.insts[j].inst;
      var e := Body(m, j, g', Body(m, i, g, mem, host).mem, host');
      && e.Go? && e.idx == j + 1
      && RegRead(e.gpr, ld.rd) == Widen(LowBytes(RegRead(g, st.rs2), st.width), st.width, ld.signed)
  {
    hide FM.Load, FM.Store, ToLe, FromLe, Slot, Addr, Limit, Widen;
    var st, ld := m.p.insts[i].inst, m.p.insts[j].inst;
    var data := ToLe(RegRead(g, st.rs2), st.width);
    FM.StoreThenLoad(mem, m.code, m.codeBase, Addr(g, st.rs1, st.imm), data);
    LeRoundTrip(RegRead(g, st.rs2), st.width);
  }

  /** Adding and taking away the code base modulo 2^32 is the identity. */
  lemma LinkBack(base: int, next: int)
    requires 0 <= next < 0x1_0000_0000
    ensures U32(U32(U32(base + next) + 0) - base) == next
  {
    hide U32;
    U32Add(base + next, 0);
    U32Add(base + next + 0, -base);
    U32Small(next);
  }

  /** A call returns: a `jal` or `jalr` leaves a link that, given to a `jalr`
      anywhere in the program, leads to the instruction after the call, which is
      a block start. */
  lemma CallReturns<H>(
    m: Machine<H>, idx: nat, g: Gpr, mem: GoodMem, host: H, back: nat, g': Gpr, mem': GoodMem, host': H)
    requires Priced(m.p) && idx + 1 < |m.p.insts| && back < |m.p.insts|
    requires m.p.insts[idx].inst.Jal? || m.p.insts[idx].inst.Jalr?
    requires Slot(m.p.insts[idx].inst.rd) < 15 && Body(m, idx, g, mem, host).Go?
    requires
      var ret := m.p.insts[back].inst;
      ret.Jalr? && ret.imm == 0
      && RegRead(g', ret.rs1) == RegRead(Body(m, idx, g, mem, host).gpr, m.p.insts[idx].inst.rd)
    ensures
      var e := Body(m, back, g', mem', host');
      e.Go? && e.idx == idx + 1 && m.p.insts[e.idx].start && e.mem == mem' && e.host == host' && e.charge == 0
  {
    hide Priced, Contiguous, Find, Slot, U32;
    var next: int, base: int := m.p.insts[idx].next, m.codeBase;
    PricedStart(m.p, idx);
    PricedStart(m.p, idx + 1);
    NextInst(m.p.insts, idx);
    LinkBack(base, next);
  }

  // ---- Termination ----------------------------------------------------------

  /** Second component of the measure: 0 at a block start, else the number of
      instructions left to the end. */
  function Left<H>(m: Machine<H>, idx: nat): nat
    requires idx < |m.p.insts|
  {
    if m.p.insts[idx].start then 0 else |m.p.insts| - idx
  }

  /** Each iteration strictly lowers (gas, instructions left) lexicographically. */
  lemma StepProgress<H>(m: Machine<H>, c: Cfg<H>)
    requires Ok(m, c)
    ensures
      var s := Step(m, c);
      s.Next? ==>
        && Ok(m, s.cfg)
        && (s.cfg.gas < c.gas || (s.cfg.gas == c.gas && Left(m, s.cfg.idx) < Left(m, c.idx)))
    ensures Step(m, c).Stop? ==> Step(m, c).final.gas <= c.gas
  {
    hide Body, Step, Priced;
    StepShape(m, c);
    BodyLands(m, c.idx, c.gpr, c.mem, c.host);
  }

  /** A whole run; `None` is a crash. */
  function Run<H>(m: Machine<H>, c: Cfg<H>): Option<Final<H>>
    requires Ok(m, c)
    decreases c.gas, Left(m, c.idx)
  {
    StepProgress(m, c);
    match Step(m, c)
    case Next(c') => Run(m, c')
    case Stop(f) => Some(f)
    case Crash => None
  }

  /** `Interpreter::run`: the entry pc must be a block start. */
  function Enter<H>(m: Machine<H>, regs: Regs, mem: GoodMem, gas: nat, host: H): Option<Final<H>>
    requires Priced(m.p)
  {
    match Find(m.p.insts, U32(regs.pc))
    case Some(i) =>
      if m.p.insts[i].start then Run(m, Cfg(i, regs.gpr, mem, gas, host))
      else Some(Final(Panic, regs, mem, gas, host))
    case None => Some(Final(Panic, regs, mem, gas, host))
  }
}
