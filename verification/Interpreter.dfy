/** The interpreter in place: the gas counter, the flat memory with first-touch
    accounting, and the run loop (nub-exec `gas.rs`, `mem.rs`, `interp.rs`).

    Every `.expect` on a charge is an `assert` here: the loop's proof discharges
    it from the reserve invariant. */
module Interpreter {
  import opened Prelude
  import opened Encoding
  import opened LittleEndian
  import opened Isa
  import opened Predecode
  import opened Interp
  import opened Metering
  import FM = FlatMemory
  import Mat

  class GasCounter {
    var remaining: nat

    constructor (initial: nat)
      ensures remaining == initial
    {
      remaining := initial;
    }

    /** All or nothing; a charge that does not fit empties the counter. */
    method Charge(cost: nat) returns (ok: bool)
      modifies this
      ensures ok <==> cost <= old(remaining)
      ensures remaining == if ok then old(remaining) - cost else 0
    {
      ok := cost <= remaining;
      remaining := if ok then remaining - cost else 0;
    }
  }

  /** `read_code`: a zeroed buffer, and the code bytes there are. */
  method ReadCode(code: seq<byte>, codeAt: nat, addr: u32, width: nat) returns (r: Option<seq<byte>>)
    requires 1 <= width <= 8
    ensures r == FM.ReadCode(code, codeAt, addr, width)
  {
    if addr < codeAt {
      return None;
    }
    var off := addr - codeAt;
    if off + width > FM.RoundUp(|code|) {
      return None;
    }
    var buf := new byte[8](_ => 0);
    for k := 0 to width
      invariant forall j :: 0 <= j < width ==> buf[j] == if j < k && off + j < |code| then code[off + j] else 0
    {
      if off + k < |code| {
        buf[k] := code[off + k];
      }
    }
    r := Some(buf[..width]);
    assert r.value == FM.ReadCode(code, codeAt, addr, width).value;
  }

  class CopyingMemory {
    var base: nat
    var flat: seq<byte>
    var perms: seq<FM.Perm>
    var mat: seq<Mat.PageState>
    var codeBase: nat
    var codeTop: nat

    function View(): FM.Mem
      reads this
    {
      FM.Mem(base, flat, perms, mat, codeBase, codeTop)
    }

    ghost predicate Ok()
      reads this
    {
      FM.Valid(View())
    }

    constructor (m: GoodMem)
      ensures Ok() && View() == m
    {
      base, flat, perms, mat, codeBase, codeTop := m.base, m.flat, m.perms, m.mat, m.codeBase, m.codeTop;
    }

    /** The state an ecall handler leaves behind. */
    method Adopt(m: GoodMem)
      modifies this
      ensures Ok() && View() == m
    {
      base, flat, perms, mat, codeBase, codeTop := m.base, m.flat, m.perms, m.mat, m.codeBase, m.codeTop;
    }

    method Off(addr: u32) returns (o: nat)
      requires Ok()
      ensures o == FM.Off(View(), addr)
    {
      o := if addr >= base then addr - base else addr + 0x1_0000_0000 - base;
    }

    method PageIndex(p: nat) returns (r: Option<nat>)
      requires Ok() && p < 0x10_0000
      ensures r == FM.PageIndex(View(), p)
    {
      var o := Off(4096 * p);
      r := if o < |flat| then Some(o / 4096) else None;
    }

    method IsCodePage(p: nat) returns (r: bool)
      ensures r == FM.IsCodePage(View(), p)
    {
      r := codeTop > codeBase && codeBase <= 4096 * p < codeTop;
    }

    method AllAccessible(pages: seq<nat>, isWrite: bool) returns (ok: bool)
      requires Ok() && forall k :: 0 <= k < |pages| ==> pages[k] < 0x10_0000
      ensures ok <==> forall k :: 0 <= k < |pages| ==> FM.Accessible(View(), pages[k], isWrite)
    {
      for k := 0 to |pages|
        invariant forall j :: 0 <= j < k ==> FM.Accessible(View(), pages[j], isWrite)
      {
        var i := PageIndex(pages[k]);
        if i.None? || perms[i.value] == FM.NoAccess || (isWrite && perms[i.value] != FM.ReadWrite) {
          assert !FM.Accessible(View(), pages[k], isWrite);
          return false;
        }
      }
      ok := true;
    }

    method TouchOne(p: nat, isWrite: bool) returns (charge: nat)
      requires Ok() && p < 0x10_0000 && FM.Accessible(View(), p, isWrite)
      modifies this
      ensures Ok()
      ensures
        var t := FM.TouchPage(old(View()), p, isWrite);
        View() == t.mem && charge == t.charge && t.mem == old(View()).(mat := t.mem.mat)
    {
      hide FM.NotRw;
      charge := 0;
      var i := PageIndex(p);
      if perms[i.value] != FM.ReadOnly {
        var c := Mat.ChargeFor(mat[i.value], Mat.UnpinnedCapCow, isWrite).value;
        charge := c.gas;
        mat := mat[i.value := c.state];
      }
    }

    method MaterializeAll(pages: seq<nat>, isWrite: bool) returns (total: nat)
      requires Ok()
      requires forall k :: 0 <= k < |pages| ==> pages[k] < 0x10_0000 && FM.Accessible(View(), pages[k], isWrite)
      modifies this
      ensures Ok()
      ensures
        var t := FM.TouchPages(old(View()), pages, isWrite);
        View() == t.mem && total == t.charge
    {
      hide FM.Accessible, FM.NotRw, FM.TouchPage, FM.TouchPages;
      var rest := pages;
      total := 0;
      while rest != []
        invariant Ok()
        invariant forall k :: 0 <= k < |rest| ==> rest[k] < 0x10_0000 && FM.Accessible(View(), rest[k], isWrite)
        invariant
          var u := FM.TouchPages(View(), rest, isWrite);
          u.mem == FM.TouchPages(old(View()), pages, isWrite).mem
          && total + u.charge == FM.TouchPages(old(View()), pages, isWrite).charge
      {
        FM.TouchFirst(View(), rest, isWrite);
        var charge := TouchOne(rest[0], isWrite);
        total := total + charge;
        rest := rest[1..];
      }
      FM.TouchNone(View(), isWrite);
    }

    method TouchData(pages: seq<nat>, isWrite: bool, gas: GasCounter) returns (ok: bool)
      requires Ok() && |pages| <= 2 && forall k :: 0 <= k < |pages| ==> pages[k] < 0x10_0000
      requires (forall k :: 0 <= k < |pages| ==> FM.Accessible(View(), pages[k], isWrite)) ==>
        FM.TouchPages(View(), pages, isWrite).charge <= gas.remaining
      modifies this, gas
      ensures Ok()
      ensures ok <==> forall k :: 0 <= k < |pages| ==> FM.Accessible(old(View()), pages[k], isWrite)
      ensures
        if ok then
          var t := FM.TouchPages(old(View()), pages, isWrite);
          View() == t.mem && gas.remaining == old(gas.remaining) - t.charge
        else View() == old(View()) && gas.remaining == old(gas.remaining)
    {
      hide FM.Accessible, FM.NotRw, FM.TouchPages;
      ok := AllAccessible(pages, isWrite);
      if ok {
        var total := MaterializeAll(pages, isWrite);
        var paid := gas.Charge(total);
        assert paid;
      }
    }

    method TouchCode(pages: seq<nat>, isWrite: bool) returns (ok: bool)
      ensures ok <==> !isWrite && forall k :: 0 <= k < |pages| ==> FM.IsCodePage(View(), pages[k])
    {
      if isWrite {
        return false;
      }
      for k := 0 to |pages|
        invariant forall j :: 0 <= j < k ==> FM.IsCodePage(View(), pages[j])
      {
        var code := IsCodePage(pages[k]);
        if !code {
          return false;
        }
      }
      ok := true;
    }

    /** First-touch accounting of one access. */
    method Touch(addr: u32, width: nat, isWrite: bool, gas: GasCounter) returns (ok: bool)
      requires Ok() && 1 <= width <= 8
      requires
        var t := FM.Touch(View(), addr, width, isWrite);
        t.Some? ==> t.value.charge <= gas.remaining
      modifies this, gas
      ensures Ok()
      ensures
        var t := FM.Touch(old(View()), addr, width, isWrite);
        && ok == t.Some?
        && View() == (if t.Some? then t.value.mem else old(View()))
        && gas.remaining == old(gas.remaining) - if t.Some? then t.value.charge else 0
    {
      hide FM.TouchPages, FM.Accessible, FM.NotRw;
      var pages := Mat.AccessPages(addr, width);
      var i := PageIndex(pages[0]);
      var code := IsCodePage(pages[0]);
      if i.Some? && perms[i.value] != FM.NoAccess {
        ok := TouchData(pages, isWrite, gas);
      } else if code {
        ok := TouchCode(pages, isWrite);
      } else {
        ok := true;
      }
    }

    method Read(addr: u32, width: nat) returns (r: Option<seq<byte>>)
      requires Ok()
      ensures r == FM.Read(View(), addr, width)
    {
      var a := Off(addr);
      r := if a + width <= |flat| then Some(flat[a..a + width]) else None;
    }

    method Write(addr: u32, data: seq<byte>) returns (ok: bool)
      requires Ok()
      modifies this
      ensures Ok()
      ensures
        var w := FM.Write(old(View()), addr, data);
        ok == w.Some? && View() == if ok then w.value else old(View())
    {
      var a := Off(addr);
      ok := a + |data| <= |flat|;
      if ok {
        flat := flat[..a] + data + flat[a + |data|..];
      }
    }

    method PermOf(addr: u32) returns (p: FM.Perm)
      requires Ok()
      ensures p == FM.PermOf(View(), addr)
    {
      var o := Off(addr);
      p := if o / 4096 < |perms| then perms[o / 4096] else FM.NoAccess;
    }

    /** Touch, then the buffer, then the read-only code bytes. */
    method Load(code: seq<byte>, codeAt: nat, addr: u32, width: nat, gas: GasCounter) returns (r: Option<seq<byte>>)
      requires Ok() && 1 <= width <= 8
      modifies this, gas
      ensures Ok()
      ensures
        var a := FM.Load(old(View()), code, codeAt, addr, width);
        View() == a.mem && r == a.bytes && gas.remaining == old(gas.remaining) - a.charge
    {
      hide FM.Touch, FM.NotRw;
      var ok := Touch(addr, width, false, gas);
      if !ok {
        return None;
      }
      r := Read(addr, width);
      if r.None? {
        r := ReadCode(code, codeAt, addr, width);
      }
    }

    /** Touch, then the guest permission check, then the bytes. */
    method Store(addr: u32, data: seq<byte>, gas: GasCounter) returns (ok: bool)
      requires Ok() && 1 <= |data| <= 8 && FM.Store(View(), addr, data).charge <= gas.remaining
      modifies this, gas
      ensures Ok()
      ensures
        var a := FM.Store(old(View()), addr, data);
        View() == a.mem && ok == a.bytes.Some? && gas.remaining == old(gas.remaining) - a.charge
    {
      hide FM.Touch, FM.NotRw, FM.PermOf, FM.Write;
      ok := Touch(addr, |data|, true, gas);
      if ok {
        var first := PermOf(addr);
        var last := PermOf(Mat.ByteAddr(addr, |data| - 1));
        if first != FM.ReadWrite || last != FM.ReadWrite {
          return false;
        }
        ok := Write(addr, data);
      }
    }
  }

  // ---- The loop -------------------------------------------------------------

  /** Where an instruction leaves control. */
  datatype Flow<H> = At(idx: nat, gpr: Gpr, host: H) | Out(exit: Exit, regs: Regs, host: H)

  function FlowOf<H>(e: Effect<H>): Flow<H> {
    match e
    case Go(idx, g, _, host, _) => At(idx, g, host)
    case Done(exit, regs, _, host, _) => Out(exit, regs, host)
  }

  function NextFlow<H>(m: Machine<H>, idx: nat, g: Gpr, host: H): Flow<H>
    requires idx < |m.p.insts|
  {
    if idx + 1 < |m.p.insts| then At(idx + 1, g, host) else Out(Panic, Regs(g, m.p.insts[idx].next), host)
  }

  function JumpFlow<H>(m: Machine<H>, idx: nat, target: u32, g: Gpr, host: H): Flow<H>
    requires idx < |m.p.insts|
  {
    var t := Find(m.p.insts, target);
    if t.Some? && m.p.insts[t.value].start then At(t.value, g, host) else Out(Panic, Regs(g, m.p.insts[idx].pc), host)
  }

  method ExecLoad<H>(m: Machine<H>, idx: nat, g: Gpr, mem: CopyingMemory, gas: GasCounter, host: H)
    returns (flow: Flow<H>)
    requires idx < |m.p.insts| && m.p.insts[idx].inst.Load? && mem.Ok()
    modifies mem, gas
    ensures mem.Ok()
    ensures
      var e := Body(m, idx, g, old(mem.View()), host);
      flow == FlowOf(e) && mem.View() == e.mem && gas.remaining == old(gas.remaining) - e.charge
  {
    hide FM.Load, RegWrite, RegRead, Extend;
    var inst := m.p.insts[idx].inst;
    var addr := Addr(g, inst.rs1, inst.imm);
    var bytes := mem.Load(m.code, m.codeBase, addr, inst.width, gas);
    if bytes.None? {
      flow := Out(PageFault(addr / 4096 * 4096), Regs(g, m.p.insts[idx].pc), host);
    } else {
      flow := NextFlow(m, idx, RegWrite(g, inst.rd, Extend(bytes.value, inst.signed)), host);
    }
  }

  method ExecStore<H>(m: Machine<H>, idx: nat, g: Gpr, mem: CopyingMemory, gas: GasCounter, host: H)
    returns (flow: Flow<H>)
    requires idx < |m.p.insts| && m.p.insts[idx].inst.Store? && mem.Ok()
    requires Body(m, idx, g, mem.View(), host).charge <= gas.remaining
    modifies mem, gas
    ensures mem.Ok()
    ensures
      var e := Body(m, idx, g, old(mem.View()), host);
      flow == FlowOf(e) && mem.View() == e.mem && gas.remaining == old(gas.remaining) - e.charge
  {
    hide FM.Store, RegRead, ToLe;
    var inst := m.p.insts[idx].inst;
    var addr := Addr(g, inst.rs1, inst.imm);
    var ok := mem.Store(addr, ToLe(RegRead(g, inst.rs2), inst.width), gas);
    if !ok {
      flow := Out(PageFault(addr / 4096 * 4096), Regs(g, m.p.insts[idx].pc), host);
    } else {
      flow := NextFlow(m, idx, g, host);
    }
  }

  method ExecEcall<H>(m: Machine<H>, idx: nat, g: Gpr, mem: CopyingMemory, host: H) returns (flow: Flow<H>)
    requires idx < |m.p.insts| && IsEcall(m.p.insts[idx].inst) && mem.Ok()
    modifies mem
    ensures mem.Ok()
    ensures
      var e := Ecall(m, idx, g, old(mem.View()), host);
      flow == FlowOf(e) && mem.View() == e.mem
  {
    hide Find;
    var e := m.p.insts[idx];
    var h := m.handler(host, EcallKindOf(e.inst), Regs(g, e.next), mem.View());
    mem.Adopt(h.mem);
    match h.result
    case ExitWith(x) =>
      flow := Out(x, h.regs, h.host);
    case Continue =>
      var t := Find(m.p.insts, e.next);
      flow := if t.Some? then At(t.value, h.regs.gpr, h.host) else Out(Panic, h.regs, h.host);
  }

  /** The instruction match of one iteration. */
  method Exec<H>(m: Machine<H>, idx: nat, g: Gpr, mem: CopyingMemory, gas: GasCounter, host: H)
    returns (flow: Flow<H>)
    requires idx < |m.p.insts| && mem.Ok()
    requires Body(m, idx, g, mem.View(), host).charge <= gas.remaining
    modifies mem, gas
    ensures mem.Ok()
    ensures
      var e := Body(m, idx, g, old(mem.View()), host);
      flow == FlowOf(e) && mem.View() == e.mem && gas.remaining == old(gas.remaining) - e.charge
  {
    hide FM.Load, FM.Store, RegRead, RegWrite, ToLe, Extend, Find, Taken, SignExtend32, Addr, U32;
    var entry := m.p.insts[idx];
    var pc, next := entry.pc, entry.next;
    match entry.inst
    case Load(_, _, _, _, _) =>
      flow := ExecLoad(m, idx, g, mem, gas, host);
    case Store(_, _, _, _) =>
      flow := ExecStore(m, idx, g, mem, gas, host);
    case Unary(_, rd, rs1, _) =>
      flow := NextFlow(m, idx, RegWrite(g, rd, m.alu(entry.inst, [RegRead(g, rs1)])), host);
    case Binary(_, rd, rs1, rs2, _) =>
      flow := NextFlow(m, idx, RegWrite(g, rd, m.alu(entry.inst, [RegRead(g, rs1), RegRead(g, rs2)])), host);
    case Lui(rd, imm) =>
      flow := NextFlow(m, idx, RegWrite(g, rd, SignExtend32(U32(imm))), host);
    case Auipc(rd, imm) =>
      flow := NextFlow(m, idx, RegWrite(g, rd, SignExtend32(U32(m.codeBase + pc + imm))), host);
    case Jal(rd, imm) =>
      var linked := RegWrite(g, rd, U32(m.codeBase + next));
      flow := JumpFlow(m, idx, U32(pc + imm), linked, host);
    case Jalr(rd, rs1, imm) =>
      var target := Addr(g, rs1, imm);
      var linked := RegWrite(g, rd, U32(m.codeBase + next));
      flow := JumpFlow(m, idx, U32(target - m.codeBase), linked, host);
    case Branch(cond, rs1, rs2, imm) =>
      if Taken(cond, RegRead(g, rs1), RegRead(g, rs2)) {
        flow := JumpFlow(m, idx, U32(pc + imm), g, host);
      } else {
        flow := NextFlow(m, idx, g, host);
      }
    case Fence =>
      flow := NextFlow(m, idx, g, host);
    case Fallthrough =>
      flow := NextFlow(m, idx, g, host);
    case Trap =>
      flow := Out(Trapped, Regs(g, pc), host);
    case Reserved =>
      flow := Out(Panic, Regs(g, pc), host);
    case EcallJar =>
      flow := ExecEcall(m, idx, g, mem, host);
    case Ecalli(_) =>
      flow := ExecEcall(m, idx, g, mem, host);
  }

  /** The block gate and the ecall floor: check before charge. */
  method PassGate<H>(m: Machine<H>, c: Cfg<H>, gas: GasCounter) returns (ok: bool)
    requires Ok(m, c) && c.gas == gas.remaining
    modifies gas
    ensures ok <==> c.gas >= Need(m, c.idx)
    ensures gas.remaining == c.gas - if ok then Fee(m, c.idx) else 0
  {
    hide ReserveAt;
    var e := m.p.insts[c.idx];
    assert e.start <==> StartAt(m.p.insts, c.idx);
    if e.start {
      var cost := m.p.costs[c.idx];
      if cost != 0 {
        if gas.remaining < cost + m.p.reserves[c.idx] {
          return false;
        }
        var paid := gas.Charge(cost);
        assert paid;
      }
    }
    if IsEcall(e.inst) {
      if gas.remaining < ECALL_FLOOR {
        return false;
      }
      var paid := gas.Charge(ECALL_FLOOR);
      assert paid;
    }
    ok := true;
  }

  lemma RunStep<H>(m: Machine<H>, c: Cfg<H>)
    requires Ok(m, c)
    ensures Step(m, c).Next? ==> Ok(m, Step(m, c).cfg) && Run(m, c) == Run(m, Step(m, c).cfg)
    ensures Step(m, c).Stop? ==> Run(m, c) == Some(Step(m, c).final)
  {
    hide Step, Priced;
    StepProgress(m, c);
  }

  /** `Interpreter::run` computes the run of the specification; its charges never
      fail. */
  method RunProgram<H>(m: Machine<H>, regs: Regs, mem: CopyingMemory, gas: GasCounter, host: H)
    returns (exit: Exit, regs': Regs, host': H)
    requires Priced(m.p) && mem.Ok()
    modifies mem, gas
    ensures mem.Ok()
    ensures Enter(m, regs, old(mem.View()), old(gas.remaining), host)
         == Some(Final(exit, regs', mem.View(), gas.remaining, host'))
  {
    hide Run, Step, Body, Priced, Find, Need, Fee, Covers, RestReserve;
    var start := Find(m.p.insts, U32(regs.pc));
    if start.None? || !m.p.insts[start.value].start {
      return Panic, regs, host;
    }
    var c: Cfg<H> := Cfg(start.value, regs.gpr, mem.View(), gas.remaining, host);
    while true
      invariant mem.Ok() && Ok(m, c) && Backed(m, c)
      invariant c.mem == mem.View() && c.gas == gas.remaining
      invariant Run(m, c) == Enter(m, regs, old(mem.View()), old(gas.remaining), host)
      decreases c.gas, Left(m, c.idx)
    {
      StepShape(m, c);
      StepBacked(m, c);
      StepProgress(m, c);
      RunStep(m, c);
      var open := PassGate(m, c, gas);
      if !open {
        return OutOfGas, Regs(c.gpr, m.p.insts[c.idx].pc), c.host;
      }
      var flow := Exec(m, c.idx, c.gpr, mem, gas, c.host);
      match flow
      case Out(x, r, h) =>
        return x, r, h;
      case At(idx, g, h) =>
        c := Cfg(idx, g, mem.View(), gas.remaining, h);
    }
  }
}
