/** Whole-run gas laws of the interpreter: the reserve covers every mid-block
    debit, every unit of gas is accounted for, and topping up an exhausted run
    is the same as starting with more gas. */
module Metering {
  import opened Prelude
  import opened Encoding
  import opened LittleEndian
  import opened Isa
  import opened GasCost
  import opened Predecode
  import opened Interp
  import FM = FlatMemory
  import Mat

  // ---- Reserve soundness ----------------------------------------------------

  /** First instruction of the block containing `i`. */
  function Head(insts: seq<Entry>, i: nat): (h: nat)
    requires i < |insts|
    ensures h <= i && (h == 0 || insts[h].start) && forall k :: h < k <= i ==> !insts[k].start
  {
    if i == 0 || insts[i].start then i else Head(insts, i - 1)
  }

  /** The 32-bit cap binds on the reserve of the block containing `i`. */
  predicate Capped(insts: seq<Entry>, i: nat)
    requires i < |insts|
  {
    RestReserve(insts, Head(insts, i)) > 0xFFFF_FFFF
  }

  /** Enough gas for the rest of the block from `idx` on: its reserve, or, where
      the cap binds, COW_COST for every page not yet writable. */
  predicate Covers<H>(m: Machine<H>, idx: nat, mem: GoodMem, gas: nat)
    requires idx < |m.p.insts|
  {
    if Capped(m.p.insts, idx) then gas >= Mat.COW_COST * FM.NotRw(mem.mat) else gas >= RestReserve(m.p.insts, idx)
  }

  /** Either way the lesser of the two is there. */
  lemma CoversLesser<H>(m: Machine<H>, idx: nat, mem: GoodMem, gas: nat)
    requires idx < |m.p.insts| && Covers(m, idx, mem, gas)
    ensures gas >= Min(RestReserve(m.p.insts, idx), Mat.COW_COST * FM.NotRw(mem.mat))
  {
    hide RestReserve, FM.NotRw;
  }

  /** Inside a block the rest of it is covered. */
  predicate Backed<H>(m: Machine<H>, c: Cfg<H>)
    requires Ok(m, c)
  {
    m.p.insts[c.idx].start || Covers(m, c.idx, c.mem, c.gas)
  }

  /** The 32-bit saturation of a block reserve is harmless: there are at most
      2^20 pages to write. */
  lemma PagesBelowSaturation(mem: GoodMem)
    ensures Mat.COW_COST * FM.NotRw(mem.mat) < 0xFFFF_FFFF
  {
  }

  lemma GateCovers<H>(m: Machine<H>, c: Cfg<H>)
    requires Ok(m, c) && c.gas >= Need(m, c.idx) && Backed(m, c)
    ensures IsEcall(m.p.insts[c.idx].inst) || Covers(m, c.idx, c.mem, c.gas - Fee(m, c.idx))
  {
    hide RestReserve;
    PagesBelowSaturation(c.mem);
    assert m.p.reserves[c.idx] == ReserveAt(m.p.insts, c.idx);
  }

  /** The block goes on with the next instruction. */
  lemma RestNext(insts: seq<Entry>, i: nat)
    requires i + 1 < |insts| && !insts[i + 1].start
    ensures RestReserve(insts, i) == ReserveOf(insts[i].inst) + RestReserve(insts, i + 1)
    ensures Capped(insts, i + 1) == Capped(insts, i)
  {
    hide ReserveOf;
  }

  lemma RestHere(insts: seq<Entry>, i: nat)
    requires i < |insts|
    ensures RestReserve(insts, i) >= ReserveOf(insts[i].inst)
  {
    hide ReserveOf;
  }

  /** A debit of COW_COST per page is covered by COW_COST for every page. */
  lemma PagesPay(before: seq<Mat.PageState>, after: seq<Mat.PageState>, charge: nat)
    requires FM.Grows(before, after) && charge == Mat.COW_COST * |FM.Written(before, after)|
    ensures charge + Mat.COW_COST * FM.NotRw(after) == Mat.COW_COST * FM.NotRw(before)
  {
    FM.WrittenCount(before, after);
    hide FM.NotRw, FM.Written;
  }

  lemma RestStep<H>(m: Machine<H>, c: Cfg<H>, e: Effect<H>, gas: nat)
    requires Ok(m, c) && Covers(m, c.idx, c.mem, gas)
    requires !IsEcall(m.p.insts[c.idx].inst) && Pays(m.p.insts[c.idx].inst, c.mem, e) && Lands(m, c.idx, e)
    ensures gas >= e.charge
    ensures e.Go? && !m.p.insts[e.idx].start ==> Covers(m, e.idx, e.mem, gas - e.charge)
  {
    hide FM.NotRw, FM.Written, FM.Grows, Priced, RestReserve, ReserveOf, Capped;
    PagesPay(c.mem.mat, e.mem.mat, e.charge);
    RestHere(m.p.insts, c.idx);
    if e.Go? && !m.p.insts[e.idx].start {
      RestNext(m.p.insts, c.idx);
    }
  }

  lemma EcallFree<H>(inst: Inst, mem: GoodMem, e: Effect<H>)
    requires IsEcall(inst) && Pays(inst, mem, e)
    ensures e.charge == 0
  {
  }

  lemma AfterEcall<H>(m: Machine<H>, c: Cfg<H>)
    requires Ok(m, c) && IsEcall(m.p.insts[c.idx].inst)
    ensures
      var e := Body(m, c.idx, c.gpr, c.mem, c.host);
      e.Go? ==> e.idx < |m.p.insts| && m.p.insts[e.idx].start
  {
    hide Priced, Find;
    BodyLands(m, c.idx, c.gpr, c.mem, c.host);
    PricedStart(m.p, c.idx);
    if c.idx + 1 < |m.p.insts| {
      PricedStart(m.p, c.idx + 1);
    }
  }

  /** One iteration from a backed state neither crashes nor loses the backing. */
  lemma StepBacked<H>(m: Machine<H>, c: Cfg<H>)
    requires Ok(m, c) && Backed(m, c)
    ensures !Step(m, c).Crash?
    ensures Step(m, c).Next? ==> Ok(m, Step(m, c).cfg) && Backed(m, Step(m, c).cfg)
  {
    hide Body, Step, Priced, Covers, Pays, Need, Fee, ReserveOf;
    StepShape(m, c);
    StepProgress(m, c);
    BodyLands(m, c.idx, c.gpr, c.mem, c.host);
    BodyPays(m, c.idx, c.gpr, c.mem, c.host);
    var e := Body(m, c.idx, c.gpr, c.mem, c.host);
    if c.gas >= Need(m, c.idx) {
      GateCovers(m, c);
      if IsEcall(m.p.insts[c.idx].inst) {
        EcallFree(m.p.insts[c.idx].inst, c.mem, e);
        AfterEcall(m, c);
      } else {
        RestStep(m, c, e, c.gas - Fee(m, c.idx));
      }
    }
  }

  /** No run from a backed state ever crashes. */
  lemma {:induction false} RunNeverCrashes<H>(m: Machine<H>, c: Cfg<H>)
    requires Ok(m, c) && Backed(m, c)
    ensures Run(m, c).Some? && Run(m, c).value.gas <= c.gas
    decreases c.gas, Left(m, c.idx)
  {
    hide Step, Priced, Backed;
    StepBacked(m, c);
    StepProgress(m, c);
    if Step(m, c).Next? {
      RunNeverCrashes(m, Step(m, c).cfg);
    }
  }

  /** Entering a program anywhere, with any gas, never fires the `.expect`. */
  lemma EnterNeverCrashes<H>(m: Machine<H>, regs: Regs, mem: GoodMem, gas: nat, host: H)
    requires Priced(m.p)
    ensures Enter(m, regs, mem, gas, host).Some?
    ensures Enter(m, regs, mem, gas, host).value.gas <= gas
  {
    hide Run, Priced, Find;
    var i := Find(m.p.insts, U32(regs.pc));
    if i.Some? && m.p.insts[i.value].start {
      RunNeverCrashes(m, Cfg(i.value, regs.gpr, mem, gas, host));
    }
  }

  /** The state after `n` iterations, if the run is still going. */
  function After<H>(m: Machine<H>, c: Cfg<H>, n: nat): Option<Cfg<H>>
    requires Ok(m, c)
    decreases n
  {
    if n == 0 then Some(c)
    else
      StepProgress(m, c);
      match Step(m, c)
      case Next(c') => After(m, c', n - 1)
      case _ => None
  }

  /** Every state a run reaches mid-block covers the rest of its block. */
  lemma {:induction false} AlwaysBacked<H>(m: Machine<H>, c: Cfg<H>, n: nat)
    requires Ok(m, c) && Backed(m, c)
    ensures
      var r := After(m, c, n);
      r.Some? ==> Ok(m, r.value) && Backed(m, r.value) && !Step(m, r.value).Crash?
    decreases n
  {
    hide Step, Priced, Backed;
    StepBacked(m, c);
    StepProgress(m, c);
    if n > 0 && Step(m, c).Next? {
      AlwaysBacked(m, Step(m, c).cfg, n - 1);
    }
  }

  // ---- Exact accounting -----------------------------------------------------

  /** What a run does that gas pays for; `Exec` names the pages it turned
      writable. */
  datatype Event = EnterBlock(idx: nat) | EcallFloor(idx: nat) | Exec(idx: nat, written: set<nat>)

  function Price<H>(m: Machine<H>, ev: Event): nat {
    match ev
    case EnterBlock(i) => if i < |m.p.costs| then m.p.costs[i] else 0
    case EcallFloor(_) => ECALL_FLOOR
    case Exec(_, written) => Mat.COW_COST * |written|
  }

  function Total<H>(m: Machine<H>, evs: seq<Event>): nat {
    if evs == [] then 0 else Price(m, evs[0]) + Total(m, evs[1..])
  }

  lemma {:induction false} TotalConcat<H>(m: Machine<H>, a: seq<Event>, b: seq<Event>)
    ensures Total(m, a + b) == Total(m, a) + Total(m, b)
  {
    if a == [] {
      assert a + b == b;
    } else {
      TotalConcat(m, a[1..], b);
      assert (a + b)[1..] == a[1..] + b;
    }
  }

  /** The charge for passing the boundary at `idx`, if it has one. */
  function Paying<H>(m: Machine<H>, idx: nat): seq<Event>
    requires idx < |m.p.insts|
  {
    if Gated(m.p.insts, idx) then [EnterBlock(idx)]
    else if IsEcall(m.p.insts[idx].inst) then [EcallFloor(idx)]
    else []
  }

  function StepEvents<H>(m: Machine<H>, c: Cfg<H>): seq<Event>
    requires Ok(m, c)
  {
    if c.gas < Need(m, c.idx) then []
    else
      var e := Body(m, c.idx, c.gpr, c.mem, c.host);
      Paying(m, c.idx)
      + [Exec(c.idx, if IsEcall(m.p.insts[c.idx].inst) then {} else FM.Written(c.mem.mat, e.mem.mat))]
  }

  function Trace<H>(m: Machine<H>, c: Cfg<H>): seq<Event>
    requires Ok(m, c)
    decreases c.gas, Left(m, c.idx)
  {
    StepProgress(m, c);
    match Step(m, c)
    case Next(c') => StepEvents(m, c) + Trace(m, c')
    case _ => StepEvents(m, c)
  }

  lemma PayingTotal<H>(m: Machine<H>, idx: nat, last: Event)
    requires Priced(m.p) && idx < |m.p.insts|
    ensures Total(m, Paying(m, idx) + [last]) == Fee(m, idx) + Price(m, last)
  {
    TotalConcat(m, Paying(m, idx), [last]);
    assert Total(m, [last]) == Price(m, last) + Total(m, []);
    if Paying(m, idx) != [] {
      assert Paying(m, idx)[1..] == [];
    }
  }

  lemma ExecPrice<H>(m: Machine<H>, idx: nat, written: set<nat>)
    ensures Price(m, Exec(idx, written)) == Mat.COW_COST * |written|
  {
  }

  lemma NoEvents<H>(m: Machine<H>)
    ensures Total(m, []) == 0
  {
  }

  lemma StepTotal<H>(m: Machine<H>, c: Cfg<H>)
    requires Ok(m, c) && Backed(m, c)
    ensures
      var s := Step(m, c);
      && (s.Next? ==> c.gas == s.cfg.gas + Total(m, StepEvents(m, c)))
      && (s.Stop? ==> c.gas == s.final.gas + Total(m, StepEvents(m, c)))
  {
    hide Body, Step, Priced, Backed, Need, Fee, ReserveOf, FM.Written, FM.Grows, Paying, Price, Total;
    StepShape(m, c);
    BodyPays(m, c.idx, c.gpr, c.mem, c.host);
    var e := Body(m, c.idx, c.gpr, c.mem, c.host);
    var inst := m.p.insts[c.idx].inst;
    if c.gas >= Need(m, c.idx) {
      var last := Exec(c.idx, if IsEcall(inst) then {} else FM.Written(c.mem.mat, e.mem.mat));
      PayingTotal(m, c.idx, last);
      assert StepEvents(m, c) == Paying(m, c.idx) + [last];
      ExecPrice(m, c.idx, last.written);
      if IsEcall(inst) {
        EcallFree(inst, c.mem, e);
      }
      StepBacked(m, c);
    } else {
      NoEvents(m);
    }
  }

  /** Gas used is the cost of the blocks entered, the floor of each ecall and
      COW_COST for every page that became writable. */
  lemma {:induction false} ExactGas<H>(m: Machine<H>, c: Cfg<H>)
    requires Ok(m, c) && Backed(m, c)
    ensures Run(m, c).Some? && c.gas == Run(m, c).value.gas + Total(m, Trace(m, c))
    decreases c.gas, Left(m, c.idx)
  {
    hide Step, Priced, Backed, StepEvents, Total;
    StepBacked(m, c);
    StepProgress(m, c);
    StepTotal(m, c);
    if Step(m, c).Next? {
      var c' := Step(m, c).cfg;
      ExactGas(m, c');
      TotalConcat(m, StepEvents(m, c), Trace(m, c'));
    }
  }

  /** The instruction that stays paid for after `i` ran. */
  function Rest<H>(m: Machine<H>, i: nat): Option<nat> {
    if i + 1 < |m.p.insts| && !m.p.insts[i + 1].start then Some(i + 1) else None
  }

  /** Every instruction runs in a block paid for on this entry: a payment opens
      its block at the first instruction and is never the last event, an executed
      instruction must be the open one, and the block stays open up to the next
      block start. */
  predicate Paid<H>(m: Machine<H>, evs: seq<Event>, open: Option<nat>)
    decreases |evs|
  {
    evs == [] || match evs[0]
      case EnterBlock(i) => i < |m.p.insts| && Gated(m.p.insts, i) && |evs| > 1 && Paid(m, evs[1..], Some(i))
      case EcallFloor(i) => i < |m.p.insts| && IsEcall(m.p.insts[i].inst) && |evs| > 1 && Paid(m, evs[1..], Some(i))
      case Exec(i, _) => open == Some(i) && Paid(m, evs[1..], Rest(m, i))
  }

  lemma PaidStep<H>(m: Machine<H>, c: Cfg<H>, open: Option<nat>, tail: seq<Event>)
    requires Ok(m, c) && c.gas >= Need(m, c.idx) && (m.p.insts[c.idx].start || open == Some(c.idx))
    requires Paid(m, tail, Rest(m, c.idx))
    ensures Paid(m, StepEvents(m, c) + tail, open)
  {
    hide Body, Priced, Need, FM.Written;
    var paying := Paying(m, c.idx);
    var events := StepEvents(m, c) + tail;
    var exec := events[|paying|..];
    assert exec[1..] == tail;
    assert exec[0].Exec? && exec[0].idx == c.idx;
    assert Paid(m, exec, Some(c.idx));
    PricedStart(m.p, c.idx);
    if paying == [] {
      assert events == exec;
    } else {
      assert events[1..] == exec;
    }
  }

  lemma NothingPaid<H>(m: Machine<H>, open: Option<nat>)
    ensures Paid(m, [], open)
  {
  }

  lemma NoStepEvents<H>(m: Machine<H>, c: Cfg<H>)
    requires Ok(m, c) && c.gas < Need(m, c.idx)
    ensures StepEvents(m, c) == []
  {
  }

  /** No instruction executes outside a block paid for on that entry. */
  lemma {:induction false} OnlyPaidBlocks<H>(m: Machine<H>, c: Cfg<H>, open: Option<nat>)
    requires Ok(m, c) && (m.p.insts[c.idx].start || open == Some(c.idx))
    ensures Paid(m, Trace(m, c), open)
    decreases c.gas, Left(m, c.idx)
  {
    hide Step, Priced, StepEvents, Body, Need, Paid;
    StepProgress(m, c);
    StepShape(m, c);
    BodyLands(m, c.idx, c.gpr, c.mem, c.host);
    NothingPaid(m, open);
    NothingPaid(m, Rest(m, c.idx));
    if c.gas < Need(m, c.idx) {
      NoStepEvents(m, c);
    } else if Step(m, c).Next? {
      var c' := Step(m, c).cfg;
      OnlyPaidBlocks(m, c', Rest(m, c.idx));
      PaidStep(m, c, open, Trace(m, c'));
    } else {
      PaidStep(m, c, open, []);
      assert StepEvents(m, c) + [] == StepEvents(m, c);
    }
  }

  // ---- Topping up -----------------------------------------------------------

  function Plus<H>(c: Cfg<H>, d: nat): Cfg<H> {
    c.(gas := c.gas + d)
  }

  /** More gas changes nothing but the gas, short of a gate that was shut. */
  lemma StepMoreGas<H>(m: Machine<H>, c: Cfg<H>, d: nat)
    requires Ok(m, c) && c.gas >= Need(m, c.idx) && !Step(m, c).Crash?
    ensures Step(m, c).Next? ==> Step(m, Plus(c, d)) == Next(Plus(Step(m, c).cfg, d))
    ensures
      var s := Step(m, c);
      s.Stop? ==> Step(m, Plus(c, d)) == Stop(s.final.(gas := s.final.gas + d))
  {
    hide Body, Step, Priced, Need, Fee;
    StepShape(m, c);
    StepShape(m, Plus(c, d));
  }

  /** The boundary the run stops at for lack of gas, if it does. */
  function GateOf<H>(m: Machine<H>, c: Cfg<H>): (r: Option<nat>)
    requires Ok(m, c)
    ensures r.Some? ==> r.value < |m.p.insts|
    decreases c.gas, Left(m, c.idx)
  {
    StepProgress(m, c);
    if c.gas < Need(m, c.idx) then Some(c.idx)
    else
      match Step(m, c)
      case Next(c') => GateOf(m, c')
      case _ => None
  }

  /** A run stopped at a gate stands at a block start it has not paid for. */
  lemma {:induction false} GateIsUnpaid<H>(m: Machine<H>, c: Cfg<H>)
    requires Ok(m, c) && Backed(m, c) && GateOf(m, c).Some?
    ensures
      var i, f := GateOf(m, c).value, Run(m, c);
      && m.p.insts[i].start
      && f.Some? && f.value.exit == OutOfGas
      && f.value.regs.pc == m.p.insts[i].pc
      && f.value.gas < Need(m, i)
    decreases c.gas, Left(m, c.idx)
  {
    hide Step, Body, Priced, Backed, Need;
    StepBacked(m, c);
    StepProgress(m, c);
    StepShape(m, c);
    if c.gas >= Need(m, c.idx) {
      GateIsUnpaid(m, Step(m, c).cfg);
    }
  }

  /** With `d` more gas a run goes on from the gate it stopped at, or just ends
      with `d` more left. */
  ghost predicate GoesOn<H>(m: Machine<H>, c: Cfg<H>, d: nat)
    requires Ok(m, c)
  {
    match Run(m, c)
    case None => false
    case Some(f) =>
      match GateOf(m, c)
      case Some(i) => Run(m, Plus(c, d)) == Run(m, Cfg(i, f.regs.gpr, f.mem, f.gas + d, f.host))
      case None => Run(m, Plus(c, d)) == Some(f.(gas := f.gas + d))
  }

  lemma {:induction false} RunMoreGas<H>(m: Machine<H>, c: Cfg<H>, d: nat)
    requires Ok(m, c) && Backed(m, c)
    ensures GoesOn(m, c, d)
    decreases c.gas, Left(m, c.idx)
  {
    hide Step, Body, Priced, Backed, Need;
    StepBacked(m, c);
    StepProgress(m, c);
    StepShape(m, c);
    if c.gas >= Need(m, c.idx) {
      StepMoreGas(m, c, d);
      if Step(m, c).Next? {
        RunMoreGas(m, Step(m, c).cfg, d);
      }
    }
  }

  function HandlerResult<H>(m: Machine<H>, i: nat, h: H, g: Gpr, mem: GoodMem): EcallResult
    requires i < |m.p.insts| && IsEcall(m.p.insts[i].inst)
  {
    m.handler(h, EcallKindOf(m.p.insts[i].inst), Regs(g, m.p.insts[i].next), mem).result
  }

  /** The handler never ends an ecall of this program with `OutOfGas`. */
  ghost predicate HandlerKeepsOogToGates<H(!new)>(m: Machine<H>) {
    forall i: nat, h: H, g: Gpr, mem: GoodMem :: i < |m.p.insts| && IsEcall(m.p.insts[i].inst) ==>
      HandlerResult(m, i, h, g, mem) != ExitWith(OutOfGas)
  }

  lemma OogOnlyFromHandler<H>(m: Machine<H>, idx: nat, g: Gpr, mem: GoodMem, host: H)
    requires idx < |m.p.insts|
    ensures
      var e := Body(m, idx, g, mem, host);
      e.Done? && e.exit == OutOfGas ==>
        IsEcall(m.p.insts[idx].inst) && HandlerResult(m, idx, host, g, mem) == ExitWith(OutOfGas)
  {
    hide Find, FM.Load, FM.Store, RegWrite, RegRead, Extend, ToLe, Addr, Taken, SignExtend32;
  }

  lemma {:induction false} OogAtGate<H(!new)>(m: Machine<H>, c: Cfg<H>)
    requires Ok(m, c) && Backed(m, c) && HandlerKeepsOogToGates(m)
    requires Run(m, c).Some? && Run(m, c).value.exit == OutOfGas
    ensures GateOf(m, c).Some?
    decreases c.gas, Left(m, c.idx)
  {
    hide Step, Body, Priced, Backed, Need, HandlerResult;
    StepBacked(m, c);
    StepProgress(m, c);
    StepShape(m, c);
    if c.gas >= Need(m, c.idx) {
      OogOnlyFromHandler(m, c.idx, c.gpr, c.mem, c.host);
      if Step(m, c).Next? {
        OogAtGate(m, Step(m, c).cfg);
      }
    }
  }

  /** One run with g1 that stops out of gas, resumed from its exit state with the
      leftover plus g2, ends exactly as one run with g1 + g2. */
  ghost predicate SameAsOneRun<H>(m: Machine<H>, regs: Regs, mem: GoodMem, g1: nat, g2: nat, host: H)
    requires Priced(m.p)
  {
    match Enter(m, regs, mem, g1, host)
    case None => false
    case Some(f) =>
      f.exit == OutOfGas ==> Enter(m, f.regs, f.mem, f.gas + g2, f.host) == Enter(m, regs, mem, g1 + g2, host)
  }

  lemma PricedPc(p: Predecoded, i: nat)
    requires Priced(p) && i < |p.insts|
    ensures U32(p.insts[i].pc) == p.insts[i].pc
  {
    hide ReserveAt, Gated;
    assert p.insts[i].pc < p.insts[i].next;
  }

  lemma TopUpAtGates<H(!new)>(m: Machine<H>, regs: Regs, mem: GoodMem, g1: nat, g2: nat, host: H)
    requires Priced(m.p) && HandlerKeepsOogToGates(m)
    ensures SameAsOneRun(m, regs, mem, g1, g2, host)
  {
    hide Run, Priced, Find, HandlerKeepsOogToGates, GateOf;
    EnterNeverCrashes(m, regs, mem, g1, host);
    var i := Find(m.p.insts, U32(regs.pc));
    var f := Enter(m, regs, mem, g1, host).value;
    if f.exit == OutOfGas {
      var c := Cfg(i.value, regs.gpr, mem, g1, host);
      OogAtGate(m, c);
      GateIsUnpaid(m, c);
      RunMoreGas(m, c, g2);
      var j := GateOf(m, c).value;
      PricedStart(m.p, j);
      PricedPc(m.p, j);
      FindUnique(m.p.insts, j);
    }
  }

  lemma EcallStops<H>(m: Machine<H>, i: nat, h: H, g: Gpr, mem: GoodMem, extra: nat)
    requires Priced(m.p) && i < |m.p.insts| && IsEcall(m.p.insts[i].inst)
    requires HandlerResult(m, i, h, g, mem) == ExitWith(OutOfGas)
    ensures
      var r := m.handler(h, EcallKindOf(m.p.insts[i].inst), Regs(g, m.p.insts[i].next), mem);
      Enter(m, Regs(g, m.p.insts[i].pc), mem, ECALL_FLOOR + extra, h) == Some(Final(OutOfGas, r.regs, r.mem, extra, r.host))
  {
    hide Priced, Find;
    PricedStart(m.p, i);
    PricedPc(m.p, i);
    FindUnique(m.p.insts, i);
    StepShape(m, Cfg(i, g, mem, ECALL_FLOOR + extra, h));
  }

  lemma RunSpends<H>(m: Machine<H>, c: Cfg<H>)
    requires Ok(m, c) && m.p.insts[c.idx].start && c.gas >= Need(m, c.idx)
    ensures Run(m, c).Some? && Run(m, c).value.gas < c.gas
  {
    hide Step, Body, Priced, Need;
    StepBacked(m, c);
    StepProgress(m, c);
    StepShape(m, c);
    if Step(m, c).Next? {
      RunNeverCrashes(m, Step(m, c).cfg);
    }
  }

  /** Where the handler does say `OutOfGas`, some top-up is told apart: the one
      long run stops at the same ecall with all of the extra gas left, while the
      resumed run pays for a block first (or finds no block to enter). */
  lemma TopUpBroken<H(!new)>(m: Machine<H>, i: nat, h: H, g: Gpr, mem: GoodMem) returns (g2: nat)
    requires Priced(m.p) && i < |m.p.insts| && IsEcall(m.p.insts[i].inst)
    requires HandlerResult(m, i, h, g, mem) == ExitWith(OutOfGas)
    ensures !SameAsOneRun(m, Regs(g, m.p.insts[i].pc), mem, ECALL_FLOOR, g2, h)
  {
    hide Run, Priced, Find;
    var regs := Regs(g, m.p.insts[i].pc);
    var r := m.handler(h, EcallKindOf(m.p.insts[i].inst), Regs(g, m.p.insts[i].next), mem);
    EcallStops(m, i, h, g, mem, 0);
    var j := Find(m.p.insts, U32(r.regs.pc));
    if j.Some? && m.p.insts[j.value].start {
      g2 := Need(m, j.value);
      RunSpends(m, Cfg(j.value, r.regs.gpr, r.mem, g2, r.host));
    } else {
      g2 := 0;
    }
    EcallStops(m, i, h, g, mem, g2);
  }

  /** One `ecall.jar`, and a handler that ends it with `OutOfGas`. */
  const ECALL_CODE: seq<byte> := [0x0B, 0x10, 0, 0]

  function OogMachine(memCycles: nat, plain: PlainDecoder, alu: (Inst, seq<u64>) -> u64): Machine<nat> {
    Machine(PredecodeOf(ECALL_CODE, memCycles, plain), ECALL_CODE, 0x40_0000, alu,
            (h: nat, kind: EcallKind, regs: Regs, mem: GoodMem) => Handled(h, regs, mem, ExitWith(OutOfGas)))
  }

  lemma EcallDecodes(plain: PlainDecoder)
    ensures Sweep(ECALL_CODE, 0, plain) == [Entry(EcallJar, 0, 4, false)]
  {
    Whole(0x100B);
    assert HalfAt(ECALL_CODE, 0) == 0x100B;
    assert WordAt(ECALL_CODE, 0) == 0x100B;
    assert Decode(ECALL_CODE, 0, plain) == Some(Decoded(EcallJar, 4));
    assert Decode(ECALL_CODE, 4, plain) == None;
    assert Sweep(ECALL_CODE, 4, plain) == [];
  }

  /** Some top-up of this machine is told apart. */
  lemma TopUpExample(memCycles: nat, plain: PlainDecoder, alu: (Inst, seq<u64>) -> u64, g: Gpr, mem: GoodMem, h: nat)
    returns (g2: nat)
    ensures
      var m := OogMachine(memCycles, plain, alu);
      Priced(m.p) && !SameAsOneRun(m, Regs(g, 0), mem, ECALL_FLOOR, g2, h)
  {
    hide Priced, SameAsOneRun, Sweep;
    var m := OogMachine(memCycles, plain, alu);
    PredecodePriced(ECALL_CODE, memCycles, plain);
    EcallDecodes(plain);
    g2 := TopUpBroken(m, 0, h, g, mem);
  }

  /** Top-up transparency over all runs, exactly when only gates run out of gas. */
  lemma TopUpTransparent<H(!new)>(m: Machine<H>)
    requires Priced(m.p)
    ensures HandlerKeepsOogToGates(m) <==>
      forall regs: Regs, mem: GoodMem, g1: nat, g2: nat, host: H :: SameAsOneRun(m, regs, mem, g1, g2, host)
  {
    hide SameAsOneRun, HandlerResult, Priced;
    if HandlerKeepsOogToGates(m) {
      forall regs: Regs, mem: GoodMem, g1: nat, g2: nat, host: H ensures SameAsOneRun(m, regs, mem, g1, g2, host) {
        TopUpAtGates(m, regs, mem, g1, g2, host);
      }
    } else {
      var i: nat, h: H, g: Gpr, mem: GoodMem :| i < |m.p.insts| && IsEcall(m.p.insts[i].inst)
        && HandlerResult(m, i, h, g, mem) == ExitWith(OutOfGas);
      var g2 := TopUpBroken(m, i, h, g, mem);
    }
  }
}
